// The argument parser accepts exactly the lines of the grammar, with the arguments they are written for, and
// refuses exactly the ones that go wrong.
module ManageSieveLines {
  import opened Bytes
  import opened ManageSieve
  import opened ManageSieveGrammar
  import opened ManageSieveWords

  // ----- Every word is one of the three -----

  datatype Verdict = Whole(word: Word) | Spoilt(stump: Stump) | Unfinished(stump: Stump)

  ghost predicate Judged(cfg: Config, at: nat, w: seq<Byte>, v: Verdict)
  {
    match v
    case Whole(word) => WordAt(cfg, at, w, word)
    case Spoilt(stump) => SpoiltAt(cfg, at, w, stump)
    case Unfinished(stump) => OpenAt(cfg, at, w, stump) && w != []
  }

  lemma JudgeAtom(cfg: Config, at: nat, w: seq<Byte>) returns (v: Verdict)
    requires w != [] && w[0] !in [SPACE, CR, LF, QUOTE, LBRACE]
    ensures Judged(cfg, at, w, v)
  {
    hide AtomByte, AfterAtom;
    var n := AtomShape(w, 0);
    var text := w[..n];
    if n == |w| {
      assert w[n..] == [];
      v := Unfinished(HalfAtom(text));
    } else if n > 0 && AfterAtom(w[n]) {
      v := Whole(WAtom(text));
    } else {
      assert w[n..][0] == w[n];
      v := Spoilt(HalfAtom(text));
    }
  }

  lemma Front(w: seq<Byte>, a: seq<Byte>, b: seq<Byte>)
    requires a <= w && Has(w, |a|, b)
    ensures a + b <= w
  {
    assert w[..|a + b|] == w[..|a|] + w[|a|..|a| + |b|];
  }

  lemma JudgeString(cfg: Config, at: nat, w: seq<Byte>) returns (v: Verdict)
    requires w != [] && w[0] == QUOTE
    ensures Judged(cfg, at, w, v)
  {
    hide Raw, UnitFits;
    var units := UnitsShape(w, 1);
    Front(w, [QUOTE], Raw(units));
    var e := 1 + |Raw(units)|;
    if e < |w| { assert w[e] == w[e..][0] && (e + 1 < |w| ==> w[e + 1] == w[e..][1]); }
    if e == |w| || (w[e] == BACKSLASH && e + 1 == |w|) {
      assert w[e..] == [] || w[e..] == [BACKSLASH];
      v := Unfinished(HalfString(units));
    } else if w[e] == QUOTE && cfg.utf8(Raw(units)) {
      Front(w, [QUOTE] + Raw(units), [QUOTE]);
      v := Whole(WString(units));
    } else {
      v := Spoilt(HalfString(units));
    }
  }

  lemma JudgeLiteral(cfg: Config, at: nat, w: seq<Byte>) returns (v: Verdict)
    requires w != [] && w[0] == LBRACE
    ensures Judged(cfg, at, w, v)
  {
    hide Number;
    var digits := DigitsShape(w, 1, 0);
    Front(w, [LBRACE], digits);
    var e := 1 + |digits|;
    assert Plus(false) == [] && [LBRACE] + digits + [] == [LBRACE] + digits;
    if e < |w| {
      assert w[e] == w[e..][0];
      if w[e] == RBRACE {
        v := JudgeHeaded(cfg, at, w, digits, false);
      } else if w[e] == PLUS {
        v := JudgePlus(cfg, at, w, digits);
      } else {
        if IsDigit(w[e]) { NumberGrows(0, digits, w[e]); }
        v := Spoilt(HalfHeader(digits, false));
      }
    } else {
      assert w[e..] == [];
      v := Unfinished(HalfHeader(digits, false));
    }
  }

  lemma JudgePlus(cfg: Config, at: nat, w: seq<Byte>, digits: seq<Byte>) returns (v: Verdict)
    requires [LBRACE] + digits <= w && SizeFits(digits) && 1 + |digits| < |w| && w[1 + |digits|] == PLUS
    ensures Judged(cfg, at, w, v)
  {
    hide Number, SizeFits;
    Front(w, [LBRACE] + digits, Plus(true));
    var e := 2 + |digits|;
    if e == |w| {
      assert w[e..] == [];
      v := Unfinished(HalfHeader(digits, true));
    } else if w[e] == RBRACE {
      v := JudgeHeaded(cfg, at, w, digits, true);
    } else {
      assert w[e] == w[e..][0];
      v := Spoilt(HalfHeader(digits, true));
    }
  }

  lemma JudgeHeaded(cfg: Config, at: nat, w: seq<Byte>, digits: seq<Byte>, plus: bool) returns (v: Verdict)
    requires [LBRACE] + digits + Plus(plus) <= w && SizeFits(digits)
    requires var e := 1 + |digits| + |Plus(plus)|; e < |w| && w[e] == RBRACE
    ensures Judged(cfg, at, w, v)
  {
    hide Number, Plus;
    Front(w, [LBRACE] + digits + Plus(plus), [RBRACE]);
    var h := |Header(digits, plus)|;
    var rest := w[h..];
    if !Room(cfg, at + h, Number(0, digits)) {
      v := Spoilt(Headed(digits, plus));
    } else if rest == [] || rest == [CR] {
      v := Unfinished(Headed(digits, plus));
    } else if rest[0] == LF {
      v := JudgeData(cfg, at, w, digits, plus, false);
    } else if rest[0] == CR && rest[1] == LF {
      v := JudgeData(cfg, at, w, digits, plus, true);
    } else {
      v := Spoilt(Headed(digits, plus));
    }
  }

  lemma JudgeData(cfg: Config, at: nat, w: seq<Byte>, digits: seq<Byte>, plus: bool, cr: bool) returns (v: Verdict)
    requires Header(digits, plus) <= w && SizeFits(digits)
    requires var h := |Header(digits, plus)|; Room(cfg, at + h, Number(0, digits)) && Break(cr) <= w[h..]
    ensures Judged(cfg, at, w, v)
  {
    hide Number, Header, Break;
    HeaderLonger(digits, plus);
    Front(w, Header(digits, plus), Break(cr));
    var front := Header(digits, plus) + Break(cr);
    var n := Number(0, digits);
    var rest := w[|front|..];
    if |rest| < n {
      v := Unfinished(HeadedLine(digits, plus, cr));
    } else if cfg.utf8(rest[..n]) {
      Front(w, front, rest[..n]);
      v := Whole(WLiteral(digits, plus, cr, rest[..n]));
    } else {
      v := Spoilt(HeadedLine(digits, plus, cr));
    }
  }

  lemma Judge(cfg: Config, at: nat, w: seq<Byte>) returns (v: Verdict)
    requires w != [] && w[0] !in [SPACE, CR, LF]
    ensures Judged(cfg, at, w, v)
  {
    hide Judged;
    if w[0] == QUOTE {
      v := JudgeString(cfg, at, w);
    } else if w[0] == LBRACE {
      v := JudgeLiteral(cfg, at, w);
    } else {
      v := JudgeAtom(cfg, at, w);
    }
  }

  // ----- One argument of the parser -----

  ghost predicate AllSpaces(data: seq<Byte>, at: nat, n: nat)
  {
    at + n <= |data| && forall i | at <= i < at + n :: data[i] == SPACE
  }

  // Between two arguments.
  ghost predicate Quiet(data: seq<Byte>, s: State)
  {
    Within(data, s) && s.kind == Idle && !s.error && !s.eol
  }

  lemma {:induction false} SpacesRun(w: seq<Byte>, i: nat, j: nat)
    requires i <= j <= |w| && forall k | i <= k < j :: w[k] == SPACE
    ensures SkipSpaces(w, i) == SkipSpaces(w, j)
    decreases j - i
  {
    if i < j { SpacesRun(w, i + 1, j); }
  }

  lemma BeginsAt(data: seq<Byte>, s: State, k: nat)
    requires Quiet(data, s) && AllSpaces(data, s.consumed + s.pos, k)
    requires var b := s.consumed + s.pos + k; b < |data| ==> data[b] != SPACE
    ensures var b := s.consumed + s.pos + k; var t := s.(consumed := b, pos := 0);
            Begin(data, s) == if b == |data| then t else BeginWith(t, data[b])
  {
    var w := data[s.consumed..];
    assert forall i | s.pos <= i < s.pos + k :: w[i] == data[s.consumed + i];
    SpacesRun(w, s.pos, s.pos + k);
  }

  // The first byte of a word tells its kind.
  function KindOf(c: Byte): Kind
  {
    if c == QUOTE then InString else if c == LBRACE then InLiteral else InAtom
  }

  lemma FirstByte(cfg: Config, at: nat, w: seq<Byte>, v: Verdict)
    requires Judged(cfg, at, w, v)
    ensures w != [] && w[0] !in [SPACE, CR, LF]
    ensures match v
            case Whole(word) => KindOf(w[0]) == (if word.WAtom? then InAtom else if word.WString? then InString
                                                 else InLiteral)
            case Spoilt(stump) => KindOf(w[0]) == StumpKind(stump)
            case Unfinished(stump) => KindOf(w[0]) == StumpKind(stump)
  {
    hide Number, SizeFits, UnitFits, Raw;
    match v
    case Whole(word) => assert w[0] == Spelled(word)[0];
    case Spoilt(stump) => if Begun(stump) != [] { assert w[0] == Begun(stump)[0]; }
    case Unfinished(stump) => if Begun(stump) != [] { assert w[0] == Begun(stump)[0]; }
  }

  function StumpKind(stump: Stump): Kind
  {
    if stump.HalfAtom? then InAtom else if stump.HalfString? then InString else InLiteral
  }

  lemma WordStarts(data: seq<Byte>, s: State, k: nat)
    requires Quiet(data, s) && AllSpaces(data, s.consumed + s.pos, k)
    requires var b := s.consumed + s.pos + k;
             b < |data| && data[b] !in [SPACE, CR, LF] && (KindOf(data[b]) == InAtom ==> AtomByte(data[b]))
    ensures var b := s.consumed + s.pos + k; var t := Begin(data, s);
            t.consumed == b && Starts(data, t, KindOf(data[b])) && t.args == s.args && !t.eol
  {
    hide AllSpaces, Begin, AtomByte, IsAtomChar;
    BeginsAt(data, s, k);
    BytesAgree(data[s.consumed + s.pos + k]);
  }

  lemma AtomFirst(cfg: Config, at: nat, w: seq<Byte>, v: Verdict)
    requires Judged(cfg, at, w, v) && w != [] && KindOf(w[0]) == InAtom
    requires v.Spoilt? && v.stump.HalfAtom? ==> v.stump.text != []
    ensures AtomByte(w[0])
  {
    hide AtomByte, AfterAtom, Number, SizeFits, UnitFits, Raw;
    FirstByte(cfg, at, w, v);
    match v
    case Whole(word) => assert w[0] == Spelled(word)[0];
    case Spoilt(stump) => assert w[0] == Begun(stump)[0];
    case Unfinished(stump) => assert w[0] == Begun(stump)[0];
  }

  // A word is read for what it means.
  lemma WordRead(cfg: Config, data: seq<Byte>, s: State, k: nat, word: Word)
    requires !cfg.loose && Quiet(data, s) && AllSpaces(data, s.consumed + s.pos, k)
    requires var b := s.consumed + s.pos + k; b <= |data| && WordAt(cfg, b, data[b..], word)
    ensures var r := ReadArg(cfg, data, s); r.0 && HasRead(cfg, s, s.consumed + s.pos + k, word, r.1)
  {
    hide AllSpaces, WordAt, Begin, ReadAtom, ReadString, ReadLiteral, AtomByte, Spelled, LineSize, Means;
    var b := s.consumed + s.pos + k;
    FirstByte(cfg, b, data[b..], Whole(word));
    if KindOf(data[b]) == InAtom { AtomFirst(cfg, b, data[b..], Whole(word)); }
    WordStarts(data, s, k);
    var t := Begin(data, s);
    match word
    case WAtom(_) => ReadsAtom(cfg, data, t, word);
    case WString(_) => ReadsString(cfg, data, t, word);
    case WLiteral(_, _, _, _) => ReadsLiteral(cfg, data, t, word);
  }

  lemma WordSpoils(cfg: Config, data: seq<Byte>, s: State, k: nat, stump: Stump)
    requires !cfg.loose && Quiet(data, s) && AllSpaces(data, s.consumed + s.pos, k)
    requires var b := s.consumed + s.pos + k; b <= |data| && SpoiltAt(cfg, b, data[b..], stump)
    ensures var r := ReadArg(cfg, data, s); !r.0 && r.1.error
  {
    hide AllSpaces, SpoiltAt, Begin, ReadAtom, ReadString, ReadLiteral, AtomByte;
    var b := s.consumed + s.pos + k;
    FirstByte(cfg, b, data[b..], Spoilt(stump));
    if stump == HalfAtom([]) {
      NoWord(cfg, data, s, k);
    } else {
      if KindOf(data[b]) == InAtom { AtomFirst(cfg, b, data[b..], Spoilt(stump)); }
      WordStarts(data, s, k);
      var t := Begin(data, s);
      match stump
      case HalfAtom(_) => SpoilsAtom(cfg, data, t, stump);
      case HalfString(_) => SpoilsString(cfg, data, t, stump);
      case _ => SpoilsLiteral(cfg, data, t, stump);
    }
  }

  lemma NoWord(cfg: Config, data: seq<Byte>, s: State, k: nat)
    requires Quiet(data, s) && AllSpaces(data, s.consumed + s.pos, k)
    requires var b := s.consumed + s.pos + k; b < |data| && SpoiltAt(cfg, b, data[b..], HalfAtom([]))
    ensures var r := ReadArg(cfg, data, s); !r.0 && r.1.error
  {
    hide AllSpaces, Begin;
    var b := s.consumed + s.pos + k;
    assert data[b] == data[b..][0] && data[b..][0..] == data[b..];
    BeginsAt(data, s, k);
    BytesAgree(data[b]);
  }

  lemma WordOpen(cfg: Config, data: seq<Byte>, s: State, k: nat, stump: Stump)
    requires !cfg.loose && Quiet(data, s) && AllSpaces(data, s.consumed + s.pos, k)
    requires var b := s.consumed + s.pos + k; b < |data| && OpenAt(cfg, b, data[b..], stump)
    ensures var r := ReadArg(cfg, data, s); !r.0 && !r.1.error && r.1.kind != Idle && !r.1.eol
  {
    hide AllSpaces, OpenAt, Begin, ReadAtom, ReadString, ReadLiteral, AtomByte;
    var b := s.consumed + s.pos + k;
    FirstByte(cfg, b, data[b..], Unfinished(stump));
    if KindOf(data[b]) == InAtom { AtomFirst(cfg, b, data[b..], Unfinished(stump)); }
    WordStarts(data, s, k);
    var t := Begin(data, s);
    match stump
    case HalfAtom(_) =>
      OpenAtomBegun(cfg, b, data[b..], stump);
      LeavesAtom(cfg, data, t, stump);
    case HalfString(_) => LeavesString(cfg, data, t, stump);
    case _ => LeavesLiteral(cfg, data, t, stump);
  }

  lemma OpenAtomBegun(cfg: Config, at: nat, w: seq<Byte>, stump: Stump)
    requires stump.HalfAtom? && OpenAt(cfg, at, w, stump) && w != []
    ensures stump.text != []
  {
  }

  lemma LineEnds(cfg: Config, data: seq<Byte>, s: State, k: nat)
    requires Quiet(data, s) && AllSpaces(data, s.consumed + s.pos, k)
    requires var b := s.consumed + s.pos + k; b == |data| || IsLinebreak(data[b])
    ensures var r := ReadArg(cfg, data, s); var b := s.consumed + s.pos + k;
            !r.0 && !r.1.error && r.1.kind == Idle && r.1.eol == (b < |data|) && r.1.args == s.args
            && (b < |data| ==> r.1.consumed == b && r.1.pos == 0)
  {
    hide AllSpaces, Begin;
    BeginsAt(data, s, k);
  }

  // ----- Lines -----

  datatype Item = Item(spaces: nat, word: Word)

  function Next(at: nat, item: Item): nat { at + item.spaces + |Spelled(item.word)| }

  function EndOf(at: nat, items: seq<Item>): nat
    decreases |items|
  {
    if items == [] then at else EndOf(Next(at, items[0]), items[1..])
  }

  // The words stand one behind the other, within the line and the wanted number.
  ghost predicate InOrder(cfg: Config, data: seq<Byte>, at: nat, n: nat, items: seq<Item>)
    decreases |items|
  {
    items == []
    || (var b := at + items[0].spaces;
        && WantsMore(cfg, n) && AllSpaces(data, at, items[0].spaces) && WordAt(cfg, b, data[b..], items[0].word)
        && LineSize(b, items[0].word) <= cfg.maxLine
        && InOrder(cfg, data, Next(at, items[0]), n + 1, items[1..]))
  }

  // More arguments are wanted.
  predicate WantsMore(cfg: Config, n: nat) { cfg.count == 0 || n < cfg.count }

  datatype Ending = Enough | LineEnd | SpoiltBy(stump: Stump) | TooFar(word: Word) | CutOff(stump: Stump) | NoInput

  // What stands behind the words and `k` spaces.
  ghost predicate Ends(cfg: Config, data: seq<Byte>, at: nat, n: nat, k: nat, ending: Ending)
  {
    if ending.Enough? then !WantsMore(cfg, n)
    else
      && WantsMore(cfg, n) && AllSpaces(data, at, k)
      && var b := at + k;
         match ending
         case LineEnd => b < |data| && (data[b] == CR || data[b] == LF)
         case SpoiltBy(stump) => SpoiltAt(cfg, b, data[b..], stump)
         case TooFar(word) => WordAt(cfg, b, data[b..], word) && LineSize(b, word) > cfg.maxLine
         case CutOff(stump) => b < |data| && OpenAt(cfg, b, data[b..], stump)
         case NoInput => b == |data|
  }

  function OutcomeOf(ending: Ending): Outcome
  {
    match ending
    case Enough => Accepted
    case LineEnd => Accepted
    case SpoiltBy(_) => Failed
    case TooFar(_) => Failed
    case CutOff(_) => NeedMore
    case NoInput => NeedMore
  }

  ghost predicate AreRead(cfg: Config, items: seq<Item>, args: seq<Arg>)
  {
    |args| == |items| && forall i | 0 <= i < |items| :: Means(cfg, items[i].word, args[i])
  }

  // The words are read, one by one.
  lemma {:induction false} ItemsRun(cfg: Config, data: seq<Byte>, s: State, items: seq<Item>) returns (t: State)
    requires !cfg.loose && Quiet(data, s) && InOrder(cfg, data, s.consumed + s.pos, |s.args|, items)
    ensures Quiet(data, t) && t.consumed + t.pos == EndOf(s.consumed + s.pos, items)
    ensures ReadArgs(cfg, data, s) == ReadArgs(cfg, data, t)
    ensures |t.args| == |s.args| + |items| && t.args[..|s.args|] == s.args && AreRead(cfg, items, t.args[|s.args|..])
    decreases |items|
  {
    hide ReadArg, WordAt, LineSize, Means, Spelled;
    if items == [] {
      t := s;
    } else {
      WordRead(cfg, data, s, items[0].spaces, items[0].word);
      var u := ReadArg(cfg, data, s).1;
      t := ItemsRun(cfg, data, u, items[1..]);
      ArgsAppend(cfg, s.args, u.args, t.args, items);
    }
  }

  lemma ArgsAppend(cfg: Config, a: seq<Arg>, b: seq<Arg>, c: seq<Arg>, items: seq<Item>)
    requires items != [] && |b| == |a| + 1 && b[..|a|] == a && Means(cfg, items[0].word, b[|a|])
    requires |c| == |b| + |items[1..]| && c[..|b|] == b && AreRead(cfg, items[1..], c[|b|..])
    ensures c[..|a|] == a && AreRead(cfg, items, c[|a|..])
  {
    hide Means;
    assert c[..|a|] == b[..|a|];
    assert c[|a|] == b[|a|];
    forall i | 0 <= i < |items| ensures Means(cfg, items[i].word, c[|a|..][i]) {
      if i > 0 { assert items[1..][i - 1] == items[i] && c[|b|..][i - 1] == c[|a|..][i]; }
    }
  }

  // Every input is some words and an ending.
  lemma {:induction false} Divide(cfg: Config, data: seq<Byte>, at: nat, n: nat)
    returns (items: seq<Item>, k: nat, ending: Ending)
    requires at <= |data|
    ensures InOrder(cfg, data, at, n, items) && Ends(cfg, data, EndOf(at, items), n + |items|, k, ending)
    decreases |data| - at
  {
    hide AllSpaces, WordAt, SpoiltAt, OpenAt, LineSize, Spelled;
    items, k := [], 0;
    if !WantsMore(cfg, n) {
      ending := Enough;
    } else {
      k := SpacesShape(data, at);
      var b := at + k;
      if b == |data| {
        ending := NoInput;
      } else if IsLinebreak(data[b]) {
        ending := LineEnd;
      } else {
        var v := Judge(cfg, b, data[b..]);
        match v
        case Spoilt(stump) => ending := SpoiltBy(stump);
        case Unfinished(stump) => ending := CutOff(stump);
        case Whole(word) =>
          if LineSize(b, word) > cfg.maxLine {
            ending := TooFar(word);
          } else {
            WordLength(cfg, b, data[b..], word);
            var item := Item(k, word);
            var more, k', ending' := Divide(cfg, data, Next(at, item), n + 1);
            items, k, ending := [item] + more, k', ending';
            assert items[1..] == more;
          }
      }
    }
  }

  lemma {:induction false} SpacesShape(data: seq<Byte>, at: nat) returns (k: nat)
    requires at <= |data|
    ensures AllSpaces(data, at, k) && (at + k < |data| ==> data[at + k] != SPACE)
    decreases |data| - at
  {
    if at < |data| && data[at] == SPACE {
      var rest := SpacesShape(data, at + 1);
      k := rest + 1;
    } else {
      k := 0;
    }
  }

  lemma WordLength(cfg: Config, at: nat, w: seq<Byte>, word: Word)
    requires WordAt(cfg, at, w, word)
    ensures 1 <= |Spelled(word)| <= |w|
  {
    hide Raw, Number, SizeFits;
  }

  lemma {:induction false} PaddingIsNil(n: nat)
    ensures |Padding(n)| == n && forall i | 0 <= i < n :: Padding(n)[i] == Nil
  {
    if n > 0 { PaddingIsNil(n - 1); }
  }

  // The arguments handed over: those of the words, made up to the wanted number, and the end.
  ghost predicate HandsOver(cfg: Config, items: seq<Item>, args: seq<Arg>)
  {
    && |args| == (if cfg.count > |items| then cfg.count else |items|) + 1
    && AreRead(cfg, items, args[..|items|])
    && (forall i | |items| <= i < |args| - 1 :: args[i] == Nil)
    && args[|args| - 1] == Eol
  }

  lemma Finishes(cfg: Config, s: State, items: seq<Item>)
    requires AreRead(cfg, items, s.args)
    ensures HandsOver(cfg, items, FinishLine(cfg, s).args)
  {
    hide Means, Padding;
    PaddingIsNil(if cfg.count > |s.args| then cfg.count - |s.args| else 0);
    assert FinishLine(cfg, s).args[..|items|] == s.args;
  }

  // The input `data` is these words, spaces and this ending.
  ghost predicate Reads(cfg: Config, data: seq<Byte>, items: seq<Item>, k: nat, ending: Ending)
  {
    InOrder(cfg, data, 0, 0, items) && Ends(cfg, data, EndOf(0, items), |items|, k, ending)
  }

  lemma EndingRead(cfg: Config, data: seq<Byte>, s: State, k: nat, ending: Ending) returns (u: State)
    requires !cfg.loose && Quiet(data, s) && Ends(cfg, data, s.consumed + s.pos, |s.args|, k, ending)
    ensures var r := ReadArgs(cfg, data, s);
            && r.0 == OutcomeOf(ending)
            && (r.0.Accepted? ==> r.1 == FinishLine(cfg, u))
    ensures u.args == s.args && u.consumed + u.pos == s.consumed + s.pos + if ending.LineEnd? then k else 0
  {
    hide ReadArg, WordAt, SpoiltAt, OpenAt, FinishLine, Spelled, Means;
    u := s;
    match ending
    case Enough =>
    case LineEnd =>
      LineEnds(cfg, data, s, k);
      u := ReadArg(cfg, data, s).1;
    case NoInput => LineEnds(cfg, data, s, k);
    case SpoiltBy(stump) => WordSpoils(cfg, data, s, k, stump);
    case CutOff(stump) => WordOpen(cfg, data, s, k, stump);
    case TooFar(word) => WordRead(cfg, data, s, k, word);
  }

  // What is read decides the outcome, and what is handed over.
  lemma ReadAsWritten(cfg: Config, data: seq<Byte>, items: seq<Item>, k: nat, ending: Ending)
    requires !cfg.loose && Reads(cfg, data, items, k, ending)
    ensures var r := ReadArgs(cfg, data, RESET);
            && r.0 == OutcomeOf(ending)
            && (r.0.Accepted? ==> HandsOver(cfg, items, r.1.args))
            && (ending.Enough? ==> r.1.consumed == EndOf(0, items))
            && (ending.LineEnd? ==> r.1.consumed == EndOf(0, items) + k)
  {
    hide ReadArgs, InOrder, Ends, EndOf, AreRead, HandsOver;
    var t := ItemsRun(cfg, data, RESET, items);
    assert t.args[0..] == t.args;
    var u := EndingRead(cfg, data, t, k, ending);
    Finishes(cfg, u, items);
  }

  // Accepted exactly the lines of the grammar, refused exactly the ones that go wrong.
  lemma AcceptsExactlyTheLines(cfg: Config, data: seq<Byte>)
    requires !cfg.loose
    ensures ReadArgs(cfg, data, RESET).0.Accepted?
            <==> exists items, k, e: Ending :: (e.Enough? || e.LineEnd?) && Reads(cfg, data, items, k, e)
    ensures ReadArgs(cfg, data, RESET).0.Failed?
            <==> exists items, k, e: Ending :: (e.SpoiltBy? || e.TooFar?) && Reads(cfg, data, items, k, e)
    ensures ReadArgs(cfg, data, RESET).0.NeedMore?
            <==> exists items, k, e: Ending :: (e.CutOff? || e.NoInput?) && Reads(cfg, data, items, k, e)
  {
    hide ReadArgs, Reads, HandsOver;
    var items, k, ending := Divide(cfg, data, 0, 0);
    assert Reads(cfg, data, items, k, ending) by { ReadsIs(cfg, data, items, k, ending); }
    forall items, k, e: Ending | Reads(cfg, data, items, k, e)
      ensures ReadArgs(cfg, data, RESET).0 == OutcomeOf(e)
    {
      ReadAsWritten(cfg, data, items, k, e);
    }
  }

  lemma ReadsIs(cfg: Config, data: seq<Byte>, items: seq<Item>, k: nat, ending: Ending)
    requires InOrder(cfg, data, 0, 0, items) && Ends(cfg, data, EndOf(0, items), |items|, k, ending)
    ensures Reads(cfg, data, items, k, ending)
  {
  }
}
