// What the argument parser makes of one word: taken for what it means, refused, or left open.
module ManageSieveWords {
  import opened Bytes
  import opened ManageSieve
  import opened ManageSieveGrammar

  // ----- The loops from the first byte of a word -----

  lemma AtomStump(w: seq<Byte>, text: seq<Byte>)
    requires text != [] && text <= w && forall i | 0 <= i < |text| :: AtomByte(text[i])
    ensures AtomEnd(w, 1) == AtomEnd(w, |text|)
  {
    hide AtomByte, AtomEnd;
    forall k | 1 <= k < |text| ensures AtomByte(w[k]) { assert w[k] == text[k]; }
    AtomRun(w, 1, |text|);
  }

  lemma Ahead(w: seq<Byte>, a: seq<Byte>, b: seq<Byte>)
    requires a + b <= w
    ensures a <= w && Has(w, |a|, b)
  {
    assert Has(w, 0, a + b);
    HasParts(w, 0, a, b);
  }

  lemma StringStump(w: seq<Byte>, units: seq<Unit>)
    requires [QUOTE] + Raw(units) <= w && forall i | 0 <= i < |units| :: UnitFits(units[i])
    ensures StringEnd(w, 1, -1) == StringEnd(w, 1 + |Raw(units)|, FirstEscape(1, -1, units))
    ensures w[1..1 + |Raw(units)|] == Raw(units)
  {
    hide StringEnd, Raw, FirstEscape, UnitFits;
    Ahead(w, [QUOTE], Raw(units));
    UnitsRun(w, 1, -1, units);
  }

  lemma HeaderStump(w: seq<Byte>, digits: seq<Byte>, plus: bool)
    requires [LBRACE] + digits + Plus(plus) <= w && SizeFits(digits)
    ensures HeaderEnd(w, 1, 0, false) == HeaderEnd(w, 1 + |digits| + |Plus(plus)|, Number(0, digits), plus)
  {
    hide Number;
    Ahead(w, [LBRACE] + digits, Plus(plus));
    Ahead(w, [LBRACE], digits);
    assert |[LBRACE] + digits| == 1 + |digits|;
    HeaderDigits(w, digits);
    if plus { HasByte(w, 1 + |digits|, Plus(plus), 0); }
  }

  lemma HeaderDigits(w: seq<Byte>, digits: seq<Byte>)
    requires Has(w, 1, digits) && SizeFits(digits)
    ensures HeaderEnd(w, 1, 0, false) == HeaderEnd(w, 1 + |digits|, Number(0, digits), false)
  {
    hide HeaderEnd, Number;
    DigitsRun(w, 1, 0, digits);
  }

  // ----- What the words mean -----

  lemma {:induction false} UnescapeRaw(units: seq<Unit>)
    requires forall i | 0 <= i < |units| :: UnitFits(units[i])
    ensures Unescape(Raw(units)) == Chars(units)
    decreases |units|
  {
    if units != [] {
      var u, more := units[0], units[1..];
      UnescapeRaw(more);
      UnescapeOne(u, Raw(more));
      assert Chars(units) == [u.c] + Chars(more);
    }
  }

  lemma UnescapeOne(u: Unit, rest: seq<Byte>)
    requires UnitFits(u)
    ensures Unescape(Written(u) + rest) == [u.c] + Unescape(rest)
  {
    assert (Written(u) + rest)[|Written(u)|..] == rest;
  }

  lemma {:induction false} EscapeStays(i: nat, escape: int, units: seq<Unit>)
    requires escape >= 0
    ensures FirstEscape(i, escape, units) >= 0
    decreases |units|
  {
    if units != [] { EscapeStays(if units[0].escaped then i + 2 else i + 1, escape, units[1..]); }
  }

  lemma {:induction false} NothingEscaped(i: nat, units: seq<Unit>)
    requires FirstEscape(i, -1, units) < 0
    ensures Raw(units) == Chars(units)
    decreases |units|
  {
    if units != [] {
      var more := units[1..];
      if units[0].escaped {
        EscapeStays(i + 2, i, more);
      } else {
        NothingEscaped(i + 1, more);
        assert Chars(units) == [units[0].c] + Chars(more);
      }
    }
  }

  lemma StringMeans(cfg: Config, units: seq<Unit>)
    requires forall i | 0 <= i < |units| :: UnitFits(units[i])
    ensures Means(cfg, WString(units), StringArg(cfg, Raw(units), FirstEscape(1, -1, units)))
  {
    hide Raw, FirstEscape, Unescape, UnitFits;
    UnescapeRaw(units);
    if FirstEscape(1, -1, units) < 0 { NothingEscaped(1, units); }
  }

  lemma {:induction false} UpToNulCuts(data: seq<Byte>)
    ensures CutAtNul(data, UpToNul(data))
    decreases |data|
  {
    if data != [] && data[0] != 0 { UpToNulCuts(data[1..]); }
  }

  lemma LiteralMeans(cfg: Config, digits: seq<Byte>, plus: bool, cr: bool, data: seq<Byte>)
    ensures Means(cfg, WLiteral(digits, plus, cr, data), LiteralArg(cfg, data))
  {
    UpToNulCuts(data);
  }

  // ----- One word -----

  // The word has been read: `s` was in front of it, `t` is behind it.
  ghost predicate HasRead(cfg: Config, s: State, at: nat, word: Word, t: State)
  {
    && t.kind == Idle && !t.error && t.eol == s.eol
    && t.consumed == LineSize(at, word) && t.consumed + t.pos == at + |Spelled(word)|
    && |t.args| == |s.args| + 1 && t.args[..|s.args|] == s.args && Means(cfg, word, t.args[|s.args|])
  }

  // At the first byte of a word.
  ghost predicate Starts(data: seq<Byte>, s: State, kind: Kind)
  {
    && Within(data, s) && !s.error && s.kind == kind && s.pos == 1
    && (kind == InString ==> s.escape == -1) && (kind == InLiteral ==> s.literalSize == 0 && !s.nonsync)
  }

  lemma ReadsAtom(cfg: Config, data: seq<Byte>, s: State, word: Word)
    requires Starts(data, s, InAtom) && word.WAtom? && WordAt(cfg, s.consumed, data[s.consumed..], word)
    ensures var r := ReadAtom(data, s); r.0 && HasRead(cfg, s, s.consumed, word, r.1)
  {
    var w := data[s.consumed..];
    AtomStump(w, word.text);
    BytesAgree(w[|word.text|]);
  }

  lemma SpoilsAtom(cfg: Config, data: seq<Byte>, s: State, stump: Stump)
    requires Starts(data, s, InAtom) && stump.HalfAtom? && stump.text != []
    requires SpoiltAt(cfg, s.consumed, data[s.consumed..], stump)
    ensures var r := ReadAtom(data, s); !r.0 && r.1.error
  {
    var w := data[s.consumed..];
    AtomStump(w, stump.text);
    BytesAgree(w[|stump.text|]);
  }

  lemma LeavesAtom(cfg: Config, data: seq<Byte>, s: State, stump: Stump)
    requires Starts(data, s, InAtom) && stump.HalfAtom? && stump.text != []
    requires OpenAt(cfg, s.consumed, data[s.consumed..], stump)
    ensures var r := ReadAtom(data, s); !r.0 && !r.1.error && r.1.kind != Idle && r.1.eol == s.eol
  {
    AtomStump(data[s.consumed..], stump.text);
  }

  lemma ReadsString(cfg: Config, data: seq<Byte>, s: State, word: Word)
    requires Starts(data, s, InString) && word.WString? && WordAt(cfg, s.consumed, data[s.consumed..], word)
    ensures var r := ReadString(cfg, data, s); r.0 && HasRead(cfg, s, s.consumed, word, r.1)
  {
    hide Raw, FirstEscape, StringArg, UnitFits;
    var w := data[s.consumed..];
    Ahead(w, [QUOTE] + Raw(word.units), [QUOTE]);
    StringStump(w, word.units);
    HasByte(w, 1 + |Raw(word.units)|, [QUOTE], 0);
    StringMeans(cfg, word.units);
  }

  lemma SpoilsString(cfg: Config, data: seq<Byte>, s: State, stump: Stump)
    requires Starts(data, s, InString) && stump.HalfString? && SpoiltAt(cfg, s.consumed, data[s.consumed..], stump)
    ensures var r := ReadString(cfg, data, s); !r.0 && r.1.error
  {
    hide Raw, FirstEscape, StringArg, UnitFits;
    var w := data[s.consumed..];
    StringStump(w, stump.units);
    var e := 1 + |Raw(stump.units)|;
    assert w[e] == w[e..][0] && (|w[e..]| > 1 ==> w[e + 1] == w[e..][1]);
  }

  lemma LeavesString(cfg: Config, data: seq<Byte>, s: State, stump: Stump)
    requires Starts(data, s, InString) && stump.HalfString? && OpenAt(cfg, s.consumed, data[s.consumed..], stump)
    ensures var r := ReadString(cfg, data, s); !r.0 && !r.1.error && r.1.kind != Idle && r.1.eol == s.eol
  {
    hide Raw, FirstEscape, StringArg, UnitFits;
    var w := data[s.consumed..];
    StringStump(w, stump.units);
    var e := 1 + |Raw(stump.units)|;
    if w[e..] == [BACKSLASH] { assert w[e] == w[e..][0]; }
  }

  // What a header says, read up to its brace.
  lemma HeaderRead(w: seq<Byte>, digits: seq<Byte>, plus: bool)
    requires Header(digits, plus) <= w && SizeFits(digits)
    ensures HeaderEnd(w, 1, 0, false) == (Found(|Header(digits, plus)| - 1), Number(0, digits), plus)
  {
    hide Number, SizeFits;
    var front := [LBRACE] + digits + Plus(plus);
    Ahead(w, front, [RBRACE]);
    HeaderStump(w, digits, plus);
    HasByte(w, |front|, [RBRACE], 0);
  }

  // The state behind a header.
  function Behind(s: State, digits: seq<Byte>, plus: bool): State
    requires SizeFits(digits)
  {
    s.(consumed := s.consumed + |Header(digits, plus)|, pos := 0, literalSize := Number(0, digits), nonsync := plus)
  }

  lemma HeaderThenData(cfg: Config, data: seq<Byte>, s: State, digits: seq<Byte>, plus: bool)
    requires Starts(data, s, InLiteral) && Header(digits, plus) <= data[s.consumed..] && SizeFits(digits)
    ensures Behind(s, digits, plus).consumed <= |data|
    ensures ReadLiteral(cfg, data, s) == ReadSized(cfg, data, Behind(s, digits, plus))
  {
    hide Number, SizeFits, ReadSized, HeaderEnd, Header;
    HeaderLonger(digits, plus);
    HeaderRead(data[s.consumed..], digits, plus);
  }

  lemma HeaderLonger(digits: seq<Byte>, plus: bool)
    ensures |Header(digits, plus)| >= 2
  {
  }

  // The line break behind the header.
  lemma BreakRead(v: seq<Byte>, cr: bool)
    requires Break(cr) <= v
    ensures Linebreak(v, true, false) == Found(|Break(cr)|)
  {
    assert v[0] == Break(cr)[0] && (cr ==> v[1] == Break(cr)[1]);
  }

  lemma BreakThenData(cfg: Config, data: seq<Byte>, s: State, cr: bool)
    requires !cfg.loose && s.consumed <= |data| && !s.error && s.kind == InLiteral && s.pos == 0
    requires Room(cfg, s.consumed, s.literalSize) && Break(cr) <= data[s.consumed..]
    ensures var t := s.(consumed := s.consumed + |Break(cr)|, kind := InLiteralData, skipCrlf := false);
            t.consumed <= |data| && ReadSized(cfg, data, s) == ReadData(cfg, data, t)
  {
    hide Linebreak, Break;
    BreakRead(data[s.consumed..], cr);
    NoBreakDue(data[s.consumed + |Break(cr)|..]);
  }

  lemma NoBreakDue(v: seq<Byte>)
    ensures Linebreak(v, false, false) == Found(0)
  {
  }

  lemma DataRead(cfg: Config, data: seq<Byte>, s: State)
    requires !cfg.loose && s.consumed <= |data| && !s.error && s.kind == InLiteralData && s.pos == 0 && !s.skipCrlf
    ensures var w := data[s.consumed..]; var r := ReadData(cfg, data, s); var n := s.literalSize;
            if |w| < n then r == (false, s)
            else if !cfg.utf8(w[..n]) then r == (false, s.(error := true))
            else r == (true, Save(s, n, LiteralArg(cfg, w[..n])))
  {
    hide Linebreak, LiteralArg;
    NoBreakDue(data[s.consumed..]);
    assert s.(consumed := s.consumed + 0, skipCrlf := false) == s;
  }

  // Up to the data of a literal.
  lemma UpToData(cfg: Config, data: seq<Byte>, s: State, digits: seq<Byte>, plus: bool, cr: bool)
    requires !cfg.loose && Starts(data, s, InLiteral) && SizeFits(digits)
    requires Header(digits, plus) + Break(cr) <= data[s.consumed..]
    requires Room(cfg, s.consumed + |Header(digits, plus)|, Number(0, digits))
    ensures var b := Behind(s, digits, plus);
            var t := b.(consumed := b.consumed + |Break(cr)|, kind := InLiteralData, skipCrlf := false);
            t.consumed <= |data| && ReadLiteral(cfg, data, s) == ReadData(cfg, data, t)
  {
    hide Number, SizeFits, ReadSized, ReadData, ReadLiteral, Header, Break;
    var w := data[s.consumed..];
    Ahead(w, Header(digits, plus), Break(cr));
    HeaderThenData(cfg, data, s, digits, plus);
    var b := Behind(s, digits, plus);
    assert data[b.consumed..] == w[|Header(digits, plus)|..];
    assert Break(cr) <= data[b.consumed..];
    BreakThenData(cfg, data, b, cr);
  }

  lemma ReadsLiteral(cfg: Config, data: seq<Byte>, s: State, word: Word)
    requires !cfg.loose && Starts(data, s, InLiteral) && word.WLiteral?
    requires WordAt(cfg, s.consumed, data[s.consumed..], word)
    ensures var r := ReadLiteral(cfg, data, s); r.0 && HasRead(cfg, s, s.consumed, word, r.1)
  {
    hide Number, SizeFits, ReadLiteral, ReadData, Header, Break, LiteralArg;
    var w := data[s.consumed..];
    var front := Header(word.digits, word.plus) + Break(word.cr);
    Ahead(w, front, word.data);
    UpToData(cfg, data, s, word.digits, word.plus, word.cr);
    var b := Behind(s, word.digits, word.plus);
    var t := b.(consumed := b.consumed + |Break(word.cr)|, kind := InLiteralData, skipCrlf := false);
    assert data[t.consumed..][..|word.data|] == w[|front|..|front| + |word.data|];
    DataRead(cfg, data, t);
    LiteralMeans(cfg, word.digits, word.plus, word.cr, word.data);
  }

  lemma SpoilsLiteral(cfg: Config, data: seq<Byte>, s: State, stump: Stump)
    requires !cfg.loose && Starts(data, s, InLiteral) && !stump.HalfAtom? && !stump.HalfString?
    requires SpoiltAt(cfg, s.consumed, data[s.consumed..], stump)
    ensures var r := ReadLiteral(cfg, data, s); !r.0 && r.1.error
  {
    match stump
    case HalfHeader(_, _) => SpoilsHeader(cfg, data, s, stump);
    case Headed(_, _) => SpoilsHeaded(cfg, data, s, stump);
    case HeadedLine(_, _, _) => SpoilsData(cfg, data, s, stump);
  }

  lemma SpoilsHeader(cfg: Config, data: seq<Byte>, s: State, stump: Stump)
    requires Starts(data, s, InLiteral) && stump.HalfHeader? && SpoiltAt(cfg, s.consumed, data[s.consumed..], stump)
    ensures var r := ReadLiteral(cfg, data, s); !r.0 && r.1.error
  {
    hide Number, ReadSized;
    var w := data[s.consumed..];
    HeaderStump(w, stump.digits, stump.plus);
    var c := w[|Begun(stump)|];
    if IsDigit(c) { NumberGrows(0, stump.digits, c); }
  }

  lemma SpoilsHeaded(cfg: Config, data: seq<Byte>, s: State, stump: Stump)
    requires !cfg.loose && Starts(data, s, InLiteral) && stump.Headed?
    requires SpoiltAt(cfg, s.consumed, data[s.consumed..], stump)
    ensures var r := ReadLiteral(cfg, data, s); !r.0 && r.1.error
  {
    hide Number, SizeFits, ReadLiteral, Header;
    HeaderThenData(cfg, data, s, stump.digits, stump.plus);
    var b := Behind(s, stump.digits, stump.plus);
    assert data[b.consumed..] == data[s.consumed..][|Begun(stump)|..];
    if Room(cfg, b.consumed, b.literalSize) { BreakMissing(data[b.consumed..]); }
    hide Linebreak;
  }

  lemma BreakMissing(v: seq<Byte>)
    requires v != [] && v[0] != LF && (v[0] == CR ==> |v| > 1 && v[1] != LF)
    ensures Linebreak(v, true, false) == Bad
  {
  }

  lemma SpoilsData(cfg: Config, data: seq<Byte>, s: State, stump: Stump)
    requires !cfg.loose && Starts(data, s, InLiteral) && stump.HeadedLine?
    requires SpoiltAt(cfg, s.consumed, data[s.consumed..], stump)
    ensures var r := ReadLiteral(cfg, data, s); !r.0 && r.1.error
  {
    hide Number, SizeFits, ReadLiteral, ReadData, Header, Break, LiteralArg;
    UpToData(cfg, data, s, stump.digits, stump.plus, stump.cr);
    var b := Behind(s, stump.digits, stump.plus);
    var t := b.(consumed := b.consumed + |Break(stump.cr)|, kind := InLiteralData, skipCrlf := false);
    assert data[t.consumed..] == data[s.consumed..][|Begun(stump)|..];
    DataRead(cfg, data, t);
  }

  lemma LeavesLiteral(cfg: Config, data: seq<Byte>, s: State, stump: Stump)
    requires !cfg.loose && Starts(data, s, InLiteral) && !stump.HalfAtom? && !stump.HalfString?
    requires OpenAt(cfg, s.consumed, data[s.consumed..], stump)
    ensures var r := ReadLiteral(cfg, data, s); !r.0 && !r.1.error && r.1.kind != Idle && r.1.eol == s.eol
  {
    match stump
    case HalfHeader(_, _) => LeavesHeader(cfg, data, s, stump);
    case Headed(_, _) => LeavesHeaded(cfg, data, s, stump);
    case HeadedLine(_, _, _) => LeavesData(cfg, data, s, stump);
  }

  lemma LeavesHeader(cfg: Config, data: seq<Byte>, s: State, stump: Stump)
    requires Starts(data, s, InLiteral) && stump.HalfHeader? && OpenAt(cfg, s.consumed, data[s.consumed..], stump)
    ensures var r := ReadLiteral(cfg, data, s); !r.0 && !r.1.error && r.1.kind != Idle && r.1.eol == s.eol
  {
    hide Number, SizeFits, ReadSized;
    HeaderStump(data[s.consumed..], stump.digits, stump.plus);
  }

  lemma LeavesHeaded(cfg: Config, data: seq<Byte>, s: State, stump: Stump)
    requires !cfg.loose && Starts(data, s, InLiteral) && stump.Headed?
    requires OpenAt(cfg, s.consumed, data[s.consumed..], stump)
    ensures var r := ReadLiteral(cfg, data, s); !r.0 && !r.1.error && r.1.kind != Idle && r.1.eol == s.eol
  {
    hide Number, SizeFits, ReadLiteral, Header;
    HeaderThenData(cfg, data, s, stump.digits, stump.plus);
    var b := Behind(s, stump.digits, stump.plus);
    assert data[b.consumed..] == data[s.consumed..][|Begun(stump)|..];
    BreakDue(data[b.consumed..]);
    hide Linebreak;
  }

  lemma BreakDue(v: seq<Byte>)
    requires v == [] || v == [CR]
    ensures Linebreak(v, true, false) == More(|v|)
  {
  }

  lemma LeavesData(cfg: Config, data: seq<Byte>, s: State, stump: Stump)
    requires !cfg.loose && Starts(data, s, InLiteral) && stump.HeadedLine?
    requires OpenAt(cfg, s.consumed, data[s.consumed..], stump)
    ensures var r := ReadLiteral(cfg, data, s); !r.0 && !r.1.error && r.1.kind != Idle && r.1.eol == s.eol
  {
    hide Number, SizeFits, ReadLiteral, ReadData, Header, Break, LiteralArg;
    UpToData(cfg, data, s, stump.digits, stump.plus, stump.cr);
    var b := Behind(s, stump.digits, stump.plus);
    var t := b.(consumed := b.consumed + |Break(stump.cr)|, kind := InLiteralData, skipCrlf := false);
    assert data[t.consumed..] == data[s.consumed..][|Begun(stump)|..];
    DataRead(cfg, data, t);
  }
}
