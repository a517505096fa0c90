// The argument parser does not depend on how its input is cut into pieces.
module ManageSieveChunks {
  import opened Bytes
  import opened ManageSieve

  // ----- Scanning a prefix first -----

  lemma {:induction false} SpacesInPrefix(w: seq<Byte>, whole: seq<Byte>, i: nat)
    requires w <= whole && i <= |w|
    ensures var r := SkipSpaces(w, i); SkipSpaces(whole, i) == if r < |w| then r else SkipSpaces(whole, |w|)
    decreases |w| - i
  {
    if i < |w| && w[i] == SPACE { SpacesInPrefix(w, whole, i + 1); }
  }

  lemma {:induction false} SpacesShift(w: seq<Byte>, k: nat, i: nat)
    requires k + i <= |w|
    ensures SkipSpaces(w, k + i) == k + SkipSpaces(w[k..], i)
    decreases |w| - i
  {
    if k + i < |w| && w[k + i] == SPACE { SpacesShift(w, k, i + 1); }
  }

  lemma {:induction false} AtomInPrefix(w: seq<Byte>, whole: seq<Byte>, i: nat)
    requires w <= whole && i <= |w|
    ensures var r := AtomEnd(w, i); AtomEnd(whole, i) == if r.More? then AtomEnd(whole, |w|) else r
    decreases |w| - i
  {
    if i < |w| && !EndsAtom(w[i]) && IsAtomChar(w[i]) { AtomInPrefix(w, whole, i + 1); }
  }

  lemma {:induction false} StringInPrefix(w: seq<Byte>, whole: seq<Byte>, i: nat, escape: int)
    requires w <= whole && i <= |w|
    ensures var r := StringEnd(w, i, escape);
            StringEnd(whole, i, escape) == if r.0.More? then StringEnd(whole, r.0.at, r.1) else r
    decreases |w| - i
  {
    if i < |w| && w[i] != QUOTE && w[i] != 0 {
      if w[i] == BACKSLASH {
        if i + 1 < |w| && IsQuotedSpecial(w[i + 1]) {
          StringInPrefix(w, whole, i + 2, if escape < 0 then i else escape);
        }
      } else if IsSafe(w[i]) {
        StringInPrefix(w, whole, i + 1, escape);
      }
    }
  }

  lemma {:induction false} HeaderInPrefix(w: seq<Byte>, whole: seq<Byte>, i: nat, size: nat, nonsync: bool)
    requires w <= whole && i <= |w|
    ensures var r := HeaderEnd(w, i, size, nonsync);
            HeaderEnd(whole, i, size, nonsync) == if r.0.More? then HeaderEnd(whole, |w|, r.1, r.2) else r
    decreases |w| - i
  {
    if i < |w| && w[i] != RBRACE && !nonsync {
      if w[i] == PLUS {
        HeaderInPrefix(w, whole, i + 1, size, true);
      } else if 48 <= w[i] <= 57 && size * 10 + Digit(w[i]) < SIZE_LIMIT {
        HeaderInPrefix(w, whole, i + 1, size * 10 + Digit(w[i]), nonsync);
      }
    }
  }

  // ----- One argument -----

  ghost predicate NoDoubleCr(data: seq<Byte>)
  {
    forall i | 0 <= i < |data| - 1 :: !(data[i] == CR && data[i + 1] == CR)
  }

  // It does not matter whether a CR is forgotten.
  ghost predicate Forgiving(cfg: Config, data: seq<Byte>) { cfg.loose || NoDoubleCr(data) }

  // Reading `whole` after the prefix `d` was tried from `s`, ending in `r`, comes to the same as
  // reading `whole` at once, ending in `f`.
  ghost predicate Resumes(cfg: Config, d: seq<Byte>, whole: seq<Byte>, r: (bool, State), f: (bool, State))
  {
    if r.0 || r.1.error || r.1.eol then f == r
    else
      && Within(d, r.1) && Within(whole, r.1)
      && r.1.kind != Idle
      && (!f.1.error ==> GoOn(cfg, whole, r.1) == f)
      && (f.1.error && Forgiving(cfg, whole) ==> GoOn(cfg, whole, r.1).1.error)
  }

  lemma Windows(d: seq<Byte>, whole: seq<Byte>, k: nat)
    requires d <= whole && k <= |d|
    ensures d[k..] <= whole[k..]
  {
  }

  lemma AtomResumes(cfg: Config, d: seq<Byte>, whole: seq<Byte>, s: State)
    requires d <= whole && Within(d, s) && !s.error && !s.eol && s.kind == InAtom
    ensures Resumes(cfg, d, whole, ReadAtom(d, s), ReadAtom(whole, s))
  {
    hide AtomEnd;
    var w, W := d[s.consumed..], whole[s.consumed..];
    Windows(d, whole, s.consumed);
    AtomInPrefix(w, W, s.pos);
    var r := AtomEnd(w, s.pos);
    if r.Found? { assert w[..r.at] == W[..r.at]; }
  }

  lemma StringResumes(cfg: Config, d: seq<Byte>, whole: seq<Byte>, s: State)
    requires d <= whole && Within(d, s) && !s.error && !s.eol && s.kind == InString
    ensures Resumes(cfg, d, whole, ReadString(cfg, d, s), ReadString(cfg, whole, s))
  {
    hide StringEnd, StringArg;
    var w, W := d[s.consumed..], whole[s.consumed..];
    Windows(d, whole, s.consumed);
    StringInPrefix(w, W, s.pos, s.escape);
    var r := StringEnd(w, s.pos, s.escape).0;
    if r.Found? { assert w[1..r.at] == W[1..r.at]; }
  }

  lemma DataResumes(cfg: Config, d: seq<Byte>, whole: seq<Byte>, s: State)
    requires d <= whole && Within(d, s) && !s.error && !s.eol && s.kind == InLiteralData
    ensures Resumes(cfg, d, whole, ReadData(cfg, d, s), ReadData(cfg, whole, s))
  {
    var w, W := d[s.consumed..], whole[s.consumed..];
    Windows(d, whole, s.consumed);
    var r := Linebreak(w, s.skipCrlf, cfg.loose);
    if r.Found? {
      FoundLinebreakResumes(cfg, d, whole, s, r.at);
    } else if r.More? {
      // The CRs are skipped and forgotten.
      OnlyCrsResume(cfg, d, whole, s);
    } else {
      BadLinebreak(w, W, s.skipCrlf, cfg.loose);
    }
  }

  lemma BadLinebreak(w: seq<Byte>, whole: seq<Byte>, due: bool, loose: bool)
    requires w <= whole && Linebreak(w, due, loose).Bad?
    ensures Linebreak(whole, due, loose).Bad? && Crs(whole, loose) == Crs(w, loose)
  {
    CrsInPrefix(w, whole, loose);
  }

  lemma {:induction false} CrsInPrefix(w: seq<Byte>, whole: seq<Byte>, loose: bool)
    requires w <= whole
    ensures Crs(w, loose) < |w| ==> Crs(whole, loose) == Crs(w, loose)
    ensures Crs(w, loose) == |w| && loose ==> Crs(whole, loose) == |w| + Crs(whole[|w|..], loose)
    decreases |w|
  {
    if w != [] {
      assert w[0] == whole[0];
      CrsInPrefix(w[1..], whole[1..], loose);
      assert whole[1..][|w| - 1..] == whole[|w|..];
    } else {
      assert whole[0..] == whole;
    }
  }

  // Skipping the CRs first changes the length of the line break by their number.
  lemma LinebreakBehindCrs(w: seq<Byte>, whole: seq<Byte>, loose: bool)
    requires w <= whole && Crs(w, loose) == |w|
    ensures var f, g := Linebreak(whole, true, loose), Linebreak(whole[|w|..], true, loose);
            && (f.Found? ==> g.Found? && f.at == |w| + g.at) && (f.More? ==> g.More? && f.at == |w| + g.at)
            && (f.Bad? && (loose || NoDoubleCr(whole)) ==> g.Bad?)
  {
    CrsInPrefix(w, whole, loose);
    var v := whole[|w|..];
    assert forall i | 0 <= i < |v| :: v[i] == whole[|w| + i];
    if !loose && |w| == 1 && |whole| > 1 { assert whole[0] == CR && v[0] == whole[1]; }
    if |w| == 0 { assert v == whole; }
  }

  lemma OnlyCrsResume(cfg: Config, d: seq<Byte>, whole: seq<Byte>, s: State)
    requires d <= whole && Within(d, s) && !s.error && !s.eol && s.kind == InLiteralData
    requires Linebreak(d[s.consumed..], s.skipCrlf, cfg.loose).More?
    ensures Resumes(cfg, d, whole, ReadData(cfg, d, s), ReadData(cfg, whole, s))
  {
    hide Linebreak, Crs, NoDoubleCr;
    var w, W := d[s.consumed..], whole[s.consumed..];
    Windows(d, whole, s.consumed);
    var t := s.(consumed := |d|);
    MoreIsCrs(w, s.skipCrlf, cfg.loose);
    LinebreakBehindCrs(w, W, cfg.loose);
    if NoDoubleCr(whole) { NoDoubleCrBehind(whole, s.consumed); }
    assert W[|w|..] == whole[t.consumed..];
    assert ReadData(cfg, d, s) == (false, t);
    DataBehindCrs(cfg, whole, s, |w|);
  }

  lemma MoreIsCrs(w: seq<Byte>, due: bool, loose: bool)
    requires Linebreak(w, due, loose).More?
    ensures due && Crs(w, loose) == |w|
  {
  }

  lemma DataBehindCrs(cfg: Config, whole: seq<Byte>, s: State, n: nat)
    requires Within(whole, s) && !s.error && s.kind == InLiteralData && s.skipCrlf && s.consumed + n <= |whole|
    requires var f := Linebreak(whole[s.consumed..], true, cfg.loose);
             var g := Linebreak(whole[s.consumed + n..], true, cfg.loose);
             && (f.Found? ==> g.Found? && f.at == n + g.at) && (f.More? ==> g.More? && f.at == n + g.at)
             && (f.Bad? && Forgiving(cfg, whole) ==> g.Bad?)
    ensures var f, g := ReadData(cfg, whole, s), ReadData(cfg, whole, s.(consumed := s.consumed + n));
            (!f.1.error ==> g == f) && (f.1.error && Forgiving(cfg, whole) ==> g.1.error)
  {
    hide Linebreak, Crs, LiteralArg, Forgiving;
  }

  lemma NoDoubleCrBehind(data: seq<Byte>, k: nat)
    requires k <= |data| && NoDoubleCr(data)
    ensures NoDoubleCr(data[k..])
  {
    var v := data[k..];
    forall i | 0 <= i < |v| - 1 ensures !(v[i] == CR && v[i + 1] == CR) {
      assert !(data[k + i] == CR && data[k + i + 1] == CR);
    }
  }

  lemma FoundLinebreakResumes(cfg: Config, d: seq<Byte>, whole: seq<Byte>, s: State, i: nat)
    requires d <= whole && Within(d, s) && !s.error && !s.eol && s.kind == InLiteralData
    requires Linebreak(d[s.consumed..], s.skipCrlf, cfg.loose) == Found(i)
    ensures Resumes(cfg, d, whole, ReadData(cfg, d, s), ReadData(cfg, whole, s))
  {
    hide Linebreak, LiteralArg, Crs;
    Windows(d, whole, s.consumed);
    LinebreakInPrefix(d[s.consumed..], whole[s.consumed..], s.skipCrlf, cfg.loose);
    var t := s.(consumed := s.consumed + i, skipCrlf := false);
    var v, V := d[t.consumed..], whole[t.consumed..];
    Windows(d, whole, t.consumed);
    if |v| >= s.literalSize {
      assert v[..s.literalSize] == V[..s.literalSize];
    } else {
      NoLinebreakDue(V, cfg.loose);
      assert ReadData(cfg, d, s) == (false, t);
      assert ReadData(cfg, whole, t) == ReadData(cfg, whole, s);
    }
  }

  lemma LinebreakInPrefix(w: seq<Byte>, whole: seq<Byte>, due: bool, loose: bool)
    requires w <= whole && Linebreak(w, due, loose).Found?
    ensures Linebreak(whole, due, loose) == Linebreak(w, due, loose)
  {
    CrsInPrefix(w, whole, loose);
  }

  lemma NoLinebreakDue(w: seq<Byte>, loose: bool)
    ensures Linebreak(w, false, loose) == Found(0)
  {
  }

  lemma LiteralResumes(cfg: Config, d: seq<Byte>, whole: seq<Byte>, s: State)
    requires d <= whole && Within(d, s) && !s.error && !s.eol && s.kind == InLiteral
    ensures Resumes(cfg, d, whole, ReadLiteral(cfg, d, s), ReadLiteral(cfg, whole, s))
  {
    var w, W := d[s.consumed..], whole[s.consumed..];
    Windows(d, whole, s.consumed);
    HeaderInPrefix(w, W, s.pos, s.literalSize, s.nonsync);
    hide *;
    var r := HeaderEnd(w, s.pos, s.literalSize, s.nonsync);
    if r.0.More? {
      HeaderStopsShort(cfg, d, whole, s);
    } else {
      HeaderEnds(cfg, d, whole, s);
    }
  }

  lemma HeaderStopsShort(cfg: Config, d: seq<Byte>, whole: seq<Byte>, s: State)
    requires d <= whole && Within(d, s) && !s.error && !s.eol && s.kind == InLiteral
    requires var r := HeaderEnd(d[s.consumed..], s.pos, s.literalSize, s.nonsync);
             r.0.More? && HeaderEnd(whole[s.consumed..], s.pos, s.literalSize, s.nonsync)
                          == HeaderEnd(whole[s.consumed..], r.0.at, r.1, r.2)
    ensures Resumes(cfg, d, whole, ReadLiteral(cfg, d, s), ReadLiteral(cfg, whole, s))
  {
    hide HeaderEnd, ReadSized, Resumes;
    var t := ReadLiteral(cfg, d, s).1;
    var f, g := ReadLiteral(cfg, whole, s), ReadLiteral(cfg, whole, t);
    assert f == g || (f.1.error && g.1.error);
    UnfinishedResumes(cfg, d, whole, t, f);
  }

  lemma HeaderEnds(cfg: Config, d: seq<Byte>, whole: seq<Byte>, s: State)
    requires d <= whole && Within(d, s) && !s.error && !s.eol && s.kind == InLiteral
    requires var r := HeaderEnd(d[s.consumed..], s.pos, s.literalSize, s.nonsync);
             !r.0.More? && HeaderEnd(whole[s.consumed..], s.pos, s.literalSize, s.nonsync) == r
    ensures Resumes(cfg, d, whole, ReadLiteral(cfg, d, s), ReadLiteral(cfg, whole, s))
  {
    hide HeaderEnd, ReadSized, Resumes;
    var r := HeaderEnd(d[s.consumed..], s.pos, s.literalSize, s.nonsync);
    if r.0.Found? {
      SizedResumes(cfg, d, whole,
                   s.(consumed := s.consumed + r.0.at + 1, pos := 0, literalSize := r.1, nonsync := r.2));
    } else {
      SameResumes(cfg, d, whole, ReadLiteral(cfg, d, s));
    }
  }

  lemma SizedResumes(cfg: Config, d: seq<Byte>, whole: seq<Byte>, s: State)
    requires d <= whole && s.consumed <= |d| && !s.error && !s.eol && s.kind == InLiteral && s.pos == 0
    ensures Resumes(cfg, d, whole, ReadSized(cfg, d, s), ReadSized(cfg, whole, s))
  {
    hide ReadData, Resumes;
    if s.consumed >= cfg.maxLine || s.literalSize > cfg.maxLine - s.consumed {
      SameResumes(cfg, d, whole, (false, s.(error := true)));
    } else {
      DataResumes(cfg, d, whole, s.(kind := InLiteralData, skipCrlf := true));
    }
  }

  lemma SameResumes(cfg: Config, d: seq<Byte>, whole: seq<Byte>, r: (bool, State))
    requires r.0 || r.1.error || r.1.eol
    ensures Resumes(cfg, d, whole, r, r)
  {
  }

  lemma UnfinishedResumes(cfg: Config, d: seq<Byte>, whole: seq<Byte>, t: State, f: (bool, State))
    requires d <= whole && Within(d, t) && !t.error && !t.eol && t.kind != Idle
    requires var g := GoOn(cfg, whole, t); f == g || (f.1.error && g.1.error)
    ensures Resumes(cfg, d, whole, (false, t), f)
  {
    hide ReadAtom, ReadString, ReadData, ReadLiteral;
  }

  lemma GoOnResumes(cfg: Config, d: seq<Byte>, whole: seq<Byte>, s: State)
    requires d <= whole && Within(d, s) && !s.error && !s.eol && s.kind != Idle
    ensures Resumes(cfg, d, whole, GoOn(cfg, d, s), GoOn(cfg, whole, s))
  {
    hide ReadAtom, ReadString, ReadData, ReadLiteral, Resumes;
    match s.kind {
      case InAtom => AtomResumes(cfg, d, whole, s);
      case InString => StringResumes(cfg, d, whole, s);
      case InLiteral => LiteralResumes(cfg, d, whole, s);
      case InLiteralData => DataResumes(cfg, d, whole, s);
    }
  }

  ghost predicate ArgResumes(cfg: Config, d: seq<Byte>, whole: seq<Byte>, s: State, r: (bool, State), f: (bool, State))
  {
    if r.0 || r.1.error || r.1.eol then f == r
    else
      && Within(d, r.1) && Within(whole, r.1)
      && r.1.args == s.args && (s.kind != Idle ==> r.1.kind != Idle)
      && (!f.1.error ==> ReadArg(cfg, whole, r.1) == f)
      && (f.1.error && Forgiving(cfg, whole) ==> ReadArg(cfg, whole, r.1).1.error)
  }

  lemma StartedArgResumes(cfg: Config, d: seq<Byte>, whole: seq<Byte>, s: State)
    requires d <= whole && Within(d, s) && !s.error && !s.eol && s.kind != Idle && s.consumed < |d|
    ensures ArgResumes(cfg, d, whole, s, GoOn(cfg, d, s), GoOn(cfg, whole, s))
  {
    hide GoOn, Forgiving;
    GoOnResumes(cfg, d, whole, s);
    var r := GoOn(cfg, d, s);
    if !(r.0 || r.1.error || r.1.eol) && r.1.consumed == |whole| { assert d == whole; }
  }

  // Nothing but spaces was left.
  lemma SpacesResume(cfg: Config, d: seq<Byte>, whole: seq<Byte>, s: State)
    requires d <= whole && Within(d, s) && !s.error && !s.eol && s.kind == Idle && s.consumed < |d|
    requires SkipSpaces(d[s.consumed..], s.pos) == |d| - s.consumed
    ensures ArgResumes(cfg, d, whole, s, ReadArg(cfg, d, s), ReadArg(cfg, whole, s))
  {
    hide GoOn, Forgiving, SkipSpaces;
    var w, W := d[s.consumed..], whole[s.consumed..];
    Windows(d, whole, s.consumed);
    SpacesInPrefix(w, W, s.pos);
    assert Begin(d, s) == s.(consumed := |d|, pos := 0);
    if |d| == |whole| {
      assert d == whole;
    } else {
      SpacesShift(W, |w|, 0);
      hide Begin;
      BeginBehindSpaces(d, whole, s);
    }
  }

  lemma BeginBehindSpaces(d: seq<Byte>, whole: seq<Byte>, s: State)
    requires d <= whole && Within(d, s) && s.kind == Idle
    requires var w, W := d[s.consumed..], whole[s.consumed..];
             SkipSpaces(W, s.pos) == SkipSpaces(W, |w|) == |w| + SkipSpaces(W[|w|..], 0)
    ensures Begin(whole, s) == Begin(whole, s.(consumed := |d|, pos := 0))
  {
    hide SkipSpaces, BeginWith;
    var t := s.(consumed := |d|, pos := 0);
    assert whole[s.consumed..][|d| - s.consumed..] == whole[t.consumed..];
  }

  lemma ReadArgResumes(cfg: Config, d: seq<Byte>, whole: seq<Byte>, s: State)
    requires d <= whole && Within(d, s) && !s.error && !s.eol
    ensures ArgResumes(cfg, d, whole, s, ReadArg(cfg, d, s), ReadArg(cfg, whole, s))
  {
    hide GoOn, Forgiving, SkipSpaces;
    if s.consumed < |d| {
      if s.kind != Idle {
        StartedArgResumes(cfg, d, whole, s);
      } else if SkipSpaces(d[s.consumed..], s.pos) == |d| - s.consumed {
        SpacesResume(cfg, d, whole, s);
      } else {
        var w, W := d[s.consumed..], whole[s.consumed..];
        Windows(d, whole, s.consumed);
        SpacesInPrefix(w, W, s.pos);
        var t := Begin(d, s);
        assert t == Begin(whole, s);
        if t.kind != Idle { StartedArgResumes(cfg, d, whole, t); }
      }
    }
  }

  // ----- All arguments -----

  ghost predicate Agree(a: (Outcome, State), b: (Outcome, State))
  {
    a.0 == b.0 && (a.0.Failed? || a == b)
  }

  // Trying a prefix first: either it decides the outcome, or reading can go on from there.
  lemma {:induction false} ReadArgsResumes(cfg: Config, d: seq<Byte>, whole: seq<Byte>, s: State)
    requires d <= whole && Within(d, s) && !s.error && !s.eol
    requires Forgiving(cfg, whole) || !ReadArgs(cfg, whole, s).0.Failed?
    ensures var r := ReadArgs(cfg, d, s); var f := ReadArgs(cfg, whole, s);
            if r.0.NeedMore? then !r.1.eol && Agree(ReadArgs(cfg, whole, r.1), f) else Agree(r, f)
    decreases Left(d, s)
  {
    hide ReadArg, Forgiving, FinishLine;
    if Wants(cfg, s) {
      ReadArgResumes(cfg, d, whole, s);
      var r := ReadArg(cfg, d, s);
      if r.0 && r.1.consumed <= cfg.maxLine && !r.1.eol { ReadArgsResumes(cfg, d, whole, r.1); }
    }
  }

  // ----- Any pieces -----

  // The pieces arrive one after the other; the parser is asked again after each while it needs more.
  function Deliver(cfg: Config, seen: seq<Byte>, pieces: seq<seq<Byte>>, s: State): (Outcome, State)
    requires pieces != [] && Within(seen, s) && !s.error
    decreases |pieces|
  {
    var data := seen + pieces[0];
    var r := ReadArgs(cfg, data, s);
    if r.0.NeedMore? && |pieces| > 1 then Deliver(cfg, data, pieces[1..], r.1) else r
  }

  // Whatever the pieces: the outcome of reading all of the input at once, with the same arguments
  // and the same number of bytes taken; on failure under the condition that no CR follows a CR.
  lemma {:induction false} PiecesChangeNothing(cfg: Config, seen: seq<Byte>, pieces: seq<seq<Byte>>, s: State)
    requires pieces != [] && Within(seen, s) && !s.error && !s.eol
    requires Forgiving(cfg, seen + Joined(pieces)) || !ReadArgs(cfg, seen + Joined(pieces), s).0.Failed?
    ensures Agree(Deliver(cfg, seen, pieces, s), ReadArgs(cfg, seen + Joined(pieces), s))
    decreases |pieces|
  {
    hide ReadArgs, Forgiving;
    var data, whole := seen + pieces[0], seen + Joined(pieces);
    assert whole == data + Joined(pieces[1..]);
    if |pieces| == 1 {
      assert data == whole;
    } else {
      ReadArgsResumes(cfg, data, whole, s);
      var r := ReadArgs(cfg, data, s);
      if r.0.NeedMore? { PiecesChangeNothing(cfg, data, pieces[1..], r.1); }
    }
  }

  // A CR at the end of a piece is forgotten: this input fails at once and passes in two pieces.
  lemma ForgottenCr()
    ensures var cfg := Config(1, 100, false, false, s => true, false);
            var a, b: seq<Byte> := [LBRACE, 48, RBRACE, CR], [CR, LF];
            Within([], RESET) && ReadArgs(cfg, a + b, RESET).0.Failed? && Deliver(cfg, [], [a, b], RESET).0.Accepted?
  {
    hide ReadArgs;
    var cfg := Config(1, 100, false, false, s => true, false);
    var a, b: seq<Byte> := [LBRACE, 48, RBRACE, CR], [CR, LF];
    assert [] + a == a && [a, b][1..] == [b];
    EndsInCr(cfg, a);
    TwoCrs(cfg, a + b);
    CrThenCrLf(cfg, a + b);
  }

  lemma EndsInCr(cfg: Config, data: seq<Byte>)
    requires data == [LBRACE, 48, RBRACE, CR] && cfg.maxLine == 100 && cfg.count == 1 && !cfg.loose
    ensures ReadArgs(cfg, data, RESET) == (NeedMore, HEADED.(consumed := 4))
  {
    EmptyLiteralHeader(cfg, data, [CR]);
    hide ReadArg;
    assert data[3..] == [CR];
  }

  lemma TwoCrs(cfg: Config, data: seq<Byte>)
    requires data == [LBRACE, 48, RBRACE, CR, CR, LF] && cfg.maxLine == 100 && cfg.count == 1 && !cfg.loose
    ensures ReadArgs(cfg, data, RESET).0.Failed?
  {
    EmptyLiteralHeader(cfg, data, [CR, CR, LF]);
    hide ReadArg;
    assert data[3..] == [CR, CR, LF];
  }

  lemma CrThenCrLf(cfg: Config, data: seq<Byte>)
    requires data == [LBRACE, 48, RBRACE, CR, CR, LF] && cfg.maxLine == 100 && cfg.count == 1 && !cfg.loose
             && cfg.utf8([])
    ensures ReadArgs(cfg, data, HEADED.(consumed := 4)).0.Accepted?
  {
    var t := HEADED.(consumed := 4);
    assert data[4..] == [CR, LF] && data[6..] == [];
    assert ReadData(cfg, data, t) == (true, Save(t.(consumed := 6, skipCrlf := false), 0, LiteralArg(cfg, [])));
    assert ReadArg(cfg, data, t) == ReadData(cfg, data, t);
    hide ReadArg, ReadData, LiteralArg;
  }

  const HEADED := RESET.(consumed := 3, kind := InLiteralData, skipCrlf := true)

  lemma EmptyLiteralHeader(cfg: Config, data: seq<Byte>, rest: seq<Byte>)
    requires data == [LBRACE, 48, RBRACE] + rest && cfg.maxLine == 100
    ensures ReadArg(cfg, data, RESET) == ReadData(cfg, data, HEADED)
  {
    hide ReadData;
    assert data[0..] == data;
    assert HeaderEnd(data, 1, 0, false) == (Found(2), 0, false);
  }

  // The parser object, asked again after every piece.
  method ReadInPieces(parser: ArgParser, pieces: seq<seq<Byte>>) returns (outcome: Outcome)
    requires pieces != [] && parser.Valid() && !parser.error && Within(parser.input.delivered, parser.Registers())
    modifies parser, parser.input
    ensures parser.Valid()
    ensures (outcome, parser.Registers())
            == Deliver(parser.cfg, old(parser.input.delivered), pieces, old(parser.Registers()))
  {
    hide ReadArgs;
    ghost var goal := Deliver(parser.cfg, parser.input.delivered, pieces, parser.Registers());
    var i := 0;
    while true
      invariant 0 <= i < |pieces| && parser.Valid() && !parser.error
                && Within(parser.input.delivered, parser.Registers())
      invariant goal == Deliver(parser.cfg, parser.input.delivered, pieces[i..], parser.Registers())
      decreases |pieces| - i
    {
      parser.input.Deliver(pieces[i]);
      outcome := parser.ReadArguments();
      if !outcome.NeedMore? || i + 1 == |pieces| { return; }
      assert pieces[i..][1..] == pieces[i + 1..];
      i := i + 1;
    }
  }
}
