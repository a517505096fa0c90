// Byte by byte, the argument parser is a reader that passes over any number of CRs in front of the LF
// behind a literal header. That is when pieces matter.
module ManageSieveLoose {
  import opened Bytes
  import opened ManageSieve
  import opened ManageSieveChunks
  import opened ManageSieveCuts

  function Loosely(cfg: Config): Config { cfg.(loose := true) }

  // All that was delivered has been looked at: what the parser stands at when it needs more.
  predicate Rests(data: seq<Byte>, s: State)
  {
    Within(data, s) &&
    match s.kind
    case InString =>
      s.consumed + s.pos == |data| || (s.consumed + s.pos + 1 == |data| && data[s.consumed + s.pos] == BACKSLASH)
    case InLiteralData => if s.skipCrlf then s.consumed == |data| else |data| - s.consumed < s.literalSize
    case _ => s.consumed + s.pos == |data|
  }

  // There is at most one byte that has not been looked at.
  predicate Near(data: seq<Byte>, s: State)
  {
    Within(data, s) &&
    match s.kind
    case InString =>
      || s.consumed + s.pos + 1 >= |data|
      || (s.consumed + s.pos + 2 == |data| && data[s.consumed + s.pos] == BACKSLASH)
    case InLiteralData => if s.skipCrlf then s.consumed + 1 >= |data| else |data| - s.consumed <= s.literalSize
    case _ => s.consumed + s.pos + 1 >= |data|
  }

  lemma RestsIsNear(data: seq<Byte>, b: Byte, s: State)
    requires Rests(data, s)
    ensures Near(data + [b], s) && s.consumed < |data + [b]|
  {
  }

  lemma GoOnRests(cfg: Config, data: seq<Byte>, s: State)
    requires Within(data, s) && !s.error && s.kind != Idle
    ensures var r := GoOn(cfg, data, s); r.0 || r.1.error || Rests(data, r.1)
  {
    match s.kind
    case InAtom => AtomRests(data, s);
    case InString => TextRests(cfg, data, s);
    case InLiteral => LiteralRests(cfg, data, s);
    case InLiteralData => DataRests(cfg, data, s);
  }

  lemma AtomRests(data: seq<Byte>, s: State)
    requires Within(data, s) && !s.error && s.kind == InAtom
    ensures var r := ReadAtom(data, s); r.0 || r.1.error || Rests(data, r.1)
  {
    hide AtomEnd;
  }

  lemma TextRests(cfg: Config, data: seq<Byte>, s: State)
    requires Within(data, s) && !s.error && s.kind == InString
    ensures var r := ReadString(cfg, data, s); r.0 || r.1.error || Rests(data, r.1)
  {
    hide StringEnd, StringArg;
    StringRests(data[s.consumed..], s.pos, s.escape);
  }

  lemma DataRests(cfg: Config, data: seq<Byte>, s: State)
    requires Within(data, s) && !s.error && s.kind == InLiteralData
    ensures var r := ReadData(cfg, data, s); r.0 || r.1.error || Rests(data, r.1)
  {
    hide Crs, LiteralArg;
  }

  lemma LiteralRests(cfg: Config, data: seq<Byte>, s: State)
    requires Within(data, s) && !s.error && s.kind == InLiteral
    ensures var r := ReadLiteral(cfg, data, s); r.0 || r.1.error || Rests(data, r.1)
  {
    hide HeaderEnd, ReadData;
    var r := HeaderEnd(data[s.consumed..], s.pos, s.literalSize, s.nonsync);
    if r.0.Found? {
      DataRests(cfg, data, s.(consumed := s.consumed + r.0.at + 1, pos := 0, literalSize := r.1, nonsync := r.2,
                              kind := InLiteralData, skipCrlf := true));
    }
  }

  lemma {:induction false} StringRests(w: seq<Byte>, i: nat, escape: int)
    requires i <= |w|
    ensures var r := StringEnd(w, i, escape).0;
            r.More? ==> r.at == |w| || (r.at + 1 == |w| && w[r.at] == BACKSLASH)
    decreases |w| - i
  {
    if i < |w| && w[i] != QUOTE && w[i] != 0 {
      if w[i] == BACKSLASH {
        if i + 1 < |w| { StringRests(w, i + 2, if escape < 0 then i else escape); }
      } else {
        StringRests(w, i + 1, escape);
      }
    }
  }

  lemma ArgRests(cfg: Config, data: seq<Byte>, s: State)
    requires Within(data, s) && !s.error && (s.kind == Idle || s.consumed < |data|)
    ensures var r := ReadArg(cfg, data, s); r.0 || r.1.error || r.1.eol || Rests(data, r.1)
  {
    hide GoOn, SkipSpaces;
    if s.consumed < |data| {
      var t := if s.kind == Idle then Begin(data, s) else s;
      if t.kind != Idle { GoOnRests(cfg, data, t); }
    }
  }

  lemma {:induction false} ArgsRest(cfg: Config, data: seq<Byte>, s: State)
    requires Within(data, s) && !s.error && (s.kind == Idle || s.consumed < |data|)
    ensures var r := ReadArgs(cfg, data, s); r.0.NeedMore? ==> Rests(data, r.1) && !r.1.eol
    decreases Left(data, s)
  {
    hide ReadArg, FinishLine, Rests;
    if Wants(cfg, s) {
      ArgRests(cfg, data, s);
      var r := ReadArg(cfg, data, s);
      if r.0 && r.1.consumed <= cfg.maxLine { ArgsRest(cfg, data, r.1); }
    }
  }

  lemma GoOnNear(cfg: Config, data: seq<Byte>, s: State)
    requires Near(data, s) && !s.error && s.kind != Idle && !cfg.loose
    ensures var r := GoOn(cfg, data, s);
            GoOn(Loosely(cfg), data, s) == r && (r.0 ==> Near(data, r.1))
  {
    match s.kind
    case InAtom => AtomNear(data, s);
    case InString => StringNear(cfg, data, s);
    case InLiteral => LiteralNear(cfg, data, s);
    case InLiteralData => DataNear(cfg, data, s);
  }

  lemma AtomNear(data: seq<Byte>, s: State)
    requires Near(data, s) && !s.error && s.kind == InAtom
    ensures var r := ReadAtom(data, s); r.0 ==> Near(data, r.1)
  {
    hide AtomEnd;
  }

  lemma StringNear(cfg: Config, data: seq<Byte>, s: State)
    requires Near(data, s) && !s.error && s.kind == InString
    ensures var r := ReadString(cfg, data, s);
            ReadString(Loosely(cfg), data, s) == r && (r.0 ==> Near(data, r.1))
  {
    var w := data[s.consumed..];
    EscapedEnd(w, s.pos, s.escape);
    hide StringEnd;
    assert StringArg(Loosely(cfg), [], 0) == StringArg(cfg, [], 0);
  }

  // An escape at the end of the input does not end the string.
  lemma EscapedEnd(w: seq<Byte>, i: nat, escape: int)
    requires i <= |w|
    ensures i + 2 == |w| && w[i] == BACKSLASH ==> !StringEnd(w, i, escape).0.Found?
  {
  }

  lemma DataNear(cfg: Config, data: seq<Byte>, s: State)
    requires Near(data, s) && !s.error && s.kind == InLiteralData && !cfg.loose
    ensures var r := ReadData(cfg, data, s);
            ReadData(Loosely(cfg), data, s) == r && (r.0 ==> Near(data, r.1))
  {
    var w := data[s.consumed..];
    if s.skipCrlf { ShortLinebreak(w); }
    hide Crs;
  }

  lemma ShortLinebreak(w: seq<Byte>)
    requires |w| <= 1
    ensures Crs(w, true) == Crs(w, false)
  {
    if |w| == 1 { assert w[1..] == []; }
  }

  lemma LiteralNear(cfg: Config, data: seq<Byte>, s: State)
    requires Near(data, s) && !s.error && s.kind == InLiteral && !cfg.loose
    ensures var r := ReadLiteral(cfg, data, s);
            ReadLiteral(Loosely(cfg), data, s) == r && (r.0 ==> Near(data, r.1))
  {
    hide HeaderEnd, ReadData;
    var w := data[s.consumed..];
    var r := HeaderEnd(w, s.pos, s.literalSize, s.nonsync);
    if r.0.Found? {
      var t := s.(consumed := s.consumed + r.0.at + 1, pos := 0, literalSize := r.1, nonsync := r.2,
                  kind := InLiteralData, skipCrlf := true);
      DataNear(cfg, data, t);
    }
  }

  lemma ArgNear(cfg: Config, data: seq<Byte>, s: State)
    requires Near(data, s) && !s.error && !cfg.loose
    ensures var r := ReadArg(cfg, data, s);
            ReadArg(Loosely(cfg), data, s) == r && (r.0 ==> Near(data, r.1))
  {
    hide GoOn, SkipSpaces;
    if s.consumed < |data| {
      var t := if s.kind == Idle then Begin(data, s) else s;
      if t.kind != Idle { GoOnNear(cfg, data, t); }
    }
  }

  lemma {:induction false} ArgsNear(cfg: Config, data: seq<Byte>, s: State)
    requires Near(data, s) && !s.error && !cfg.loose
    ensures ReadArgs(Loosely(cfg), data, s) == ReadArgs(cfg, data, s)
    decreases Left(data, s)
  {
    hide ReadArg;
    if Wants(cfg, s) {
      ArgNear(cfg, data, s);
      var r := ReadArg(cfg, data, s);
      if r.0 && r.1.consumed <= cfg.maxLine { ArgsNear(cfg, data, r.1); }
    }
  }

  // Delivered byte by byte, the input gets the answer of the loose reader.
  lemma {:induction false} BytesAreLoose(cfg: Config, seen: seq<Byte>, data: seq<Byte>, s: State)
    requires data != [] && Rests(seen, s) && !s.error && !s.eol && !cfg.loose
    ensures Agree(Deliver(cfg, seen, ByteByByte(data), s), ReadArgs(Loosely(cfg), seen + data, s))
    decreases |data|
  {
    hide ReadArgs, Near, Rests, Within, Deliver, ByteByByte, Forgiving;
    var first, rest := seen + [data[0]], data[1..];
    RestsWithin(seen, data[0], s);
    RestsIsNear(seen, data[0], s);
    ArgsNear(cfg, first, s);
    DeliverFirst(cfg, seen, data, s);
    var r := ReadArgs(cfg, first, s);
    if rest == [] {
      assert first == seen + data;
    } else {
      assert first + rest == seen + data;
      ForgivingLoosely(cfg, seen + data);
      ReadArgsResumes(Loosely(cfg), first, seen + data, s);
      if r.0.NeedMore? {
        ArgsRest(cfg, first, s);
        BytesAreLoose(cfg, first, rest, r.1);
      }
    }
  }

  lemma ForgivingLoosely(cfg: Config, data: seq<Byte>)
    ensures Forgiving(Loosely(cfg), data)
  {
  }

  lemma DeliverFirst(cfg: Config, seen: seq<Byte>, data: seq<Byte>, s: State)
    requires data != [] && Within(seen, s) && !s.error && Within(seen + [data[0]], s)
    ensures var first := seen + [data[0]]; var r := ReadArgs(cfg, first, s);
            Deliver(cfg, seen, ByteByByte(data), s)
            == if r.0.NeedMore? && |data| > 1 then Deliver(cfg, first, ByteByByte(data[1..]), r.1) else r
  {
    hide ReadArgs;
    assert ByteByByte(data)[1..] == ByteByByte(data[1..]);
  }

  lemma RestsWithin(data: seq<Byte>, b: Byte, s: State)
    requires Rests(data, s)
    ensures Within(data, s) && Within(data + [b], s) && s.consumed < |data + [b]|
  {
  }

  // ----- When pieces matter -----

  // The parser has met a line break behind a literal header that begins with two CRs.
  predicate AtTwoCrs(data: seq<Byte>, s: State)
  {
    && s.error && s.kind == InLiteralData && s.skipCrlf && s.pos == 0 && 0 < s.consumed < |data|
    && data[s.consumed - 1] == CR && data[s.consumed] == CR
  }

  lemma LinebreakStrictOrLoose(w: seq<Byte>, due: bool)
    ensures || (Linebreak(w, due, true) == Linebreak(w, due, false) && (due ==> Crs(w, true) == Crs(w, false)))
            || (due && Linebreak(w, due, false).Bad? && |w| > 1 && w[0] == CR && w[1] == CR && Crs(w, false) == 1)
    ensures Linebreak(w, due, false).Bad? ==> due
  {
    if |w| > 1 { assert w[1..][0] == w[1]; }
  }

  lemma SameLiteralArg(cfg: Config, text: seq<Byte>)
    ensures LiteralArg(Loosely(cfg), text) == LiteralArg(cfg, text)
  {
  }

  lemma DataStrictOrLoose(cfg: Config, data: seq<Byte>, s: State)
    requires Within(data, s) && !s.error && s.kind == InLiteralData && !cfg.loose
    ensures ReadData(Loosely(cfg), data, s) == ReadData(cfg, data, s) || AtTwoCrs(data, ReadData(cfg, data, s).1)
  {
    hide Crs, LiteralArg, Linebreak;
    var w := data[s.consumed..];
    LinebreakStrictOrLoose(w, s.skipCrlf);
    var r := Linebreak(w, s.skipCrlf, false);
    if r.Found? {
      var v := data[s.consumed + r.at..];
      if |v| >= s.literalSize { SameLiteralArg(cfg, v[..s.literalSize]); }
    }
  }

  lemma LiteralStrictOrLoose(cfg: Config, data: seq<Byte>, s: State)
    requires Within(data, s) && !s.error && s.kind == InLiteral && !cfg.loose
    ensures || ReadLiteral(Loosely(cfg), data, s) == ReadLiteral(cfg, data, s)
            || AtTwoCrs(data, ReadLiteral(cfg, data, s).1)
  {
    hide HeaderEnd, ReadData, AtTwoCrs;
    var r := HeaderEnd(data[s.consumed..], s.pos, s.literalSize, s.nonsync);
    if r.0.Found? {
      DataStrictOrLoose(cfg, data, s.(consumed := s.consumed + r.0.at + 1, pos := 0, literalSize := r.1, nonsync := r.2,
                                      kind := InLiteralData, skipCrlf := true));
    }
  }

  lemma StringStrictOrLoose(cfg: Config, data: seq<Byte>, s: State)
    requires Within(data, s) && !s.error && s.kind == InString
    ensures ReadString(Loosely(cfg), data, s) == ReadString(cfg, data, s)
  {
    hide StringEnd;
  }

  lemma ArgStrictOrLoose(cfg: Config, data: seq<Byte>, s: State)
    requires Within(data, s) && !s.error && !cfg.loose
    ensures ReadArg(Loosely(cfg), data, s) == ReadArg(cfg, data, s) || AtTwoCrs(data, ReadArg(cfg, data, s).1)
  {
    hide SkipSpaces, ReadAtom, ReadString, ReadLiteral, ReadData, AtTwoCrs;
    if s.consumed < |data| {
      var t := if s.kind == Idle then Begin(data, s) else s;
      match t.kind
      case Idle =>
      case InAtom =>
      case InString => StringStrictOrLoose(cfg, data, t);
      case InLiteral => LiteralStrictOrLoose(cfg, data, t);
      case InLiteralData => DataStrictOrLoose(cfg, data, t);
    }
  }

  // The parser and the loose reader part only where the parser fails at two CRs.
  lemma {:induction false} ArgsStrictOrLoose(cfg: Config, data: seq<Byte>, s: State)
    requires Within(data, s) && !s.error && !cfg.loose
    ensures var r := ReadArgs(cfg, data, s);
            ReadArgs(Loosely(cfg), data, s) == r || (r.0.Failed? && AtTwoCrs(data, r.1))
    decreases Left(data, s)
  {
    hide ReadArg;
    if Wants(cfg, s) {
      ArgStrictOrLoose(cfg, data, s);
      var r := ReadArg(cfg, data, s);
      if r.0 && r.1.consumed <= cfg.maxLine { ArgsStrictOrLoose(cfg, data, r.1); }
    }
  }

  // Some way to cut the input changes the answer if and only if the parser, reading it at once, meets
  // a line break that begins with two CRs, and the input is not wrong apart from repeated CRs.
  lemma PiecesMatterExactlyAtTwoCrs(cfg: Config, seen: seq<Byte>, data: seq<Byte>, s: State)
    requires data != [] && Rests(seen, s) && !s.error && !s.eol && !cfg.loose
    ensures (exists pieces | Cuts(pieces, data) :: !Agree(Deliver(cfg, seen, pieces, s), ReadArgs(cfg, seen + data, s)))
            <==> (AtTwoCrs(seen + data, ReadArgs(cfg, seen + data, s).1)
                  && !ReadArgs(Loosely(cfg), seen + data, s).0.Failed?)
  {
    hide ReadArgs, Deliver, Cuts, ByteByByte;
    RestsWithin(seen, data[0], s);
    PiecesMatterOnlyIfBytesDo(cfg, seen, data, s);
    BytesAreLoose(cfg, seen, data, s);
    ArgsStrictOrLoose(cfg, seen + data, s);
    TwoCrsFail(cfg, seen + data, s);
  }

  lemma {:induction false} TwoCrsFail(cfg: Config, data: seq<Byte>, s: State)
    requires Within(data, s) && !s.error
    ensures var r := ReadArgs(cfg, data, s); r.1.error ==> r.0.Failed?
    decreases Left(data, s)
  {
    hide ReadArg;
    if Wants(cfg, s) {
      var r := ReadArg(cfg, data, s);
      if r.0 && r.1.consumed <= cfg.maxLine { TwoCrsFail(cfg, data, r.1); }
    }
  }

  // The fresh parser rests on no input.
  lemma FreshRests()
    ensures Rests([], RESET)
  {
  }
}
