// A quoted value and what the argument parser reads of it.
module QuoteRoundTrip {
  import opened Bytes
  import opened ManageSieve
  import opened ManageSieveChunks
  import opened Numerals
  import opened Quote

  // What is used of UTF-8: valid text can be joined, and an ASCII byte is a character of its own.
  ghost predicate Utf8Laws(valid: seq<Byte> -> bool)
  {
    && valid([])
    && (forall a, b | valid(a) && valid(b) :: valid(a + b))
    && (forall a, c: Byte, b | c < 128 :: valid(a + [c] + b) <==> valid(a) && valid(b))
  }

  lemma Alone(valid: seq<Byte> -> bool, a: seq<Byte>, c: Byte, b: seq<Byte>)
    requires Utf8Laws(valid) && c < 128
    ensures valid(a + [c] + b) <==> valid(a) && valid(b)
  {
  }

  lemma Together(valid: seq<Byte> -> bool, a: seq<Byte>, b: seq<Byte>)
    requires Utf8Laws(valid) && valid(a) && valid(b)
    ensures valid([]) && valid(a + b)
  {
  }

  lemma ByteStaysValid(valid: seq<Byte> -> bool, front: seq<Byte>, c: Byte, last: bool, compress: bool, literal: bool,
                       tail: seq<Byte>)
    requires Utf8Laws(valid) && (IsQuotedSpecial(c) || IsLwsp(c)) && valid(front) && valid(tail)
    ensures valid(front + (CopyByte(c, last, compress, literal) + tail))
  {
    hide Utf8Laws;
    Together(valid, front, tail);
    var head := CopyByte(c, last, compress, literal);
    if head == [] {
      assert head + tail == tail;
    } else if |head| == 1 {
      Alone(valid, front, head[0], tail);
      Assoc(front, head, tail);
    } else {
      Alone(valid, [], c, tail);
      assert [] + [c] + tail == [c] + tail;
      Alone(valid, front, BACKSLASH, [c] + tail);
      assert front + [BACKSLASH] + ([c] + tail) == front + ([BACKSLASH, c] + tail);
    }
  }

  // Writing a valid value leaves it valid.
  lemma {:induction false} CopyStaysValid(valid: seq<Byte> -> bool, front: seq<Byte>, v: seq<Byte>, last: bool,
                                          compress: bool,
                                          literal: bool)
    requires Utf8Laws(valid) && valid(front + v)
    ensures valid(front + Copy(v, last, compress, literal))
    decreases |v|
  {
    hide Utf8Laws;
    if v != [] {
      var c, rest := v[0], v[1..];
      var next := IsLwsp(c) || IsLinebreak(c);
      var tail := Copy(rest, next, compress, literal);
      assert front + v == front + [c] + rest;
      if IsQuotedSpecial(c) || IsLwsp(c) {
        Alone(valid, front, c, rest);
        assert [] + rest == rest && [] + tail == tail;
        CopyStaysValid(valid, [], rest, next, compress, literal);
        ByteStaysValid(valid, front, c, last, compress, literal, tail);
      } else {
        CopyStaysValid(valid, front + [c], rest, next, compress, literal);
        Assoc(front, [c], tail);
      }
    }
  }

  lemma PayloadStaysValid(valid: seq<Byte> -> bool, v: seq<Byte>, compress: bool)
    requires Utf8Laws(valid) && valid(v)
    ensures valid(Payload(v, compress))
  {
    hide Utf8Laws, Copy;
    var literal := HasLinebreak(v);
    assert [] + v == v && [] + Copy(v, true, compress, literal) == Copy(v, true, compress, literal);
    CopyStaysValid(valid, [], v, true, compress, literal);
  }

  // ----- What is received -----

  // White space made single spaces; `last` is whether white space or a line break is in front.
  function Squeezed(v: seq<Byte>, last: bool, compress: bool): seq<Byte>
  {
    if v == [] then []
    else
      CopyByte(v[0], last, compress, true) + Squeezed(v[1..], IsLwsp(v[0]) || IsLinebreak(v[0]), compress)
  }

  function Received(v: seq<Byte>, compress: bool): seq<Byte>
  {
    if Dropped(v, compress) == 0 && (HasLinebreak(v) || Escapes(v) == 0) then v else Squeezed(v, true, compress)
  }

  lemma {:induction false} SqueezedLength(v: seq<Byte>, last: bool, compress: bool)
    ensures |Squeezed(v, last, compress)| + (if compress then Surplus(v, last) else 0) == |v|
    decreases |v|
  {
    if v != [] { SqueezedLength(v[1..], IsLwsp(v[0]) || IsLinebreak(v[0]), compress); }
  }

  lemma {:induction false} SqueezedKeeps(v: seq<Byte>, last: bool, compress: bool)
    requires compress ==> Surplus(v, last) == 0
    ensures Squeezed(v, last, compress) == v <==> TAB !in v
    decreases |v|
  {
    if v != [] {
      var next := IsLwsp(v[0]) || IsLinebreak(v[0]);
      var rest := Squeezed(v[1..], next, compress);
      SqueezedKeeps(v[1..], next, compress);
      var head := CopyByte(v[0], last, compress, true);
      assert |head| == 1 && (head + rest)[1..] == rest && (head + rest)[0] == head[0];
      assert v == [v[0]] + v[1..];
      if Squeezed(v, last, compress) == v { assert (head + rest)[1..] == v[1..]; }
    }
  }

  lemma ReceivedKeeps(v: seq<Byte>, compress: bool)
    ensures Received(v, compress) == v
            <==> Dropped(v, compress) == 0 && (HasLinebreak(v) || Escapes(v) == 0 || TAB !in v)
  {
    hide Squeezed, HasLinebreak, Escapes, Surplus;
    SqueezedLength(v, true, compress);
    if Dropped(v, compress) == 0 { SqueezedKeeps(v, true, compress); }
  }

  lemma {:induction false} CopyLiteral(v: seq<Byte>, last: bool, compress: bool)
    ensures Copy(v, last, compress, true) == Squeezed(v, last, compress)
    decreases |v|
  {
    if v != [] { CopyLiteral(v[1..], IsLwsp(v[0]) || IsLinebreak(v[0]), compress); }
  }

  lemma {:induction false} NothingEscaped(v: seq<Byte>, last: bool, compress: bool)
    requires Escapes(v) == 0
    ensures Copy(v, last, compress, false) == Squeezed(v, last, compress)
    decreases |v|
  {
    if v != [] { NothingEscaped(v[1..], IsLwsp(v[0]) || IsLinebreak(v[0]), compress); }
  }

  lemma {:induction false} UnescapeUndoes(v: seq<Byte>, last: bool, compress: bool)
    ensures Unescape(Copy(v, last, compress, false)) == Squeezed(v, last, compress)
    decreases |v|
  {
    if v != [] {
      var c := v[0];
      var next := IsLwsp(c) || IsLinebreak(c);
      UnescapeUndoes(v[1..], next, compress);
      UnescapeByte(c, last, compress, Copy(v[1..], next, compress, false));
    }
  }

  lemma UnescapeByte(c: Byte, last: bool, compress: bool, tail: seq<Byte>)
    ensures Unescape(CopyByte(c, last, compress, false) + tail) == CopyByte(c, last, compress, true) + Unescape(tail)
  {
    var head := CopyByte(c, last, compress, false);
    assert (head + tail)[|head|..] == tail;
    if head == [] { assert head + tail == tail; }
  }

  // The argument made of the text between the quotes.
  lemma TextReceived(cfg: Config, v: seq<Byte>, compress: bool, escape: int)
    requires !cfg.noUnescape && !HasLinebreak(v) && (escape < 0 <==> Escapes(v) == 0)
    ensures var r := Received(v, compress); StringArg(cfg, Payload(v, compress), escape) == String(r, |r|)
  {
    hide Copy, Squeezed, HasLinebreak, Escapes, Unescape, Surplus;
    if Escapes(v) == 0 { NothingEscaped(v, true, compress); }
    UnescapeUndoes(v, true, compress);
  }

  // ----- Quoted strings -----

  // The scan runs over the escaped text and finds the closing quote behind it.
  lemma {:induction false} StringEndsBehind(w: seq<Byte>, at: nat, v: seq<Byte>, last: bool, compress: bool,
                                            escape: int)
    requires Has(w, at, Copy(v, last, compress, false) + [QUOTE]) && !HasLinebreak(v)
    ensures var r := StringEnd(w, at, escape);
            if 0 in v then r.0.Bad?
            else r.0 == Found(at + |Copy(v, last, compress, false)|) && (r.1 < 0 <==> escape < 0 && Escapes(v) == 0)
    decreases |v|
  {
    hide Has, StringEnd, CopyByte;
    if v == [] {
      QuoteScans(w, at, escape);
    } else {
      var c, rest := v[0], v[1..];
      var next := IsLwsp(c) || IsLinebreak(c);
      var head, tail := CopyByte(c, last, compress, false), Copy(rest, next, compress, false);
      Assoc(head, tail, [QUOTE]);
      HasParts(w, at, head, tail + [QUOTE]);
      NoLinebreakLeft(v);
      hide HasLinebreak;
      ByteScans(w, at, c, last, compress, escape);
      if c != 0 {
        StringEndsBehind(w, at + |head|, rest, next, compress, if IsQuotedSpecial(c) && escape < 0 then at else escape);
      }
    }
  }

  lemma QuoteScans(w: seq<Byte>, at: nat, escape: int)
    requires Has(w, at, [] + [QUOTE])
    ensures at < |w| && StringEnd(w, at, escape) == (Found(at), escape)
  {
    assert [] + [QUOTE] == [QUOTE];
    HasByte(w, at, [QUOTE], 0);
  }

  // The scan over what is written for one byte.
  lemma ByteScans(w: seq<Byte>, at: nat, c: Byte, last: bool, compress: bool, escape: int)
    requires Has(w, at, CopyByte(c, last, compress, false)) && !IsLinebreak(c)
    ensures var head := CopyByte(c, last, compress, false);
            && at + |head| <= |w|
            && if c == 0 then StringEnd(w, at, escape).0.Bad?
               else
                 StringEnd(w, at, escape)
                 == StringEnd(w, at + |head|, if IsQuotedSpecial(c) && escape < 0 then at else escape)
  {
    var head := CopyByte(c, last, compress, false);
    HasFits(w, at, head);
    if head != [] { HasByte(w, at, head, 0); }
    if |head| == 2 { HasByte(w, at, head, 1); }
  }

  lemma NoLinebreakLeft(v: seq<Byte>)
    requires !HasLinebreak(v) && v != []
    ensures !IsLinebreak(v[0]) && !HasLinebreak(v[1..])
  {
    assert forall i | 0 <= i < |v[1..]| :: v[1..][i] == v[i + 1];
  }

  // Text without quotes and backslashes is written as it is.
  lemma {:induction false} PlainEndsBehind(w: seq<Byte>, at: nat, v: seq<Byte>)
    requires Has(w, at, v + [QUOTE]) && !HasLinebreak(v) && Escapes(v) == 0
    ensures var r := StringEnd(w, at, -1); if 0 in v then r.0.Bad? else r == (Found(at + |v|), -1)
    decreases |v|
  {
    if v == [] {
      HasByte(w, at, v + [QUOTE], 0);
    } else {
      var c, rest := v[0], v[1..];
      assert v + [QUOTE] == [c] + (rest + [QUOTE]);
      HasParts(w, at, [c], rest + [QUOTE]);
      HasByte(w, at, [c], 0);
      assert forall i | 0 <= i < |rest| :: rest[i] == v[i + 1];
      assert !IsLinebreak(v[0]);
      if c != 0 { PlainEndsBehind(w, at + 1, rest); }
    }
  }

  lemma StringScans(data: seq<Byte>, v: seq<Byte>, compress: bool, rest: seq<Byte>)
    requires !HasLinebreak(v) && data == [QUOTE] + Payload(v, compress) + [QUOTE] + rest
    ensures var r := StringEnd(data, 1, -1);
            if 0 in v then r.0.Bad? else r.0 == Found(1 + |Payload(v, compress)|) && (r.1 < 0 <==> Escapes(v) == 0)
  {
    hide StringEnd, HasLinebreak, Escapes, Copy, Surplus;
    var text := Payload(v, compress);
    assert data[1..1 + |text + [QUOTE]|] == text + [QUOTE];
    if Dropped(v, compress) == 0 && Escapes(v) == 0 {
      PlainEndsBehind(data, 1, v);
    } else {
      StringEndsBehind(data, 1, v, true, compress, -1);
    }
  }

  // ----- Reading one argument -----

  // The caller reads one argument of a line that is long enough.
  ghost predicate Reads(cfg: Config, utf8: Utf8, n: nat)
  {
    cfg.count == 1 && cfg.maxLine >= n && !cfg.noUnescape && !cfg.literalType && cfg.utf8 == utf8.valid
  }

  // The value comes back, and exactly its quoted form is taken from the input.
  ghost predicate ReadsBack(cfg: Config, quoted: seq<Byte>, rest: seq<Byte>, v: seq<Byte>)
  {
    var r := ReadArgs(cfg, quoted + rest, RESET);
    r.0.Accepted? && r.1.args == [String(v, |v|), Eol] && r.1.consumed == |quoted|
  }

  // One argument is read: what the line comes to.
  lemma OneArgument(cfg: Config, data: seq<Byte>, pos: nat, arg: Arg)
    requires cfg.count == 1
    requires var r := ReadArg(cfg, data, RESET);
             r.0 ==> r.1.pos == pos && r.1.args == [arg] && r.1.consumed <= cfg.maxLine && r.1.kind == Idle && !r.1.eol
    requires var r := ReadArg(cfg, data, RESET); !r.0 ==> r.1.error
    ensures var r := ReadArg(cfg, data, RESET); var f := ReadArgs(cfg, data, RESET);
            if r.0 then f.0.Accepted? && f.1.args == [arg, Eol] && f.1.consumed == r.1.consumed + pos else f.0.Failed?
  {
    hide ReadArg;
    var r := ReadArg(cfg, data, RESET);
    if r.0 {
      assert !Wants(cfg, r.1);
      assert [arg] + Padding(0) + [Eol] == [arg, Eol];
    }
  }

  lemma StringBegins(cfg: Config, data: seq<Byte>)
    requires data != [] && data[0] == QUOTE
    ensures ReadArg(cfg, data, RESET) == ReadString(cfg, data, RESET.(kind := InString, escape := -1, pos := 1))
  {
    hide ReadString;
    assert data[0..] == data;
  }

  // A value without line breaks.
  lemma StringIsReceived(cfg: Config, utf8: Utf8, v: seq<Byte>, compress: bool, rest: seq<Byte>)
    requires Utf8Laws(utf8.valid) && utf8.valid(v) && !HasLinebreak(v)
    requires Reads(cfg, utf8, |Quoted(utf8, v, compress)|)
    ensures var quoted := Quoted(utf8, v, compress);
            if 0 in v then ReadArgs(cfg, quoted + rest, RESET).0.Failed?
            else ReadsBack(cfg, quoted, rest, Received(v, compress))
  {
    hide Utf8Laws, StringEnd, HasLinebreak, Escapes, Payload, Received, StringArg;
    var text := Payload(v, compress);
    PayloadStaysValid(utf8.valid, v, compress);
    var quoted := Quoted(utf8, v, compress);
    var data := quoted + rest;
    assert quoted == [QUOTE] + text + [QUOTE];
    StringScans(data, v, compress, rest);
    StringBegins(cfg, data);
    assert data[0..] == data;
    if 0 in v {
      OneArgument(cfg, data, 0, Nil);
    } else {
      var r := StringEnd(data, 1, -1);
      assert data == [QUOTE] + (text + ([QUOTE] + rest));
      assert data[1..1 + |text|] == text;
      TextReceived(cfg, v, compress, r.1);
      OneArgument(cfg, data, |quoted|, StringArg(cfg, text, r.1));
    }
  }

  // ----- Literals -----

  lemma {:induction false} DigitsScan(w: seq<Byte>, at: nat, n: nat)
    requires Has(w, at, Decimal(n)) && n < SIZE_LIMIT
    ensures HeaderEnd(w, at, 0, false) == HeaderEnd(w, at + |Decimal(n)|, n, false)
    decreases n
  {
    if n < 10 {
      HasByte(w, at, Decimal(n), 0);
    } else {
      var k := |Decimal(n / 10)|;
      HasParts(w, at, Decimal(n / 10), [48 + n % 10]);
      HasByte(w, at + k, [48 + n % 10], 0);
      DigitsScan(w, at, n / 10);
      DigitScans(w, at + k, n / 10, n % 10);
    }
  }

  lemma DigitScans(w: seq<Byte>, at: nat, size: nat, digit: nat)
    requires at < |w| && digit < 10 && w[at] == 48 + digit && size * 10 + digit < SIZE_LIMIT
    ensures HeaderEnd(w, at, size, false) == HeaderEnd(w, at + 1, size * 10 + digit, false)
  {
  }

  lemma {:induction false} UpToNulIsAll(s: seq<Byte>)
    ensures UpToNul(s) == s <==> 0 !in s
    decreases |s|
  {
    if s != [] {
      UpToNulIsAll(s[1..]);
      if s[0] != 0 {
        if 0 !in s[1..] { assert [s[0]] + s[1..] == s; }
        if UpToNul(s) == s { assert UpToNul(s)[1..] == s[1..]; }
      }
    }
  }

  lemma LiteralBegins(cfg: Config, data: seq<Byte>)
    requires data != [] && data[0] == LBRACE
    ensures ReadArg(cfg, data, RESET) == ReadLiteral(cfg, data, RESET.(kind := InLiteral, pos := 1))
  {
    hide ReadLiteral;
    assert data[0..] == data;
  }

  // The header and the line break are read; the text is next.
  lemma HeaderReads(cfg: Config, n: nat, rest: seq<Byte>)
    requires n < SIZE_LIMIT && cfg.maxLine >= |Header(n)| + n
    ensures var data := Header(n) + rest; var k := |Header(n)|;
            k <= |data| && data[k..] == rest
            && ReadArg(cfg, data, RESET)
               == ReadData(cfg, data, RESET.(kind := InLiteralData, literalSize := n, consumed := k, skipCrlf := false))
  {
    hide Decimal, ReadData, HeaderEnd, ReadArg, Has;
    var data, digits := Header(n) + rest, Decimal(n);
    var k := 1 + |digits|;
    HeaderParts(n, rest);
    LiteralBegins(cfg, data);
    DigitsScan(data, 1, n);
    HeaderStops(data, k, n);
    HeaderSized(cfg, data, n, k);
    LinebreakReads(cfg, data, RESET.(kind := InLiteralData, literalSize := n, consumed := k + 1, skipCrlf := true));
  }

  lemma HeaderParts(n: nat, rest: seq<Byte>)
    ensures var data, k := Header(n) + rest, 1 + |Decimal(n)|;
            && |Header(n)| == k + 3 && data[0] == LBRACE && Has(data, 1, Decimal(n)) && data[k] == RBRACE
            && data[k + 1..k + 3] == [CR, LF] && data[k + 3..] == rest
  {
    hide Decimal;
    var data, digits := Header(n) + rest, Decimal(n);
    assert data == [LBRACE] + (digits + ([RBRACE, CR, LF] + rest));
    assert data[1..1 + |digits|] == digits;
  }

  lemma HeaderSized(cfg: Config, data: seq<Byte>, n: nat, k: nat)
    requires 1 <= k && k + 3 <= |data| && HeaderEnd(data, 1, 0, false) == (Found(k), n, false)
             && cfg.maxLine >= k + 3 + n
    ensures ReadLiteral(cfg, data, RESET.(kind := InLiteral, pos := 1))
            == ReadData(cfg, data, RESET.(kind := InLiteralData, literalSize := n, consumed := k + 1, skipCrlf := true))
  {
    hide HeaderEnd, ReadData;
    assert data[0..] == data;
  }

  lemma HeaderStops(w: seq<Byte>, at: nat, n: nat)
    requires at < |w| && w[at] == RBRACE
    ensures HeaderEnd(w, at, n, false) == (Found(at), n, false)
  {
  }

  lemma LinebreakReads(cfg: Config, data: seq<Byte>, s: State)
    requires Within(data, s) && !s.error && s.kind == InLiteralData && s.skipCrlf
    requires s.consumed + 2 <= |data| && data[s.consumed..s.consumed + 2] == [CR, LF]
    ensures ReadData(cfg, data, s) == ReadData(cfg, data, s.(consumed := s.consumed + 2, skipCrlf := false))
  {
    var w := data[s.consumed..];
    assert w[0] == data[s.consumed..s.consumed + 2][0] && w[1] == data[s.consumed..s.consumed + 2][1];
    if cfg.loose { assert w[1..][0] == LF && Crs(w[1..], true) == 0; }
    assert Linebreak(w, true, cfg.loose) == Found(2);
    var t := s.(consumed := s.consumed + 2, skipCrlf := false);
    assert Linebreak(data[t.consumed..], false, cfg.loose) == Found(0);
  }

  // A value with line breaks.
  lemma LiteralIsReceived(cfg: Config, utf8: Utf8, v: seq<Byte>, compress: bool, rest: seq<Byte>)
    requires Utf8Laws(utf8.valid) && utf8.valid(v) && HasLinebreak(v) && |v| < SIZE_LIMIT
    requires Reads(cfg, utf8, |Quoted(utf8, v, compress)|)
    ensures var quoted, text := Quoted(utf8, v, compress), Received(v, compress);
            var r := ReadArgs(cfg, quoted + rest, RESET);
            r.0.Accepted? && r.1.args == [String(UpToNul(text), |text|), Eol] && r.1.consumed == |quoted|
  {
    hide Header, HasLinebreak, UpToNul, Copy, Squeezed, Surplus, Utf8Laws, Escapes;
    var text := Payload(v, compress);
    PayloadStaysValid(utf8.valid, v, compress);
    CopyLiteral(v, true, compress);
    LiteralLength(utf8, v, compress);
    assert text == Received(v, compress);
    hide Payload, Received;
    var quoted := Quoted(utf8, v, compress);
    var data, k := quoted + rest, |Header(|text|)|;
    assert quoted == Header(|text|) + text;
    assert data == Header(|text|) + (text + rest);
    HeaderReads(cfg, |text|, text + rest);
    assert (text + rest)[..|text|] == text;
    OneArgument(cfg, data, |text|, String(UpToNul(text), |text|));
  }

  // ----- Main results -----

  // Quoting and reading a value without NUL gives its received form, with and without compression.
  lemma QuotedIsReceived(cfg: Config, utf8: Utf8, v: seq<Byte>, compress: bool, rest: seq<Byte>)
    requires Utf8Laws(utf8.valid) && utf8.valid(v) && |v| < SIZE_LIMIT && 0 !in v
    requires Reads(cfg, utf8, |Quoted(utf8, v, compress)|)
    ensures ReadsBack(cfg, Quoted(utf8, v, compress), rest, Received(v, compress))
  {
    hide Quoted, HasLinebreak, Escapes, Utf8Laws, Received, ReadArgs;
    if HasLinebreak(v) {
      LiteralIsReceived(cfg, utf8, v, compress, rest);
      NoNulReceived(v, compress);
      UpToNulIsAll(Received(v, compress));
    } else {
      StringIsReceived(cfg, utf8, v, compress, rest);
    }
  }

  lemma {:induction false} SqueezedNul(v: seq<Byte>, last: bool, compress: bool)
    ensures 0 in Squeezed(v, last, compress) <==> 0 in v
    decreases |v|
  {
    if v != [] { SqueezedNul(v[1..], IsLwsp(v[0]) || IsLinebreak(v[0]), compress); }
  }

  lemma NoNulReceived(v: seq<Byte>, compress: bool)
    ensures 0 in Received(v, compress) <==> 0 in v
  {
    hide Squeezed;
    SqueezedNul(v, true, compress);
  }

  // Not with a NUL; not with white space to compress; and a TAB is lost as a space where the value
  // must be rewritten to escape a quote or a backslash.
  predicate Survives(v: seq<Byte>, compress: bool)
  {
    0 !in v && Dropped(v, compress) == 0 && (TAB !in v || Escapes(v) == 0 || HasLinebreak(v))
  }

  // A value is read back as it was exactly when it survives.
  lemma QuotedReadsBackExactlyWhenItSurvives(cfg: Config, utf8: Utf8, v: seq<Byte>, compress: bool, rest: seq<Byte>)
    requires Utf8Laws(utf8.valid) && utf8.valid(v) && |v| < SIZE_LIMIT
    requires Reads(cfg, utf8, |Quoted(utf8, v, compress)|)
    ensures ReadsBack(cfg, Quoted(utf8, v, compress), rest, v) <==> Survives(v, compress)
  {
    hide Quoted, HasLinebreak, Escapes, Utf8Laws, Received, ReadArgs, Dropped;
    ReceivedKeeps(v, compress);
    if 0 !in v {
      QuotedIsReceived(cfg, utf8, v, compress, rest);
    } else if HasLinebreak(v) {
      LiteralIsReceived(cfg, utf8, v, compress, rest);
      UpToNulIsAll(Received(v, compress));
      NoNulReceived(v, compress);
      UpToNulHasNone(Received(v, compress));
    } else {
      StringIsReceived(cfg, utf8, v, compress, rest);
    }
  }

  // ----- Values that are not read back -----

  // A TAB and a quote: the value must be rewritten, and the TAB comes back as a space.
  lemma TabIsLost(cfg: Config, utf8: Utf8, rest: seq<Byte>)
    requires Utf8Laws(utf8.valid) && Reads(cfg, utf8, |Quoted(utf8, [TAB, QUOTE], false)|)
    ensures var quoted := Quoted(utf8, [TAB, QUOTE], false);
            !ReadsBack(cfg, quoted, rest, [TAB, QUOTE]) && ReadsBack(cfg, quoted, rest, [SPACE, QUOTE])
  {
    var v: seq<Byte> := [TAB, QUOTE];
    TwoAscii(utf8.valid, TAB, QUOTE);
    assert v[1..] == [QUOTE] && [QUOTE][1..] == [];
    assert Escapes([QUOTE]) == 1 && Escapes(v) == 1;
    assert Squeezed([QUOTE], true, false) == [QUOTE] && Squeezed(v, true, false) == [SPACE] + [QUOTE];
    assert !HasLinebreak(v) && Received(v, false) == [SPACE, QUOTE];
    hide *;
    QuotedReadsBackExactlyWhenItSurvives(cfg, utf8, v, false, rest);
    assert !Survives(v, false) by { DoesNotSurvive(); }
    QuotedIsReceived(cfg, utf8, v, false, rest);
  }

  lemma DoesNotSurvive()
    ensures !Survives([TAB, QUOTE], false) && !Survives([0], false)
  {
    assert [TAB, QUOTE][1..] == [QUOTE] && Escapes([QUOTE]) == 1;
  }

  lemma TwoAscii(valid: seq<Byte> -> bool, a: Byte, b: Byte)
    requires Utf8Laws(valid) && a < 128 && b < 128
    ensures valid([a, b]) && valid([a])
  {
    hide Utf8Laws;
    Alone(valid, [], a, []);
    Alone(valid, [], b, []);
    Together(valid, [], []) by { FitsNothing(valid); }
    assert [] + [a] + [] == [a] && [] + [b] + [] == [b] && [a] + [b] == [a, b];
    Together(valid, [a], [b]);
  }

  lemma FitsNothing(valid: seq<Byte> -> bool)
    requires Utf8Laws(valid)
    ensures valid([])
  {
  }

  // A NUL is sent as it is, and refused.
  lemma NulIsRefused(cfg: Config, utf8: Utf8, rest: seq<Byte>)
    requires Utf8Laws(utf8.valid) && Reads(cfg, utf8, |Quoted(utf8, [0], false)|)
    ensures Quoted(utf8, [0], false) == [QUOTE, 0, QUOTE]
    ensures ReadArgs(cfg, Quoted(utf8, [0], false) + rest, RESET).0.Failed?
  {
    TwoAscii(utf8.valid, 0, 0);
    var v: seq<Byte> := [0];
    assert v[1..] == [] && Escapes(v) == 0 && !HasLinebreak(v);
    assert [QUOTE] + v + [QUOTE] == [QUOTE, 0, QUOTE];
    hide ReadArgs, Utf8Laws;
    StringIsReceived(cfg, utf8, v, false, rest);
  }

  // A literal whose value is valid announces the length of what is sent.
  lemma ValidLiteralLength(utf8: Utf8, v: seq<Byte>, compress: bool)
    requires Utf8Laws(utf8.valid) && utf8.valid(v) && HasLinebreak(v)
    ensures Quoted(utf8, v, compress) == Header(|Payload(v, compress)|) + Payload(v, compress)
  {
    hide Payload, HasLinebreak, Header, Utf8Laws;
    PayloadStaysValid(utf8.valid, v, compress);
    LiteralLength(utf8, v, compress);
  }

  // A byte that is not UTF-8 is sent as the replacement character: two bytes are announced, and four
  // are sent.
  lemma LiteralAnnouncesTooLittle(utf8: Utf8)
    requires !utf8.valid([LF, 0xff]) && utf8.sanitized([LF, 0xff]) == [LF, 0xef, 0xbf, 0xbd]
    ensures Quoted(utf8, [LF, 0xff], false) == Header(2) + [LF, 0xef, 0xbf, 0xbd]
  {
    var v: seq<Byte> := [LF, 0xff];
    assert IsLinebreak(v[0]);
    assert HasLinebreak(v) && Payload(v, false) == v;
  }

  lemma {:induction false} UpToNulHasNone(s: seq<Byte>)
    ensures 0 !in UpToNul(s)
    decreases |s|
  {
    if s != [] { UpToNulHasNone(s[1..]); }
  }

  // And so it is however the line arrives.
  lemma QuotedIsReceivedInPieces(cfg: Config, utf8: Utf8, v: seq<Byte>, compress: bool, rest: seq<Byte>,
                                 pieces: seq<seq<Byte>>)
    requires Utf8Laws(utf8.valid) && utf8.valid(v) && |v| < SIZE_LIMIT && 0 !in v
    requires Reads(cfg, utf8, |Quoted(utf8, v, compress)|)
    requires pieces != [] && Joined(pieces) == Quoted(utf8, v, compress) + rest
    ensures var r, text := Deliver(cfg, [], pieces, RESET), Received(v, compress);
            r.0.Accepted? && r.1.args == [String(text, |text|), Eol] && r.1.consumed == |Quoted(utf8, v, compress)|
  {
    hide Quoted, Received, Utf8Laws, Joined, ReadArgs, NoDoubleCr, Deliver;
    QuotedIsReceived(cfg, utf8, v, compress, rest);
    assert [] + Joined(pieces) == Joined(pieces);
    PiecesChangeNothing(cfg, [], pieces, RESET);
  }
}
