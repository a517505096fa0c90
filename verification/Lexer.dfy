// The scanner under the Sieve lexer, which sees its input in buffers, and the strings and numbers
// it reads (src/lib-sieve/sieve-lexer.c).
module Lexer {
  import opened Bytes

  const NUL: Byte := 0
  const DOT: Byte := 46

  const MAX_STRING_LEN := 0x10_0000
  const MAX_NUMBER := 0xffff_ffff_ffff_ffff

  const CRLF: seq<Byte> := [CR, LF]

  function Newlines(s: seq<Byte>): nat
  {
    if s == [] then 0 else Newlines(s[..|s| - 1]) + if s[|s| - 1] == LF then 1 else 0
  }

  // -1 at the end of the input.
  function Peek(input: seq<Byte>, at: nat): (c: int)
    ensures c == -1 <==> at >= |input|
    ensures -1 <= c < 256
  {
    if at < |input| then input[at] else -1
  }

  // ----- What is read from an input -----

  datatype Lexed<+T> = Lexed(value: T, next: nat) | LexError

  // Text is only added to a string that is not yet too long.
  function Add(str: seq<Byte>, more: seq<Byte>): seq<Byte>
  {
    if |str| <= MAX_STRING_LEN then str + more else str
  }

  function Finished(str: seq<Byte>, next: nat): Lexed<seq<Byte>>
  {
    if |str| > MAX_STRING_LEN then LexError else Lexed(str, next)
  }

  // A quoted string from behind its opening quote, or within, with `str` read so far.
  function QuotedAt(input: seq<Byte>, at: nat, str: seq<Byte>): (r: Lexed<seq<Byte>>)
    ensures r.Lexed? ==> at < r.next <= |input|
    decreases |input| - at
  {
    if Peek(input, at) == QUOTE then Finished(str, at + 1)
    else
      var p := if Peek(input, at) == BACKSLASH then at + 1 else at;
      var c := Peek(input, p);
      if c == -1 || c == NUL then LexError
      else if c == CR then
        if Peek(input, p + 1) != LF then LexError else QuotedAt(input, p + 2, Add(str, CRLF))
      else QuotedAt(input, p + 1, Add(str, if c == LF then CRLF else [c]))
  }

  // The rest of a line of a multi-line string, and the lines behind it.
  function LineAt(input: seq<Byte>, at: nat, str: seq<Byte>): (r: Lexed<seq<Byte>>)
    ensures r.Lexed? ==> at < r.next <= |input|
    decreases |input| - at, 0
  {
    var c := Peek(input, at);
    if c == -1 || c == NUL then LexError
    else if c == CR || c == LF then
      var p := if c == CR then at + 1 else at;
      if Peek(input, p) != LF then LexError else TextAt(input, p + 1, Add(str, CRLF))
    else LineAt(input, at + 1, Add(str, [c]))
  }

  // A multi-line string from the start of a line on.
  function TextAt(input: seq<Byte>, at: nat, str: seq<Byte>): (r: Lexed<seq<Byte>>)
    ensures r.Lexed? ==> at < r.next <= |input|
    decreases |input| - at, 1
  {
    if Peek(input, at) != DOT then LineAt(input, at, str)
    else if Peek(input, at + 1) == CR then
      if Peek(input, at + 2) == LF then Finished(str, at + 3) else LexError
    else if Peek(input, at + 1) == LF then Finished(str, at + 2)
    else LineAt(input, if Peek(input, at + 1) == DOT then at + 2 else at + 1, Add(str, [DOT]))
  }

  predicate IsDigit(c: int) { 48 <= c <= 57 }

  function DigitsEnd(input: seq<Byte>, at: nat): (r: nat)
    requires at <= |input|
    ensures at <= r <= |input| && !IsDigit(Peek(input, r))
    decreases |input| - at
  {
    if IsDigit(Peek(input, at)) then DigitsEnd(input, at + 1) else at
  }

  function DecimalValue(digits: seq<Byte>): int
  {
    if digits == [] then 0 else DecimalValue(digits[..|digits| - 1]) * 10 + (digits[|digits| - 1] as int) - 48
  }

  // What a quantifier multiplies by.
  function Unit(c: int): (u: int)
    ensures u >= 1
  {
    if c == 75 || c == 107 then 0x400
    else if c == 77 || c == 109 then 0x10_0000
    else if c == 71 || c == 103 then 0x4000_0000
    else 1
  }

  // ----- The scanner -----

  class Scanner {
    // What later reads will give, in this order.
    var chunks: seq<seq<Byte>>
    var buffer: seq<Byte>
    var pos: nat
    var line: nat
    ghost const input: seq<Byte>
    ghost var at: nat

    // The scanner is at offset `at` of the input, whatever its buffers; and the current line is one
    // more than the newlines behind it.
    ghost predicate Valid()
      reads this
    {
      && (forall i | 0 <= i < |chunks| :: chunks[i] != [])
      && (if buffer == [] then pos == 0 && chunks == [] else pos < |buffer|)
      && at <= |input| && input[at..] == buffer[pos..] + Joined(chunks)
      && line == 1 + Newlines(input[..at])
    }

    constructor (chunks: seq<seq<Byte>>)
      requires forall i | 0 <= i < |chunks| :: chunks[i] != []
      ensures Valid() && at == 0 && input == Joined(chunks)
    {
      input, at := Joined(chunks), 0;
      pos, line := 0, 1;
      if chunks == [] {
        buffer := [];
        this.chunks := [];
      } else {
        buffer := chunks[0];
        this.chunks := chunks[1..];
      }
    }

    function CurChar(): (c: int)
      requires Valid()
      reads this
      ensures c == Peek(input, at)
    {
      assert buffer != [] ==> input[at..][0] == buffer[pos];
      assert buffer == [] ==> |input[at..]| == 0;
      if buffer == [] then -1 else buffer[pos]
    }

    // sieve_lexer_shift
    method Shift()
      requires Valid()
      modifies this
      ensures Valid() && at == (if old(at) < |input| then old(at) + 1 else old(at)) && at <= |input|
    {
      if buffer != [] {
        DropOne(input, at, buffer, pos, Joined(chunks));
        NewlinesNext(input, at);
        if buffer[pos] == LF { line := line + 1; }
        at := at + 1;
      }
      hide Newlines;
      if pos + 1 < |buffer| {
        pos := pos + 1;
      } else {
        assert buffer != [] ==> buffer[pos + 1..] == [];
        if chunks == [] {
          buffer := [];
        } else {
          buffer := chunks[0];
          chunks := chunks[1..];
        }
        pos := 0;
      }
    }

    // sieve_lexer_scan_number: the number exactly when it fits; no quantifier can make it wrap.
    method ScanNumber() returns (ok: bool, value: int)
      requires Valid() && at <= |input| && IsDigit(CurChar())
      modifies this
      ensures Valid()
      ensures var end := DigitsEnd(input, old(at)); var unit := Unit(Peek(input, end));
              var number := DecimalValue(input[old(at)..end]) * unit;
              ok == (number <= MAX_NUMBER) && (ok ==> value == number && at == if unit > 1 then end + 1 else end)
    {
      hide Valid;
      ghost var start := at;
      var str := [];
      while IsDigit(CurChar())
        invariant Valid() && start <= at <= |input| && str == input[start..at]
                  && DigitsEnd(input, start) == DigitsEnd(input, at)
        decreases |input| - at
      {
        assert input[start..at + 1] == input[start..at] + [input[at]];
        str := str + [CurChar()];
        Shift();
      }
      value := DecimalValue(str);
      var c := CurChar();
      if value > MAX_NUMBER {
        BiggerStill(value, Unit(c));
        return false, 0;
      }
      ok := true;
      if Unit(c) > 1 {
        Divides(value, c);
        if value > MAX_NUMBER / Unit(c) { ok := false; } else { value := value * Unit(c); }
        Shift();
      }
    }

    // From the opening quote on.
    method ScanQuoted() returns (ok: bool, str: seq<Byte>)
      requires Valid() && CurChar() == QUOTE
      modifies this
      ensures Valid() && ok == QuotedAt(input, old(at) + 1, []).Lexed?
      ensures ok ==> QuotedAt(input, old(at) + 1, []) == Lexed(str, at)
    {
      hide Valid;
      Shift();
      str := [];
      ghost var goal := QuotedAt(input, at, str);
      while CurChar() != QUOTE
        invariant Valid() && goal == QuotedAt(input, at, str)
        decreases |input| - at
      {
        ok, str := ScanQuotedChar(str);
        if !ok { return; }
      }
      Shift();
      ok := |str| <= MAX_STRING_LEN;
    }

    // One character of a quoted string, with the backslash in front of it.
    method ScanQuotedChar(start: seq<Byte>) returns (ok: bool, str: seq<Byte>)
      requires Valid() && CurChar() != QUOTE
      modifies this
      ensures Valid() && (ok ==> old(at) < at <= |input|)
      ensures QuotedAt(input, old(at), start) == if ok then QuotedAt(input, at, str) else LexError
    {
      hide Valid;
      str := start;
      if CurChar() == BACKSLASH { Shift(); }
      var c := CurChar();
      if c == -1 || c == NUL { return false, []; }
      if c == CR {
        Shift();
        if CurChar() != LF { return false, []; }
        str := Add(str, CRLF);
      } else if c == LF {
        str := Add(str, CRLF);
      } else {
        str := Add(str, [c]);
      }
      Shift();
      ok := true;
    }

    // From the first line behind "text:" on.
    method ScanText() returns (ok: bool, str: seq<Byte>)
      requires Valid()
      modifies this
      ensures Valid() && ok == TextAt(input, old(at), []).Lexed?
      ensures ok ==> TextAt(input, old(at), []) == Lexed(str, at)
    {
      hide Valid, LineAt;
      str := [];
      ghost var goal := TextAt(input, at, str);
      while true
        invariant Valid() && goal == TextAt(input, at, str)
        decreases |input| - at
      {
        if CurChar() == DOT {
          var ended;
          ended, ok := ScanDot();
          if ended { return ok && |str| <= MAX_STRING_LEN, str; }
          str := Add(str, [DOT]);
        }
        ok, str := ScanLine(str);
        if !ok { return; }
      }
    }

    // A dot at the start of a line: the end of the text, or the dot of a longer line.
    method ScanDot() returns (ended: bool, ok: bool)
      requires Valid() && CurChar() == DOT
      modifies this
      ensures Valid() && old(at) < at <= |input|
      ensures var p := old(at) + 1;
              if Peek(input, p) == CR then ended && ok == (Peek(input, p + 1) == LF) && (ok ==> at == p + 2)
              else if Peek(input, p) == LF then ended && ok && at == p + 1
              else !ended && at == if Peek(input, p) == DOT then p + 1 else p
    {
      hide Valid;
      Shift();
      var cr := false;
      if CurChar() == CR {
        Shift();
        cr := true;
      }
      if CurChar() == LF {
        Shift();
        return true, true;
      }
      if cr { return true, false; }
      if CurChar() == DOT { Shift(); }
      ended, ok := false, true;
    }

    // The rest of a line, its line break included.
    method ScanLine(start: seq<Byte>) returns (ok: bool, str: seq<Byte>)
      requires Valid()
      modifies this
      ensures Valid() && (ok ==> old(at) < at <= |input|)
      ensures LineAt(input, old(at), start) == if ok then TextAt(input, at, str) else LexError
    {
      hide Valid, TextAt;
      str := start;
      ghost var goal := LineAt(input, at, str);
      while CurChar() != LF && CurChar() != CR
        invariant Valid() && old(at) <= at && goal == LineAt(input, at, str)
        decreases |input| - at
      {
        var c := CurChar();
        if c == -1 || c == NUL { return false, []; }
        str := Add(str, [c]);
        Shift();
      }
      if CurChar() == CR { Shift(); }
      if CurChar() != LF { return false, []; }
      str := Add(str, CRLF);
      Shift();
      ok := true;
    }
  }

  lemma DropOne(input: seq<Byte>, at: nat, buffer: seq<Byte>, pos: nat, tail: seq<Byte>)
    requires at <= |input| && pos < |buffer| && input[at..] == buffer[pos..] + tail
    ensures at < |input| && input[at] == buffer[pos] && input[at + 1..] == buffer[pos + 1..] + tail
  {
    assert input[at..][0] == buffer[pos..][0];
    assert input[at + 1..] == input[at..][1..];
  }

  lemma BiggerStill(value: int, unit: int)
    requires value > MAX_NUMBER && unit >= 1
    ensures value * unit > MAX_NUMBER
  {
    assert value * unit >= value * 1;
  }

  lemma Divides(value: int, c: int)
    ensures value > MAX_NUMBER / Unit(c) <==> value * Unit(c) > MAX_NUMBER
  {
  }

  lemma NewlinesNext(s: seq<Byte>, at: nat)
    requires at < |s|
    ensures Newlines(s[..at + 1]) == Newlines(s[..at]) + if s[at] == LF then 1 else 0
  {
    assert s[..at + 1][..at] == s[..at];
  }
}
