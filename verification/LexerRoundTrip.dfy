// Strings written in a script and read back by the lexer, however the script is cut into buffers.
module LexerRoundTrip {
  import opened Bytes
  import opened Lexer

  // ----- Quoted strings -----

  function Escape(s: seq<Byte>): seq<Byte>
  {
    if s == [] then []
    else EscapedByte(s[0]) + Escape(s[1..])
  }

  function Onto(front: seq<Byte>, rest: Option<seq<Byte>>): Option<seq<Byte>>
  {
    if rest.None? then None else Some(front + rest.value)
  }

  // What a quoted string means: a lone LF is a line break too; a NUL and a stray CR are errors.
  function Normal(s: seq<Byte>): Option<seq<Byte>>
    decreases |s|
  {
    if s == [] then Some([])
    else if s[0] == NUL then None
    else if s[0] == CR then
      if |s| > 1 && s[1] == LF then Onto(CRLF, Normal(s[2..])) else None
    else Onto(Meant(s[0]), Normal(s[1..]))
  }

  // What reading comes to when `str` was read before.
  function Outcome(str: seq<Byte>, more: Option<seq<Byte>>, next: nat): Lexed<seq<Byte>>
  {
    if more.None? || |str| + |more.value| > MAX_STRING_LEN then LexError else Lexed(str + more.value, next)
  }

  lemma OutcomeAdd(str: seq<Byte>, x: seq<Byte>, more: Option<seq<Byte>>, next: nat)
    requires x != []
    ensures Outcome(Add(str, x), more, next) == Outcome(str, Onto(x, more), next)
  {
    if more.Some? { Assoc(str, x, more.value); }
  }

  function EscapedByte(c: Byte): seq<Byte> { if c == QUOTE || c == BACKSLASH then [BACKSLASH, c] else [c] }

  // What one byte that is no CR adds to a string.
  function Meant(c: Byte): (x: seq<Byte>)
    ensures x != []
  {
    if c == LF then CRLF else [c]
  }

  lemma ByteReads(input: seq<Byte>, at: nat, c: Byte, str: seq<Byte>)
    requires Has(input, at, EscapedByte(c)) && c != CR && c != NUL
    ensures QuotedAt(input, at, str) == QuotedAt(input, at + |EscapedByte(c)|, Add(str, Meant(c)))
  {
    hide Has;
    HasByte(input, at, EscapedByte(c), 0);
    if |EscapedByte(c)| == 2 { HasByte(input, at, EscapedByte(c), 1); }
  }

  lemma {:induction false} QuotedReads(input: seq<Byte>, at: nat, s: seq<Byte>, str: seq<Byte>)
    requires Has(input, at, Escape(s) + [QUOTE])
    ensures QuotedAt(input, at, str) == Outcome(str, Normal(s), at + |Escape(s)| + 1)
    decreases |s|
  {
    hide Has, Normal, QuotedAt, Outcome;
    if s == [] {
      NothingReads(input, at, str);
    } else if s[0] == CR {
      CrReads(input, at, s, str);
    } else {
      var head, tail := EscapedByte(s[0]), Escape(s[1..]);
      Assoc(head, tail, [QUOTE]);
      HasParts(input, at, head, tail + [QUOTE]);
      NormalByte(s);
      if s[0] == NUL {
        NulReads(input, at, str, at + |Escape(s)| + 1);
      } else {
        ByteReads(input, at, s[0], str);
        QuotedReads(input, at + |head|, s[1..], Add(str, Meant(s[0])));
        OutcomeAdd(str, Meant(s[0]), Normal(s[1..]), at + |Escape(s)| + 1);
      }
    }
  }

  lemma NothingReads(input: seq<Byte>, at: nat, str: seq<Byte>)
    requires Has(input, at, Escape([]) + [QUOTE])
    ensures QuotedAt(input, at, str) == Outcome(str, Normal([]), at + |Escape([])| + 1)
  {
    HasByte(input, at, Escape([]) + [QUOTE], 0);
    assert str + [] == str;
  }

  lemma NulReads(input: seq<Byte>, at: nat, str: seq<Byte>, next: nat)
    requires Has(input, at, [NUL])
    ensures QuotedAt(input, at, str) == LexError == Outcome(str, None, next)
  {
    HasByte(input, at, [NUL], 0);
  }

  lemma {:induction false} CrReads(input: seq<Byte>, at: nat, s: seq<Byte>, str: seq<Byte>)
    requires Has(input, at, Escape(s) + [QUOTE]) && s != [] && s[0] == CR
    ensures QuotedAt(input, at, str) == Outcome(str, Normal(s), at + |Escape(s)| + 1)
    decreases |s|, 0
  {
    hide Has;
    var all := Escape(s) + [QUOTE];
    HasByte(input, at, all, 0);
    HasByte(input, at, all, 1);
    if |s| > 1 && s[1] == LF {
      assert s[1..][1..] == s[2..];
      var tail := Escape(s[2..]) + [QUOTE];
      assert all == [CR, LF] + tail;
      HasParts(input, at, [CR, LF], tail);
      QuotedReads(input, at + 2, s[2..], Add(str, CRLF));
      OutcomeAdd(str, CRLF, Normal(s[2..]), at + |Escape(s)| + 1);
    }
  }

  lemma NormalByte(s: seq<Byte>)
    requires s != [] && s[0] != CR
    ensures Normal(s) == if s[0] == NUL then None else Onto(Meant(s[0]), Normal(s[1..]))
  {
  }

  // A string whose line breaks are all CRLF, without NUL.
  ghost predicate Clean(s: seq<Byte>)
  {
    && NUL !in s
    && (forall i | 0 <= i < |s| && s[i] == CR :: i + 1 < |s| && s[i + 1] == LF)
    && (forall i | 0 <= i < |s| && s[i] == LF :: i > 0 && s[i - 1] == CR)
  }

  lemma CleanByte(s: seq<Byte>)
    requires s != [] && s[0] != CR && s[0] != LF && s[0] != NUL
    ensures Clean(s) <==> Clean(s[1..])
  {
    var t := s[1..];
    assert forall i | 0 <= i < |t| :: t[i] == s[i + 1];
    assert forall i | 1 <= i < |s| :: s[i] == t[i - 1];
  }

  lemma CleanLinebreak(s: seq<Byte>)
    requires |s| >= 2 && s[0] == CR && s[1] == LF
    ensures Clean(s) <==> Clean(s[2..])
  {
    var t := s[2..];
    assert forall i | 0 <= i < |t| :: t[i] == s[i + 2];
    assert forall i | 2 <= i < |s| :: s[i] == t[i - 2];
  }

  lemma {:induction false} NormalKeepsExactlyClean(s: seq<Byte>)
    ensures Normal(s) == Some(s) <==> Clean(s)
    decreases |s|
  {
    if s == [] || s[0] == NUL || s[0] == LF || (s[0] == CR && !(|s| > 1 && s[1] == LF)) {
      if s != [] { assert s[0] in s; }
    } else {
      hide Clean;
      if s[0] == CR {
        CleanLinebreak(s);
        NormalKeepsExactlyClean(s[2..]);
        KeptBehind(CRLF, s, Normal(s[2..]));
      } else {
        CleanByte(s);
        NormalKeepsExactlyClean(s[1..]);
        KeptBehind([s[0]], s, Normal(s[1..]));
      }
    }
  }

  lemma KeptBehind(front: seq<Byte>, s: seq<Byte>, rest: Option<seq<Byte>>)
    requires |front| <= |s| && s[..|front|] == front
    ensures Onto(front, rest) == Some(s) <==> rest == Some(s[|front|..])
  {
    assert front + s[|front|..] == s;
    if rest.Some? { assert (front + rest.value)[|front|..] == rest.value; }
  }

  // A string in quotes, with quotes and backslashes escaped, reads as its normal form; so it is
  // read back exactly when it is clean and not too long.
  lemma QuotedReadsBackExactlyWhenClean(input: seq<Byte>, at: nat, s: seq<Byte>)
    requires Has(input, at, Escape(s) + [QUOTE])
    ensures QuotedAt(input, at, []) == Outcome([], Normal(s), at + |Escape(s)| + 1)
    ensures QuotedAt(input, at, []) == Lexed(s, at + |Escape(s)| + 1) <==> Clean(s) && |s| <= MAX_STRING_LEN
  {
    hide Has, Normal, QuotedAt, Clean;
    QuotedReads(input, at, s, []);
    NormalKeepsExactlyClean(s);
    if Normal(s).Some? { assert [] + Normal(s).value == Normal(s).value; }
  }

  // ----- Multi-line strings -----

  predicate IsLine(line: seq<Byte>) { NUL !in line && CR !in line && LF !in line }

  // A line as it is written: a dot is put in front of a leading dot.
  function Stuffed(line: seq<Byte>): seq<Byte>
  {
    (if line != [] && line[0] == DOT then [DOT] else []) + line + CRLF
  }

  function StuffedLines(lines: seq<seq<Byte>>): seq<Byte>
  {
    if lines == [] then [DOT] + CRLF else Stuffed(lines[0]) + StuffedLines(lines[1..])
  }

  function TextOf(lines: seq<seq<Byte>>): seq<Byte>
  {
    if lines == [] then [] else lines[0] + CRLF + TextOf(lines[1..])
  }

  // The line is added, unless it is too long; then the string stays too long.
  ghost predicate Grown(str: seq<Byte>, text: seq<Byte>, result: seq<Byte>)
  {
    if |str| + |text| <= MAX_STRING_LEN then result == str + text else |result| > MAX_STRING_LEN
  }

  lemma {:induction false} LineReads(input: seq<Byte>, at: nat, line: seq<Byte>, str: seq<Byte>)
    returns (result: seq<Byte>)
    requires Has(input, at, line + CRLF) && IsLine(line)
    ensures LineAt(input, at, str) == TextAt(input, at + |line| + 2, result) && Grown(str, line + CRLF, result)
    decreases |line|
  {
    hide Has, TextAt;
    if line == [] {
      assert line + CRLF == CRLF;
      HasByte(input, at, CRLF, 0);
      HasByte(input, at, CRLF, 1);
      result := Add(str, CRLF);
    } else {
      var c, rest := line[0], line[1..];
      assert line + CRLF == [c] + (rest + CRLF);
      HasParts(input, at, [c], rest + CRLF);
      HasByte(input, at, [c], 0);
      assert c in line;
      result := LineReads(input, at + 1, rest, Add(str, [c]));
      Assoc(str, [c], rest + CRLF);
    }
  }

  lemma StuffedReads(input: seq<Byte>, at: nat, line: seq<Byte>, str: seq<Byte>) returns (result: seq<Byte>)
    requires Has(input, at, Stuffed(line)) && IsLine(line)
    ensures TextAt(input, at, str) == TextAt(input, at + |Stuffed(line)|, result) && Grown(str, line + CRLF, result)
  {
    hide Has, LineAt;
    HasByte(input, at, Stuffed(line), 0);
    if line != [] && line[0] == DOT {
      var rest := line[1..];
      assert Stuffed(line) == [DOT, DOT] + (rest + CRLF);
      HasParts(input, at, [DOT, DOT], rest + CRLF);
      HasByte(input, at, [DOT, DOT], 1);
      result := LineReads(input, at + 2, rest, Add(str, [DOT]));
      assert line + CRLF == [DOT] + (rest + CRLF);
      Assoc(str, [DOT], rest + CRLF);
    } else {
      assert Stuffed(line) == line + CRLF;
      result := LineReads(input, at, line, str);
    }
  }

  lemma {:induction false} TextReads(input: seq<Byte>, at: nat, lines: seq<seq<Byte>>, str: seq<Byte>)
    requires Has(input, at, StuffedLines(lines)) && forall i | 0 <= i < |lines| :: IsLine(lines[i])
    ensures TextAt(input, at, str) == Outcome(str, Some(TextOf(lines)), at + |StuffedLines(lines)|)
    decreases |lines|
  {
    hide Has, LineAt;
    if lines == [] {
      var end := [DOT, CR, LF];
      assert StuffedLines(lines) == end;
      HasByte(input, at, end, 0);
      HasByte(input, at, end, 1);
      HasByte(input, at, end, 2);
      assert TextAt(input, at, str) == Finished(str, at + 3);
      assert str + [] == str;
    } else {
      var first := Stuffed(lines[0]);
      HasParts(input, at, first, StuffedLines(lines[1..]));
      var result := StuffedReads(input, at, lines[0], str);
      TextReads(input, at + |first|, lines[1..], result);
      Assoc(str, lines[0] + CRLF, TextOf(lines[1..]));
    }
  }

  // Dot-stuffed lines are read back, exactly when they are not too long together.
  lemma TextReadsBack(input: seq<Byte>, at: nat, lines: seq<seq<Byte>>)
    requires Has(input, at, StuffedLines(lines)) && forall i | 0 <= i < |lines| :: IsLine(lines[i])
    ensures TextAt(input, at, [])
            == if |TextOf(lines)| <= MAX_STRING_LEN then Lexed(TextOf(lines), at + |StuffedLines(lines)|) else LexError
  {
    hide Has, TextAt;
    TextReads(input, at, lines, []);
    assert [] + TextOf(lines) == TextOf(lines);
  }

  // ----- However the input is cut -----

  // The line counter counts the LFs.
  lemma {:induction false} NewlinesAreLineFeeds(s: seq<Byte>)
    ensures Newlines(s) == multiset(s)[LF]
  {
    if s != [] {
      NewlinesAreLineFeeds(s[..|s| - 1]);
      assert s == s[..|s| - 1] + [s[|s| - 1]];
    }
  }

  method LexQuoted(chunks: seq<seq<Byte>>, ghost s: seq<Byte>, ghost rest: seq<Byte>)
    returns (ok: bool, str: seq<Byte>, line: nat)
    requires forall i | 0 <= i < |chunks| :: chunks[i] != []
    requires Joined(chunks) == [QUOTE] + (Escape(s) + [QUOTE]) + rest
    ensures ok && str == s <==> Clean(s) && |s| <= MAX_STRING_LEN
    ensures ok ==> line == 1 + Newlines(Joined(chunks)[..|Escape(s)| + 2])
  {
    hide QuotedAt, Normal, Clean, Newlines, Escape;
    var scanner := new Scanner(chunks);
    ghost var input := scanner.input;
    assert input[1..1 + |Escape(s) + [QUOTE]|] == Escape(s) + [QUOTE];
    QuotedReadsBackExactlyWhenClean(input, 1, s);
    assert input[0] == QUOTE;
    ok, str := scanner.ScanQuoted();
    line := scanner.line;
  }

  method LexText(chunks: seq<seq<Byte>>, ghost lines: seq<seq<Byte>>, ghost rest: seq<Byte>)
    returns (ok: bool, str: seq<Byte>, line: nat)
    requires forall i | 0 <= i < |chunks| :: chunks[i] != []
    requires Joined(chunks) == StuffedLines(lines) + rest && forall i | 0 <= i < |lines| :: IsLine(lines[i])
    ensures ok == (|TextOf(lines)| <= MAX_STRING_LEN) && (ok ==> str == TextOf(lines))
    ensures ok ==> line == 1 + Newlines(Joined(chunks)[..|StuffedLines(lines)|])
  {
    hide TextAt, Newlines, StuffedLines, TextOf;
    var scanner := new Scanner(chunks);
    ghost var input := scanner.input;
    assert input[0..|StuffedLines(lines)|] == StuffedLines(lines);
    TextReadsBack(input, 0, lines);
    ok, str := scanner.ScanText();
    line := scanner.line;
  }
}
