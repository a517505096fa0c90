// Every quoted and every multi-line string the lexer accepts, and what it reads of it: a string is accepted
// exactly when it is spelled in one of these ways.
module LexerSpelling {
  import opened Bytes
  import opened Lexer
  import opened LexerRoundTrip

  // ----- Quoted strings -----

  // A character or a line break, each perhaps behind a backslash; the break is CRLF or LF.
  datatype Piece = Char(slash: bool, c: Byte) | Break(slash: bool, cr: bool)

  predicate PieceFits(p: Piece)
  {
    p.Char? ==> p.c !in [NUL, CR, LF] && (!p.slash ==> p.c !in [QUOTE, BACKSLASH])
  }

  function BreakText(cr: bool): seq<Byte> { if cr then CRLF else [LF] }

  function Spelled(p: Piece): (s: seq<Byte>)
    ensures s != []
  {
    (if p.slash then [BACKSLASH] else []) + if p.Char? then [p.c] else BreakText(p.cr)
  }

  function SpelledAll(ps: seq<Piece>): seq<Byte>
  {
    if ps == [] then [] else Spelled(ps[0]) + SpelledAll(ps[1..])
  }

  function Stands(p: Piece): (s: seq<Byte>)
    ensures s != []
  {
    if p.Char? then [p.c] else CRLF
  }

  function StandsAll(ps: seq<Piece>): seq<Byte>
  {
    if ps == [] then [] else Stands(ps[0]) + StandsAll(ps[1..])
  }

  lemma PieceReads(input: seq<Byte>, at: nat, p: Piece, str: seq<Byte>)
    requires Has(input, at, Spelled(p)) && PieceFits(p)
    ensures QuotedAt(input, at, str) == QuotedAt(input, at + |Spelled(p)|, Add(str, Stands(p)))
  {
    hide Has;
    var s := Spelled(p);
    HasByte(input, at, s, 0);
    if |s| > 1 { HasByte(input, at, s, 1); }
    if |s| > 2 { HasByte(input, at, s, 2); }
  }

  lemma {:induction false} PiecesRead(input: seq<Byte>, at: nat, ps: seq<Piece>, str: seq<Byte>)
    requires Has(input, at, SpelledAll(ps) + [QUOTE]) && forall i | 0 <= i < |ps| :: PieceFits(ps[i])
    ensures QuotedAt(input, at, str) == Outcome(str, Some(StandsAll(ps)), at + |SpelledAll(ps)| + 1)
    decreases |ps|
  {
    hide Has, QuotedAt, Outcome, Spelled, Stands, PieceFits;
    if ps == [] {
      assert SpelledAll(ps) + [QUOTE] == Escape([]) + [QUOTE];
      NothingReads(input, at, str);
      assert Normal([]) == Some([]);
    } else {
      var head, tail := Spelled(ps[0]), SpelledAll(ps[1..]);
      Assoc(head, tail, [QUOTE]);
      HasParts(input, at, head, tail + [QUOTE]);
      PieceReads(input, at, ps[0], str);
      PiecesRead(input, at + |head|, ps[1..], Add(str, Stands(ps[0])));
      OutcomeAdd(str, Stands(ps[0]), Some(StandsAll(ps[1..])), at + |SpelledAll(ps)| + 1);
    }
  }

  lemma PieceThere(input: seq<Byte>, at: nat, str: seq<Byte>)
    requires QuotedAt(input, at, str).Lexed? && Peek(input, at) != QUOTE
    ensures var b := if Peek(input, at) == BACKSLASH then at + 1 else at;
            b < |input| && input[b] != NUL && (input[b] == CR ==> b + 1 < |input| && input[b + 1] == LF)
  {
  }

  // The piece in front of the rest of a string that is accepted.
  lemma FirstPiece(input: seq<Byte>, at: nat, str: seq<Byte>) returns (p: Piece)
    requires QuotedAt(input, at, str).Lexed? && Peek(input, at) != QUOTE
    ensures PieceFits(p) && Has(input, at, Spelled(p))
  {
    hide QuotedAt;
    var slash := Peek(input, at) == BACKSLASH;
    var b := if slash then at + 1 else at;
    PieceThere(input, at, str);
    var c := input[b];
    if c == CR {
      p := Break(slash, true);
      assert input[at..b + 2] == Spelled(p);
    } else {
      p := if c == LF then Break(slash, false) else Char(slash, c);
      assert input[at..b + 1] == Spelled(p);
    }
  }

  lemma {:induction false} PiecesThere(input: seq<Byte>, at: nat, str: seq<Byte>) returns (ps: seq<Piece>)
    requires QuotedAt(input, at, str).Lexed?
    ensures Has(input, at, SpelledAll(ps) + [QUOTE]) && forall i | 0 <= i < |ps| :: PieceFits(ps[i])
    decreases |input| - at
  {
    hide QuotedAt, Spelled, Stands, PieceFits;
    if Peek(input, at) == QUOTE {
      ps := [];
      assert input[at..at + 1] == SpelledAll(ps) + [QUOTE];
    } else {
      var p := FirstPiece(input, at, str);
      PieceReads(input, at, p, str);
      var more := PiecesThere(input, at + |Spelled(p)|, Add(str, Stands(p)));
      ps := [p] + more;
      assert ps[1..] == more;
      Assoc(Spelled(p), SpelledAll(more), [QUOTE]);
      HasBoth(input, at, Spelled(p), SpelledAll(more) + [QUOTE]);
    }
  }

  lemma HasBoth(code: seq<Byte>, at: nat, a: seq<Byte>, b: seq<Byte>)
    requires Has(code, at, a) && Has(code, at + |a|, b)
    ensures Has(code, at, a + b)
  {
    assert code[at..at + |a + b|] == code[at..at + |a|] + code[at + |a|..at + |a| + |b|];
  }

  ghost predicate QuotedSpells(input: seq<Byte>, at: nat, ps: seq<Piece>, s: seq<Byte>, next: nat)
  {
    && (forall i | 0 <= i < |ps| :: PieceFits(ps[i])) && Has(input, at, SpelledAll(ps) + [QUOTE])
    && s == StandsAll(ps) && |s| <= MAX_STRING_LEN && next == at + |SpelledAll(ps)| + 1
  }

  // A quoted string is accepted exactly when it is spelled, and reads as what that stands for.
  lemma QuotedReadsExactlyWhatIsSpelled(input: seq<Byte>, at: nat, s: seq<Byte>, next: nat)
    ensures QuotedAt(input, at, []) == Lexed(s, next) <==> exists ps :: QuotedSpells(input, at, ps, s, next)
  {
    hide QuotedAt, Has, SpelledAll, PieceFits;
    if QuotedAt(input, at, []) == Lexed(s, next) {
      var ps := PiecesThere(input, at, []);
      PiecesRead(input, at, ps, []);
      assert [] + StandsAll(ps) == StandsAll(ps);
      assert QuotedSpells(input, at, ps, s, next);
    }
    forall ps | QuotedSpells(input, at, ps, s, next) ensures QuotedAt(input, at, []) == Lexed(s, next) {
      PiecesRead(input, at, ps, []);
      assert [] + StandsAll(ps) == StandsAll(ps);
    }
  }

  // ----- Multi-line strings -----

  // A line as it is written, and its line break.
  datatype Line = Line(text: seq<Byte>, cr: bool)

  predicate LineFits(line: Line) { IsLine(line.text) && line.text != [DOT] }

  function LineText(line: Line): seq<Byte> { line.text + BreakText(line.cr) }

  function Lines(lines: seq<Line>): seq<Byte>
  {
    if lines == [] then [] else LineText(lines[0]) + Lines(lines[1..])
  }

  // Of two dots at the start of a line one is dropped.
  function Unstuffed(text: seq<Byte>): seq<Byte> { if [DOT, DOT] <= text then text[1..] else text }

  function ReadLines(lines: seq<Line>): seq<Byte>
  {
    if lines == [] then [] else Unstuffed(lines[0].text) + CRLF + ReadLines(lines[1..])
  }

  lemma {:induction false} RestReads(input: seq<Byte>, at: nat, text: seq<Byte>, cr: bool, str: seq<Byte>)
    returns (result: seq<Byte>)
    requires Has(input, at, text + BreakText(cr)) && IsLine(text)
    ensures LineAt(input, at, str) == TextAt(input, at + |text| + |BreakText(cr)|, result)
    ensures Grown(str, text + CRLF, result)
    decreases |text|
  {
    hide Has, TextAt;
    if text == [] {
      var b := BreakText(cr);
      assert text + b == b;
      HasByte(input, at, b, 0);
      if cr { HasByte(input, at, b, 1); }
      result := Add(str, CRLF);
      assert text + CRLF == CRLF;
    } else {
      var c, rest := text[0], text[1..];
      assert text + BreakText(cr) == [c] + (rest + BreakText(cr));
      HasParts(input, at, [c], rest + BreakText(cr));
      HasByte(input, at, [c], 0);
      assert c in text;
      result := RestReads(input, at + 1, rest, cr, Add(str, [c]));
      assert text + CRLF == [c] + (rest + CRLF);
      Assoc(str, [c], rest + CRLF);
    }
  }

  lemma OneLineReads(input: seq<Byte>, at: nat, line: Line, str: seq<Byte>) returns (result: seq<Byte>)
    requires Has(input, at, LineText(line)) && LineFits(line)
    ensures TextAt(input, at, str) == TextAt(input, at + |LineText(line)|, result)
    ensures Grown(str, Unstuffed(line.text) + CRLF, result)
  {
    hide Has, LineAt;
    HasByte(input, at, LineText(line), 0);
    if line.text != [] && line.text[0] == DOT {
      result := DottedReads(input, at, line, str);
    } else {
      result := RestReads(input, at, line.text, line.cr, str);
    }
  }

  lemma DottedReads(input: seq<Byte>, at: nat, line: Line, str: seq<Byte>) returns (result: seq<Byte>)
    requires Has(input, at, LineText(line)) && LineFits(line) && line.text != [] && line.text[0] == DOT
    ensures TextAt(input, at, str) == TextAt(input, at + |LineText(line)|, result)
    ensures Grown(str, Unstuffed(line.text) + CRLF, result)
  {
    hide Has, LineAt, LineFits, Grown;
    var text := line.text;
    DottedLine(line);
    HasByte(input, at, LineText(line), 0);
    HasByte(input, at, LineText(line), 1);
    var n := if text[1] == DOT then 2 else 1;
    HasParts(input, at, text[..n], text[n..] + BreakText(line.cr));
    hide TextAt;
    result := RestReads(input, at + n, text[n..], line.cr, Add(str, [DOT]));
    GrownOn(str, text[n..] + CRLF, result);
  }

  lemma DottedLine(line: Line)
    requires LineFits(line) && line.text != [] && line.text[0] == DOT
    ensures |line.text| > 1 && line.text[1] != CR && line.text[1] != LF
    ensures var text := line.text; var n := if text[1] == DOT then 2 else 1;
            && LineText(line) == text[..n] + (text[n..] + BreakText(line.cr)) && IsLine(text[n..])
            && Unstuffed(text) + CRLF == [DOT] + (text[n..] + CRLF)
  {
    var text := line.text;
    assert text[1] in text;
    var n := if text[1] == DOT then 2 else 1;
    assert text == text[..n] + text[n..];
  }

  lemma GrownOn(str: seq<Byte>, rest: seq<Byte>, result: seq<Byte>)
    requires Grown(Add(str, [DOT]), rest, result)
    ensures Grown(str, [DOT] + rest, result)
  {
    Assoc(str, [DOT], rest);
  }

  function Ending(cr: bool): seq<Byte> { [DOT] + BreakText(cr) }

  lemma EndReads(input: seq<Byte>, at: nat, cr: bool, str: seq<Byte>)
    requires Has(input, at, Ending(cr))
    ensures TextAt(input, at, str) == Finished(str, at + |Ending(cr)|)
  {
    hide Has, LineAt;
    HasByte(input, at, Ending(cr), 0);
    HasByte(input, at, Ending(cr), 1);
    if cr { HasByte(input, at, Ending(cr), 2); }
  }

  lemma {:induction false} LinesRead(input: seq<Byte>, at: nat, lines: seq<Line>, cr: bool, str: seq<Byte>)
    requires Has(input, at, Lines(lines) + Ending(cr)) && forall i | 0 <= i < |lines| :: LineFits(lines[i])
    ensures TextAt(input, at, str) == Outcome(str, Some(ReadLines(lines)), at + |Lines(lines)| + |Ending(cr)|)
    decreases |lines|
  {
    hide Has, TextAt, LineText, LineFits, Unstuffed, Ending;
    if lines == [] {
      assert Lines(lines) + Ending(cr) == Ending(cr);
      EndReads(input, at, cr, str);
      assert str + [] == str;
    } else {
      var first := LineText(lines[0]);
      Assoc(first, Lines(lines[1..]), Ending(cr));
      HasParts(input, at, first, Lines(lines[1..]) + Ending(cr));
      var result := OneLineReads(input, at, lines[0], str);
      LinesRead(input, at + |first|, lines[1..], cr, result);
      Assoc(str, Unstuffed(lines[0].text) + CRLF, ReadLines(lines[1..]));
    }
  }

  // The rest of a line, and its break, of a text that is accepted.
  lemma {:induction false} RestThere(input: seq<Byte>, at: nat, str: seq<Byte>) returns (text: seq<Byte>, cr: bool)
    requires LineAt(input, at, str).Lexed?
    ensures IsLine(text) && Has(input, at, text + BreakText(cr))
    decreases |input| - at
  {
    hide TextAt;
    var c := Peek(input, at);
    if c == CR || c == LF {
      text, cr := [], c == CR;
      assert input[at..at + |BreakText(cr)|] == text + BreakText(cr);
    } else {
      var rest;
      rest, cr := RestThere(input, at + 1, Add(str, [c]));
      text := [c] + rest;
      assert input[at..at + 1] == [c];
      HasBoth(input, at, [c], rest + BreakText(cr));
      Assoc([c], rest, BreakText(cr));
    }
  }

  // The line in front of the rest of a text that is accepted; nothing in front of the closing dot.
  lemma FirstLine(input: seq<Byte>, at: nat, str: seq<Byte>) returns (ends: bool, line: Line)
    requires TextAt(input, at, str).Lexed?
    ensures if ends then Has(input, at, Ending(line.cr)) else LineFits(line) && Has(input, at, LineText(line))
  {
    hide LineAt;
    ends := false;
    if Peek(input, at) != DOT {
      var text, cr := RestThere(input, at, str);
      line := Line(text, cr);
      HasByte(input, at, text + BreakText(cr), 0);
    } else if Peek(input, at + 1) == CR || Peek(input, at + 1) == LF {
      ends, line := true, Line([], Peek(input, at + 1) == CR);
      assert input[at..at + |Ending(line.cr)|] == Ending(line.cr);
    } else {
      var n := if Peek(input, at + 1) == DOT then 2 else 1;
      var text, cr := RestThere(input, at + n, Add(str, [DOT]));
      line := Line(input[at..at + n] + text, cr);
      DotsAhead(input, at, n, text, cr);
    }
  }

  lemma DotsAhead(input: seq<Byte>, at: nat, n: nat, text: seq<Byte>, cr: bool)
    requires IsLine(text) && Has(input, at + n, text + BreakText(cr)) && 1 <= n <= 2 && input[at] == DOT
    requires if n == 2 then input[at + 1] == DOT else input[at + 1] != CR && input[at + 1] != LF
    ensures var line := Line(input[at..at + n] + text, cr); LineFits(line) && Has(input, at, LineText(line))
  {
    var dots := input[at..at + n];
    HasBoth(input, at, dots, text + BreakText(cr));
    Assoc(dots, text, BreakText(cr));
    HasByte(input, at + n, text + BreakText(cr), 0);
    assert forall i | 0 <= i < n :: dots[i] == DOT;
  }

  lemma {:induction false} LinesThere(input: seq<Byte>, at: nat, str: seq<Byte>) returns (lines: seq<Line>, cr: bool)
    requires TextAt(input, at, str).Lexed?
    ensures Has(input, at, Lines(lines) + Ending(cr)) && forall i | 0 <= i < |lines| :: LineFits(lines[i])
    decreases |input| - at
  {
    hide TextAt, LineFits, Ending, Unstuffed;
    var ends, line := FirstLine(input, at, str);
    if ends {
      lines, cr := [], line.cr;
      assert Lines(lines) + Ending(cr) == Ending(cr);
    } else {
      var result := OneLineReads(input, at, line, str);
      var more;
      more, cr := LinesThere(input, at + |LineText(line)|, result);
      lines := [line] + more;
      assert lines[1..] == more;
      Assoc(LineText(line), Lines(more), Ending(cr));
      HasBoth(input, at, LineText(line), Lines(more) + Ending(cr));
    }
  }

  ghost predicate TextSpells(input: seq<Byte>, at: nat, lines: seq<Line>, cr: bool, s: seq<Byte>, next: nat)
  {
    && (forall i | 0 <= i < |lines| :: LineFits(lines[i])) && Has(input, at, Lines(lines) + Ending(cr))
    && s == ReadLines(lines) && |s| <= MAX_STRING_LEN && next == at + |Lines(lines)| + |Ending(cr)|
  }

  // A multi-line string is accepted exactly when it is lines and a closing dot, and reads as its lines.
  lemma TextReadsExactlyWhatIsSpelled(input: seq<Byte>, at: nat, s: seq<Byte>, next: nat)
    ensures TextAt(input, at, []) == Lexed(s, next) <==> exists lines, cr :: TextSpells(input, at, lines, cr, s, next)
  {
    hide TextAt, Has, Lines, LineFits, Ending;
    if TextAt(input, at, []) == Lexed(s, next) {
      var lines, cr := LinesThere(input, at, []);
      LinesRead(input, at, lines, cr, []);
      assert [] + ReadLines(lines) == ReadLines(lines);
      assert TextSpells(input, at, lines, cr, s, next);
    }
    forall lines, cr | TextSpells(input, at, lines, cr, s, next) ensures TextAt(input, at, []) == Lexed(s, next) {
      LinesRead(input, at, lines, cr, []);
      assert [] + ReadLines(lines) == ReadLines(lines);
    }
  }
}
