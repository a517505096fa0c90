// With 32 wildcards or more, some of what they stand for is not recorded.
module MatchesFull {
  import opened Bytes
  import opened Glob
  import opened Fixed
  import opened Matches
  import opened Keys
  import opened MatchesCorrect
  import opened Instances
  import opened MatchesRefused
  import opened MatchesExact
  import opened MatchesRecorded

  // ----- Values that find no room -----

  lemma {:induction false} AddCharsFull(values: seq<seq<Byte>>, chars: seq<Byte>)
    ensures |AddChars(values, chars)| >= |values|
    ensures |AddChars(values, chars)|
            >= if |values| + |chars| < MAX_MATCH_VALUES then |values| + |chars| else MAX_MATCH_VALUES
    ensures chars != [] && |values| + |chars| > MAX_MATCH_VALUES ==>
              Weight(AddChars(values, chars)) < Weight(values) + |chars|
    decreases |chars|
  {
    if chars != [] {
      WeightMore(values, [chars[0]]);
      AddCharsFull(Add(values, [chars[0]]), chars[1..]);
      AddCharsWeight(Add(values, [chars[0]]), chars[1..]);
    }
  }

  // What a star and the '?' behind it stand for, when there is not room for all of it.
  lemma RecordedFull(values: seq<seq<Byte>>, star: seq<Byte>, chars: seq<Byte>)
    ensures |Recorded(values, star, chars)|
            >= if |values| + 1 + |chars| < MAX_MATCH_VALUES then |values| + 1 + |chars| else MAX_MATCH_VALUES
    ensures (star != [] || chars != []) && |values| + 1 + |chars| > MAX_MATCH_VALUES ==>
              Weight(Recorded(values, star, chars)) < Weight(values) + |star| + |chars|
  {
    hide AddChars, Weight;
    AddCharsFull(Add(values, star), chars);
    AddCharsWeight(Add(values, star), chars);
    WeightMore(values, star);
  }

  // ----- A value with a byte for the last wildcard -----

  // Behind the star in front of `p`: every text stands where it may, and what the last wildcard of
  // the key stands for is not empty.
  function Overfull(key: seq<Byte>, p: nat): (v: seq<Byte>)
    requires p <= |key|
    ensures v != []
    decreases |key| - p
  {
    var n := Needle(key, p, 0, Star);
    match WildAt(key, n.1)
    case NoWild => Repeated(n.2 + 1, 0) + n.0
    case Star => Samples(Piece(n.2, n.0)) + Overfull(key, n.1 + 1)
    case Quest =>
      var run := RunAt(key, n.1 + 1);
      if run.end < |key| then Samples(Piece(n.2, n.0) + run.tokens) + Overfull(key, run.end + 1)
      else Samples(Piece(n.2, n.0) + run.tokens)
  }

  // More wildcards to come than there is room for.
  ghost predicate Crowded(values: seq<seq<Byte>>, rest: seq<Token>)
  {
    |values| + WildCount([AnyString] + rest) > MAX_MATCH_VALUES
  }

  lemma {:induction false} Overflows(cmp: Comparator, val: seq<Byte>, key: seq<Byte>, s: State)
    requires BehindStar(s, val, key) && Ends(val, s.vp, Overfull(key, s.kp)) && Crowded(s.values, Pattern(key, s.kp))
    ensures Loses(cmp, val, key, Landed(cmp, val, key, s), [AnyString] + Pattern(key, s.kp), s.vp, Weight(s.values))
    decreases |key| - s.kp, 1
  {
    hide Loop, Pattern, Outcome, Begin, Piece, Needle, RunAt, SkipStars, Overfull, Loses, Has, Weight, Crowded;
    if s.kp == |key| {
      OverflowsAtEnd(cmp, val, key, s);
    } else {
      LoopIsOutcome(cmp, val, key, s);
      BeginBehindStar(val, key, s);
      var b := Begin(key, s);
      match b.next
      case NoWild => OverflowsAtLast(cmp, val, key, s, b);
      case Star => OverflowsAtStar(cmp, val, key, s, b);
      case Quest => OverflowsAtRun(cmp, val, key, s, b);
    }
  }

  lemma OverflowsAtEnd(cmp: Comparator, val: seq<Byte>, key: seq<Byte>, s: State)
    requires BehindStar(s, val, key) && s.kp == |key| && s.vp < |val| && Crowded(s.values, Pattern(key, s.kp))
    ensures Loses(cmp, val, key, Landed(cmp, val, key, s), [AnyString] + Pattern(key, s.kp), s.vp, Weight(s.values))
  {
    hide Globs, Weight, FixedAt, WildCount, LitCount;
    SkipStarsEnds(key);
    WildCountStar();
    StarCount([]);
    GlobsLast(cmp, [], val, s.vp);
    FixedNothing(cmp, val, |val|);
    assert [AnyString] + [] == [AnyString];
  }

  lemma OverflowsAtLast(cmp: Comparator, val: seq<Byte>, key: seq<Byte>, s: State, b: State)
    requires BehindStar(s, val, key) && s.kp < |key| && s.vp < |val| && b == Begin(key, s) && b.next == NoWild
    requires Ends(val, s.vp, Overfull(key, s.kp)) && Crowded(s.values, Pattern(key, s.kp))
    requires Outcome.requires(cmp, val, key, b)
    ensures Loses(cmp, val, key, Outcome(cmp, val, key, b), [AnyString] + Pattern(key, s.kp), s.vp, Weight(s.values))
  {
    hide Begin, Needle, RunAt, SkipStars, Has, Repeated, FoundAt, AddChars, Pattern, Piece, Globs, FixedAt, Weight,
      WildCount, LitCount;
    BeginBehindStar(val, key, s);
    PieceAtEnd(key, s.wp);
    var o, text := b.offset, b.section;
    var tokens, at := Piece(o, text), s.vp + 1;
    EndsParts(val, s.vp, Repeated(o + 1, 0), text);
    HasFound(cmp, val, at + o, text);
    PieceAt(cmp, val, at, o, text);
    GlobsLast(cmp, tokens, val, s.vp);
    RecordedFull(b.values, b.mvalue + val[b.vp..at], val[at..at + o]);
    WildPiece(o, text);
    PieceCount(o, text);
    StarCount(tokens);
  }

  // The wildcards of a text with its '?' in front, behind a star.
  lemma WildPiece(offset: nat, text: seq<Byte>)
    ensures WildCount([AnyString] + Piece(offset, text)) == 1 + offset
    ensures WildCount(Piece(offset, text)) == offset
  {
    hide Lits, LitCount, WildCount, Anys;
    LitsLength(text);
    PieceCount(offset, text);
    FixedCounts(Piece(offset, text));
    WildCountParts([AnyString], Piece(offset, text));
    WildCountStar();
  }

  lemma {:induction false} OverflowsAtStar(cmp: Comparator, val: seq<Byte>, key: seq<Byte>, s: State, b: State)
    requires BehindStar(s, val, key) && s.kp < |key| && s.vp < |val| && b == Begin(key, s) && b.next == Star
    requires Ends(val, s.vp, Overfull(key, s.kp)) && Crowded(s.values, Pattern(key, s.kp))
    requires Outcome.requires(cmp, val, key, b)
    ensures Loses(cmp, val, key, Outcome(cmp, val, key, b), [AnyString] + Pattern(key, s.kp), s.vp, Weight(s.values))
    decreases |key| - s.kp, 0
  {
    hide Loop, Pattern, Outcome, Begin, Piece, Needle, RunAt, SkipStars, Ends, Samples, Globs, Finish, Landed, Weight,
      LitCount, FixedAt, FoundAt, Find, Recorded, WildCount;
    BeginBehindStar(val, key, s);
    PieceAtStar(key, s.wp);
    var tokens, tail := Piece(b.offset, b.section), Pattern(key, b.wp + 1);
    var more := Overfull(key, b.wp + 1);
    EndsParts(val, s.vp, Samples(tokens), more);
    EndsFits(val, s.vp + |Samples(tokens)|, more);
    PieceSize(b.offset, b.section);
    var t := ThroughStar(cmp, val, key, b);
    RecordedWeight(b.values, val[b.vp..b.vp], val[b.vp..b.vp + b.offset]);
    RecordedFull(b.values, val[b.vp..b.vp], val[b.vp..b.vp + b.offset]);
    WildPiece(b.offset, b.section);
    StillCrowded(b.values, tokens, tail, t.values);
    Overflows(cmp, val, key, t);
    StarsCount(b.offset, b.section, tail);
  }

  // Room that is used up by a stretch is not there for the rest.
  lemma StillCrowded(values: seq<seq<Byte>>, tokens: seq<Token>, tail: seq<Token>, values': seq<seq<Byte>>)
    requires Crowded(values, tokens + ([AnyString] + tail))
    requires var n := |values| + 1 + WildCount(tokens);
             |values'| >= if n < MAX_MATCH_VALUES then n else MAX_MATCH_VALUES
    ensures Crowded(values', tail)
  {
    hide WildCount;
    WildCountStar();
    WildCountParts([AnyString], tokens + ([AnyString] + tail));
    WildCountParts(tokens, [AnyString] + tail);
    WildCountParts([AnyString], tail);
  }

  lemma {:induction false} OverflowsAtRun(cmp: Comparator, val: seq<Byte>, key: seq<Byte>, s: State, b: State)
    requires BehindStar(s, val, key) && s.kp < |key| && s.vp < |val| && b == Begin(key, s) && b.next == Quest
    requires Ends(val, s.vp, Overfull(key, s.kp)) && Crowded(s.values, Pattern(key, s.kp))
    requires Outcome.requires(cmp, val, key, b)
    ensures Loses(cmp, val, key, Outcome(cmp, val, key, b), [AnyString] + Pattern(key, s.kp), s.vp, Weight(s.values))
    decreases |key| - s.kp, 0
  {
    hide Loop, Pattern, Outcome, Begin, Piece, Needle, RunAt, SkipStars, Ends, Samples, Globs, Finish, Landed, Weight,
      LitCount, FixedAt, WildCount, Loses, Crowded, NoStar, Overfull, Through;
    BeginBehindStar(val, key, s);
    PieceAtRun(key, s.wp);
    OverfullAtRun(key, s.wp);
    PieceSize(b.offset, b.section);
    var run := RunAt(key, b.wp + 1);
    var tokens := Piece(b.offset, b.section) + run.tokens;
    if run.end < |key| {
      EndsParts(val, b.vp, Samples(tokens), Overfull(key, run.end + 1));
      FitsAtOnce(cmp, val, key, b);
      var t := GoesThrough(cmp, val, key, b);
      OverflowsBehindRun(cmp, val, key, b, t);
    } else {
      EndsAll(val, b.vp, Samples(tokens));
      FitsAtOnce(cmp, val, key, b);
      var t := GoesThrough(cmp, val, key, b);
      OverflowsInRun(cmp, val, key, b, t);
    }
  }

  lemma OverfullAtRun(key: seq<Byte>, p: nat)
    requires p <= |key| && WildAt(key, Needle(key, p, 0, Star).1) == Quest && Needle(key, p, 0, Star).1 < |key|
    ensures var n := Needle(key, p, 0, Star);
            var run := RunAt(key, n.1 + 1);
            var more := if run.end < |key| then Overfull(key, run.end + 1) else [];
            Overfull(key, p) == Samples(Piece(n.2, n.0) + run.tokens) + more
  {
    hide Needle, RunAt, Samples, Piece, Repeated;
    var n := Needle(key, p, 0, Star);
    var v := Samples(Piece(n.2, n.0) + RunAt(key, n.1 + 1).tokens);
    assert v + [] == v;
  }

  lemma GoesThrough(cmp: Comparator, val: seq<Byte>, key: seq<Byte>, b: State) returns (t: State)
    requires Ready(b, val, key) && b.next == Quest && b.wp < |key| && b.section != []
    requires var run, found := RunAt(key, b.wp + 1), b.vp + b.offset;
             && RunFits(cmp, val, key, found + |b.section|, run) && Find(cmp, val, found, b.section) == Some(found)
             && found + |b.section| + |run.tokens| <= |val|
    ensures Through(cmp, val, key, b, t)
    ensures t.vp == b.vp + b.offset + |b.section| + |RunAt(key, b.wp + 1).tokens|
  {
    hide Outcome, RunAt, Landed, Recorded, CaughtAt, RunFits, Find;
    t := LuckyTry(cmp, val, key, b, b.vp + b.offset);
  }

  lemma EndsAll(val: seq<Byte>, at: nat, v: seq<Byte>)
    requires Ends(val, at, v + [])
    ensures Has(val, at, v) && at + |v| == |val|
  {
    assert v + [] == v;
  }

  // The state in which the round leaves text and run.
  ghost predicate Through(cmp: Comparator, val: seq<Byte>, key: seq<Byte>, b: State, t: State)
    requires Outcome.requires(cmp, val, key, b) && b.wp < |key|
  {
    var run, found := RunAt(key, b.wp + 1), b.vp + b.offset;
    && InBounds(t, val, key) && !t.backtrack && t.kp == t.wp == Behind(key, run.end) && t.next == WildAt(key, run.end)
    && t.vp == found + |b.section| + |run.tokens|
    && t.values == Recorded(b.values, b.mvalue + val[b.vp..b.vp],
                            val[b.vp..found] + CaughtAt(run.tokens, val, found + |b.section|))
    && Outcome(cmp, val, key, b) == if run.end < |key| then Landed(cmp, val, key, t) else t
  }

  // What is recorded of text and run: as many values as there is room for.
  lemma RecordedRun(val: seq<Byte>, values: seq<seq<Byte>>, offset: nat, text: seq<Byte>, run: seq<Token>, vp: nat)
    requires NoStar(run) && vp + offset + |text| + |run| <= |val|
    ensures var chars := val[vp..vp + offset] + CaughtAt(run, val, vp + offset + |text|);
            var r, n := Recorded(values, [] + val[vp..vp], chars), |values| + 1 + offset + WildCount(run);
            && |r| >= (if n < MAX_MATCH_VALUES then n else MAX_MATCH_VALUES)
            && Weight(r) <= Weight(values) + offset + WildCount(run)
            && (WildCount(run) > 0 && n > MAX_MATCH_VALUES ==> Weight(r) < Weight(values) + offset + WildCount(run))
            && WildCount(Piece(offset, text) + run) == offset + WildCount(run)
            && LitCount(run) + WildCount(run) == |run|
  {
    hide Weight, Recorded, WildCount, LitCount, Caught, Piece;
    var chars := val[vp..vp + offset] + CaughtAt(run, val, vp + offset + |text|);
    CaughtCount(run, val, vp + offset + |text|);
    RecordedWeight(values, [] + val[vp..vp], chars);
    RecordedFull(values, [] + val[vp..vp], chars);
    WildPiece(offset, text);
    WildCountParts(Piece(offset, text), run);
    FixedCounts(run);
  }

  lemma {:induction false} OverflowsBehindRun(cmp: Comparator, val: seq<Byte>, key: seq<Byte>, b: State, t: State)
    requires Ready(b, val, key) && b.next == Quest && b.wp < |key| && b.section != [] && b.mvalue == []
    requires Through(cmp, val, key, b, t)
    requires var run := RunAt(key, b.wp + 1); var tokens := Piece(b.offset, b.section) + run.tokens;
             && run.end < |key| && NoStar(run.tokens) && NoStar(tokens) && FixedAt(cmp, val, b.vp, tokens)
             && Ends(val, t.vp, Overfull(key, run.end + 1))
             && Crowded(b.values, tokens + Pattern(key, run.end))
    ensures Loses(cmp, val, key, Outcome(cmp, val, key, b), HuntPattern(key, b), b.vp, Weight(b.values))
    decreases |key| - b.kp, 0, 0
  {
    hide Loop, Pattern, Outcome, Piece, RunAt, Ends, Globs, Finish, Landed, Weight, LitCount, FixedAt, Recorded,
      CaughtAt, WildCount, Overfull, Crowded;
    var run := RunAt(key, b.wp + 1);
    var piece, tail := Piece(b.offset, b.section), Pattern(key, run.end + 1);
    var tokens := piece + run.tokens;
    RunRest(key, b.wp + 1);
    PieceSize(b.offset, b.section);
    FixedFits(cmp, val, b.vp, tokens);
    RecordedRun(val, b.values, b.offset, b.section, run.tokens, b.vp);
    StillCrowded(b.values, tokens, tail, t.values);
    Overflows(cmp, val, key, t);
    GlobsHere(cmp, tokens, tail, val, b.vp);
    HuntCount(key, b);
    StarCount(tail);
  }

  lemma RunHasWild(key: seq<Byte>, p: nat)
    requires p <= |key|
    ensures WildCount(RunAt(key, p).tokens) > 0
  {
  }

  lemma OverflowsInRun(cmp: Comparator, val: seq<Byte>, key: seq<Byte>, b: State, t: State)
    requires Ready(b, val, key) && b.next == Quest && b.wp < |key| && b.section != [] && b.mvalue == []
    requires Through(cmp, val, key, b, t)
    requires var run := RunAt(key, b.wp + 1); var tokens := Piece(b.offset, b.section) + run.tokens;
             && run.end == |key| && NoStar(run.tokens) && NoStar(tokens) && FixedAt(cmp, val, b.vp, tokens)
             && b.vp + |tokens| == |val| && Crowded(b.values, tokens + Pattern(key, run.end))
    ensures Loses(cmp, val, key, Outcome(cmp, val, key, b), HuntPattern(key, b), b.vp, Weight(b.values))
  {
    hide Pattern, Outcome, Piece, RunAt, Globs, Finish, Weight, LitCount, FixedAt, Recorded, CaughtAt, WildCount;
    var run := RunAt(key, b.wp + 1);
    var tokens := Piece(b.offset, b.section) + run.tokens;
    RunRest(key, b.wp + 1);
    RunHasWild(key, b.wp + 1);
    PieceSize(b.offset, b.section);
    RecordedRun(val, b.values, b.offset, b.section, run.tokens, b.vp);
    assert tokens + [] == tokens;
    WildCountParts([AnyString], tokens);
    WildCountStar();
    GlobsLast(cmp, tokens, val, b.vp);
    HuntCount(key, b);
    StarCount([]);
  }

  // ----- From the start -----

  function Overflowing(key: seq<Byte>): seq<Byte>
  {
    var s := Section(key, 0);
    match WildAt(key, s.1)
    case NoWild => []
    case Star => Samples(Lits(s.0)) + Overfull(key, s.1 + 1)
    case Quest =>
      var run := RunAt(key, s.1 + 1);
      if run.end < |key| then Samples(Lits(s.0) + run.tokens) + Overfull(key, run.end + 1)
      else Samples(Lits(s.0) + run.tokens)
  }

  lemma WildText(text: seq<Byte>, rest: seq<Token>)
    ensures WildCount(Lits(text) + rest) == WildCount(rest)
  {
    hide WildCount, Lits;
    CaughtLits(text, text, 0);
    WildCountParts(Lits(text), rest);
  }

  lemma OverflowsFromStar(cmp: Comparator, val: seq<Byte>, key: seq<Byte>, b: State)
    requires b.wp < |key| && b == START.(next := Star, section := b.section, wp := b.wp) && WildAt(key, b.wp) == Star
    requires Ends(val, 0, Samples(Lits(b.section)) + Overfull(key, b.wp + 1))
    requires WildCount(Lits(b.section) + ([AnyString] + Pattern(key, b.wp + 1))) >= MAX_MATCH_VALUES
    ensures Loses(cmp, val, key, Outcome(cmp, val, key, b), Lits(b.section) + ([AnyString] + Pattern(key, b.wp + 1)), 0,
                  0)
  {
    hide FoundAt, Pattern, Lits, SkipStars, FixedAt, Globs, Finish, AfterSection, Outcome, Has, Samples, Overfull,
      Landed, LitCount, Weight, WildCount;
    var text, tail := b.section, [AnyString] + Pattern(key, b.wp + 1);
    LitsLength(text);
    EndsParts(val, 0, Samples(Lits(text)), Overfull(key, b.wp + 1));
    SamplesFit(cmp, val, 0, Lits(text));
    FixedLits(cmp, val, 0, text);
    AfterSectionAtStar(cmp, val, key, b, |text|, None, []);
    var t := b.(vp := |text|, kp := b.wp + 1, wp := b.wp + 1, values := AddChars([[]], []));
    OutcomeLanded(cmp, val, key, b, t);
    WildText(text, tail);
    Overflows(cmp, val, key, t);
    NoWeight();
    GlobsFixed(cmp, Lits(text), tail, val, 0);
    TextCount(text);
    LitCountParts(Lits(text), tail);
  }

  // What is recorded of the first text and run.
  lemma RecordedFirst(val: seq<Byte>, text: seq<Byte>, tokens: seq<Token>)
    requires NoStar(tokens) && |text| + |tokens| <= |val|
    ensures var r, n := AddChars([[]], [] + CaughtAt(tokens, val, |text|)), 1 + WildCount(tokens);
            && |r| >= (if n < MAX_MATCH_VALUES then n else MAX_MATCH_VALUES)
            && Weight(r) + LitCount(tokens) <= |tokens|
            && (WildCount(tokens) > 0 && n > MAX_MATCH_VALUES ==> Weight(r) + LitCount(tokens) < |tokens|)
  {
    hide Weight, LitCount, WildCount, AddChars, Caught;
    NoWeight();
    AddCharsWeight([[]], [] + CaughtAt(tokens, val, |text|));
    AddCharsFull([[]], [] + CaughtAt(tokens, val, |text|));
    CaughtCount(tokens, val, |text|);
    FixedCounts(tokens);
  }

  lemma OverflowsFromRun(cmp: Comparator, val: seq<Byte>, key: seq<Byte>, b: State)
    requires b.wp < |key| && b == START.(next := Quest, section := b.section, wp := b.wp) && WildAt(key, b.wp) == Quest
    requires var run := RunAt(key, b.wp + 1);
             && run.end < |key|
             && Ends(val, 0, Samples(Lits(b.section) + run.tokens) + Overfull(key, run.end + 1))
             && WildCount(Lits(b.section) + run.tokens + Pattern(key, run.end)) >= MAX_MATCH_VALUES
    ensures var run := RunAt(key, b.wp + 1);
            Loses(cmp, val, key, Outcome(cmp, val, key, b), Lits(b.section) + run.tokens + Pattern(key, run.end), 0, 0)
  {
    hide FoundAt, Pattern, Lits, FixedAt, Globs, Finish, Outcome, Ends, Samples, Overfull, RunAt, Landed, AddChars,
      CaughtAt, LitCount, Weight, NoStar, WildCount;
    var text, run := b.section, RunAt(key, b.wp + 1);
    var tokens, tail := Lits(text) + run.tokens, Pattern(key, run.end + 1);
    LitsLength(text);
    RunRest(key, b.wp + 1);
    NoStarParts(Lits(text), run.tokens);
    FitsInFront(cmp, val, text, run.tokens, Overfull(key, run.end + 1));
    FixedFits(cmp, val, |text|, run.tokens);
    FixedLits(cmp, val, 0, text);
    FixedParts(cmp, val, 0, Lits(text), run.tokens);
    var t := StartLanding(cmp, val, key, b);
    RecordedFirst(val, text, run.tokens);
    WildText(text, run.tokens);
    WildCountParts(tokens, [AnyString] + tail);
    WildCountParts([AnyString], tail);
    WildCountStar();
    Overflows(cmp, val, key, t);
    GlobsFixed(cmp, tokens, Pattern(key, run.end), val, 0);
    TextCount(text);
    LitCountParts(Lits(text), run.tokens);
    LitCountParts(tokens, Pattern(key, run.end));
  }

  // The state behind a key without stars.
  lemma StartThrough(cmp: Comparator, val: seq<Byte>, key: seq<Byte>, b: State) returns (t: State)
    requires b.wp < |key| && b == START.(next := Quest, section := b.section, wp := b.wp) && WildAt(key, b.wp) == Quest
    requires FoundAt(cmp, val, 0, b.section)
    requires var run := RunAt(key, b.wp + 1);
             run.end == |key| && FixedAt(cmp, val, |b.section|, run.tokens) && |b.section| + |run.tokens| == |val|
    ensures var run := RunAt(key, b.wp + 1);
            && t.kp == |key| && t.values == AddChars([[]], [] + CaughtAt(run.tokens, val, |b.section|))
            && Outcome(cmp, val, key, b) == t
  {
    hide FoundAt, FixedAt, RunAt, Questions, AddChars, CaughtAt, Outcome;
    var run := RunAt(key, b.wp + 1);
    var q := Trail(|b.section|, b.wp + 1, b.wp + 1, Quest, [], false);
    QuestionsRun(cmp, val, key, q);
    t := b.(vp := q.vp + |run.tokens|, kp := run.end, wp := run.end, next := NoWild,
            values := AddChars([[]], [] + CaughtAt(run.tokens, val, q.vp)));
    assert MiddleSection(cmp, val, key, b) == (t, false);
    OutcomeEnds(cmp, val, key, b, t);
  }

  lemma OverflowsInFirstRun(cmp: Comparator, val: seq<Byte>, key: seq<Byte>, b: State)
    requires b.wp < |key| && b == START.(next := Quest, section := b.section, wp := b.wp) && WildAt(key, b.wp) == Quest
    requires var run := RunAt(key, b.wp + 1);
             && run.end == |key| && Ends(val, 0, Samples(Lits(b.section) + run.tokens))
             && WildCount(Lits(b.section) + run.tokens + Pattern(key, run.end)) >= MAX_MATCH_VALUES
    ensures var run := RunAt(key, b.wp + 1);
            Loses(cmp, val, key, Outcome(cmp, val, key, b), Lits(b.section) + run.tokens + Pattern(key, run.end), 0, 0)
  {
    hide FoundAt, Pattern, Lits, FixedAt, Globs, Finish, Outcome, Ends, Samples, RunAt, AddChars, CaughtAt, LitCount,
      Weight, NoStar, WildCount;
    var text, run := b.section, RunAt(key, b.wp + 1);
    var tokens := Lits(text) + run.tokens;
    LitsLength(text);
    RunRest(key, b.wp + 1);
    RunHasWild(key, b.wp + 1);
    NoStarParts(Lits(text), run.tokens);
    assert Samples(tokens) + [] == Samples(tokens);
    FitsInFront(cmp, val, text, run.tokens, []);
    EndsFits(val, |text| + |run.tokens|, []);
    FixedLits(cmp, val, 0, text);
    FixedParts(cmp, val, 0, Lits(text), run.tokens);
    var t := StartThrough(cmp, val, key, b);
    RecordedFirst(val, text, run.tokens);
    WildText(text, run.tokens);
    assert tokens + [] == tokens;
    GlobsFixed(cmp, tokens, [], val, 0);
    NothingButEnd(cmp, val, |val|);
    TextCount(text);
    LitCountParts(Lits(text), run.tokens);
  }

  // With 32 wildcards or more, some value is not put back together.
  lemma OverflowingIsNotRight(cmp: Comparator, key: seq<Byte>)
    requires WildCount(Pattern(key, 0)) >= MAX_MATCH_VALUES
    ensures !Right(cmp, Overflowing(key), key)
  {
    hide Pattern, Lits, Loop, Section, Begin, Outcome, RunAt, Globs, Finish, Samples, Overfull, LitCount, Weight, Fills,
      WildCount;
    var val, r := Overflowing(key), Section(key, 0);
    SectionPattern(key, 0);
    WildText(r.0, []);
    assert Lits(r.0) + [] == Lits(r.0);
    NoWilds();
    RunPatternOf(key, r.1, r.0);
    BeginStart(key);
    SamplesNotEmpty(key);
    LoopIsOutcome(cmp, val, key, START);
    var b := Begin(key, START);
    match b.next {
      case Star => OverflowsFromStar(cmp, val, key, b);
      case Quest =>
        if RunAt(key, r.1 + 1).end < |key| {
          OverflowsFromRun(cmp, val, key, b);
        } else {
          OverflowsInFirstRun(cmp, val, key, b);
        }
    }
    TooLight(cmp, val, key, Loop(cmp, val, key, START));
  }

  lemma NoWilds()
    ensures WildCount([]) == 0
  {
  }

  lemma RunPatternOf(key: seq<Byte>, p: nat, text: seq<Byte>)
    requires p <= |key|
    ensures WildAt(key, p) == Quest ==>
              var run := RunAt(key, p + 1);
              Lits(text) + Pattern(key, p) == Lits(text) + run.tokens + Pattern(key, run.end)
  {
    hide Lits, RunAt;
    if WildAt(key, p) == Quest {
      RunPattern(key, p + 1);
      var run := RunAt(key, p + 1);
      assert Lits(text) + (run.tokens + Pattern(key, run.end)) == Lits(text) + run.tokens + Pattern(key, run.end);
    }
  }

  lemma SamplesNotEmpty(key: seq<Byte>)
    ensures WildAt(key, Section(key, 0).1) != NoWild ==> Overflowing(key) != [] && key != []
  {
    hide Section, Samples, Overfull;
  }

  // ----- When the match values are right -----

  // The matcher decides every value correctly, and records what the wildcards stand for, if and only
  // if the key is good for its match values too and has at most 31 wildcards.
  lemma RightOnKeptKeysOnly(cmp: Comparator, key: seq<Byte>)
    ensures GoodKey(cmp, key, true) && WildCount(Pattern(key, 0)) < MAX_MATCH_VALUES
            <==> forall val: seq<Byte> :: Right(cmp, val, key)
  {
    hide Globs, Pattern, MatchResult, GoodKey, Fills, WildCount, Right;
    if WildCount(Pattern(key, 0)) >= MAX_MATCH_VALUES {
      OverflowingIsNotRight(cmp, key);
    } else if GoodKey(cmp, key, true) {
      forall val: seq<Byte> ensures Right(cmp, val, key) { KeptIsRight(cmp, val, key); }
    } else if GoodKey(cmp, key, false) {
      LosingIsNotRight(cmp, key);
    } else {
      ConfusedIsNotRight(cmp, key);
    }
  }
}
