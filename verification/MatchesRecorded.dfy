// Going back over text with '?' in front of it loses bytes of what the star stands for: the match
// values are right for every value if and only if the key has no such text.
module MatchesRecorded {
  import opened Bytes
  import opened Glob
  import opened Fixed
  import opened Matches
  import opened Keys
  import opened MatchesCorrect
  import opened Instances
  import opened MatchesRefused
  import opened MatchesExact

  // ----- Counting bytes -----

  function Weight(values: seq<seq<Byte>>): nat
  {
    if values == [] then 0 else |values[0]| + Weight(values[1..])
  }

  function LitCount(pattern: seq<Token>): nat
  {
    if pattern == [] then 0 else (if pattern[0].Lit? then 1 else 0) + LitCount(pattern[1..])
  }

  lemma {:induction false} LitCountParts(a: seq<Token>, b: seq<Token>)
    ensures LitCount(a + b) == LitCount(a) + LitCount(b)
    decreases |a|
  {
    if a == [] {
      assert a + b == b;
    } else {
      assert (a + b)[1..] == a[1..] + b;
      LitCountParts(a[1..], b);
    }
  }

  lemma {:induction false} FixedCounts(tokens: seq<Token>)
    requires NoStar(tokens)
    ensures LitCount(tokens) + WildCount(tokens) == |tokens|
    decreases |tokens|
  {
    if tokens != [] { FixedCounts(tokens[1..]); }
  }

  lemma {:induction false} StarCounts(pattern: seq<Token>)
    requires AllStars(pattern)
    ensures LitCount(pattern) == 0
    decreases |pattern|
  {
    if pattern != [] { StarCounts(pattern[1..]); }
  }

  lemma StarCount(rest: seq<Token>)
    ensures LitCount([AnyString] + rest) == LitCount(rest) && LitCount([]) == 0
  {
    assert ([AnyString] + rest)[1..] == rest;
  }

  lemma PieceCount(offset: nat, text: seq<Byte>)
    ensures LitCount(Piece(offset, text)) == |text|
  {
    hide Lits, LitCount, WildCount, Anys;
    LitsLength(text);
    var val := Samples(Piece(offset, text));
    CaughtAnys(offset, val, 0);
    CaughtLits(text, val, offset);
    WildCountParts(Anys(offset), Lits(text));
    FixedCounts(Piece(offset, text));
  }

  // What fills a pattern has as many bytes as the wildcards need.
  lemma {:induction false} FillsWeight(cmp: Comparator, pattern: seq<Token>, val: seq<Byte>, at: nat,
                                       values: seq<seq<Byte>>)
    requires at <= |val| && Fills(cmp, pattern, val, at, values)
    ensures |val| - at == LitCount(pattern) + Weight(values)
    decreases |pattern|
  {
    hide Same;
    if pattern != [] {
      match pattern[0]
      case Lit(_) => FillsWeight(cmp, pattern[1..], val, at + 1, values);
      case AnyChar => FillsWeight(cmp, pattern[1..], val, at + 1, values[1..]);
      case AnyString =>
        var v := if values == [] then [] else values[0];
        FillsWeight(cmp, pattern[1..], val, at + |v|, if values == [] then [] else values[1..]);
    }
  }

  lemma {:induction false} WeightMore(values: seq<seq<Byte>>, v: seq<Byte>)
    ensures Weight(values + [v]) == Weight(values) + |v|
    decreases |values|
  {
    if values == [] {
      assert [v][1..] == [] && values + [v] == [v];
    } else {
      assert (values + [v])[1..] == values[1..] + [v];
      WeightMore(values[1..], v);
    }
  }

  lemma {:induction false} AddCharsWeight(values: seq<seq<Byte>>, chars: seq<Byte>)
    ensures Weight(AddChars(values, chars)) <= Weight(values) + |chars|
    decreases |chars|
  {
    if chars != [] {
      WeightMore(values, [chars[0]]);
      AddCharsWeight(Add(values, [chars[0]]), chars[1..]);
    }
  }

  lemma RecordedWeight(values: seq<seq<Byte>>, star: seq<Byte>, chars: seq<Byte>)
    ensures Weight(Recorded(values, star, chars)) <= Weight(values) + |star| + |chars|
  {
    hide Weight, AddChars;
    WeightMore(values, star);
    AddCharsWeight(Add(values, star), chars);
  }

  // The values recorded behind a stretch: no more than the stretch and its star take.
  lemma StretchWeight(cmp: Comparator, val: seq<Byte>, values: seq<seq<Byte>>, star: seq<Byte>, front: seq<Byte>,
                      tokens: seq<Token>, at: nat)
    requires NoStar(tokens) && at + |tokens| <= |val|
    ensures Weight(Recorded(values, star, front + CaughtAt(tokens, val, at))) + LitCount(tokens)
            <= Weight(values) + |star| + |front| + |tokens|
  {
    hide Weight, Recorded, LitCount, WildCount, Caught;
    RecordedWeight(values, star, front + CaughtAt(tokens, val, at));
    CaughtCount(tokens, val, at);
    FixedCounts(tokens);
  }

  // ----- The match values never take more than the value has -----

  ghost predicate Within(val: seq<Byte>, key: seq<Byte>, end: State, lits: nat, budget: int)
    requires end.kp <= |key|
  {
    Finish(val, key, end) ==> Weight(end.values) + lits <= budget
  }

  lemma {:induction false} Spent(cmp: Comparator, val: seq<Byte>, key: seq<Byte>, s: State)
    requires BehindStar(s, val, key)
    ensures Within(val, key, Landed(cmp, val, key, s), LitCount(Pattern(key, s.kp)), Weight(s.values) + |val| - s.vp)
    decreases |key| - s.kp, 2
  {
    hide Loop, Pattern, Outcome, Begin, Piece, Needle, RunAt, LitCount, Within, Weight;
    if s.kp == |key| || s.vp == |val| {
      SpentAtEnd(cmp, val, key, s);
    } else {
      LoopIsOutcome(cmp, val, key, s);
      BeginBehindStar(val, key, s);
      var b := Begin(key, s);
      PieceCount(b.offset, b.section);
      match b.next {
        case NoWild =>
          PieceAtEnd(key, s.wp);
          SpentAtLast(cmp, val, key, b);
        case Star =>
          PieceAtStar(key, s.wp);
          LitCountParts(Piece(b.offset, b.section), [AnyString] + Pattern(key, b.wp + 1));
          StarCount(Pattern(key, b.wp + 1));
          SpentAtStar(cmp, val, key, b);
        case Quest =>
          PieceAtRun(key, s.wp);
          var run := RunAt(key, b.wp + 1);
          LitCountParts(Piece(b.offset, b.section), run.tokens);
          LitCountParts(Piece(b.offset, b.section) + run.tokens, Pattern(key, run.end));
          SpentAtRun(cmp, val, key, b);
      }
    }
  }

  lemma SpentAtEnd(cmp: Comparator, val: seq<Byte>, key: seq<Byte>, s: State)
    requires BehindStar(s, val, key) && (s.kp == |key| || s.vp == |val|)
    ensures Within(val, key, Landed(cmp, val, key, s), LitCount(Pattern(key, s.kp)), Weight(s.values) + |val| - s.vp)
  {
    hide Pattern, SkipStars, LitCount, Weight;
    SkipStarsPattern(key, s.kp);
    SkipStarsEnds(key);
    StarCount([]);
    WeightMore(s.values, val[s.vp..]);
    if AllStars(Pattern(key, s.kp)) { StarCounts(Pattern(key, s.kp)); }
  }

  lemma SpentAtLast(cmp: Comparator, val: seq<Byte>, key: seq<Byte>, b: State)
    requires Ready(b, val, key) && b.next == NoWild && b.mvalue == []
    ensures Within(val, key, Outcome(cmp, val, key, b), |b.section|, Weight(b.values) + |val| - b.vp)
  {
    hide FoundAt, SkipStars, AddChars, Weight;
    if b.vp + |b.section| + b.offset <= |val| {
      var start := |val| - |b.section| - b.offset;
      RecordedWeight(b.values, b.mvalue + val[b.vp..start], val[start..|val| - |b.section|]);
    }
  }

  lemma {:induction false} SpentAtStar(cmp: Comparator, val: seq<Byte>, key: seq<Byte>, b: State)
    requires Ready(b, val, key) && b.next == Star && b.mvalue == [] && b.wp < |key|
    requires b.section != [] || b.offset > 0 ==> SkipStars(key, b.kp) == b.kp
    ensures Within(val, key, Outcome(cmp, val, key, b), |b.section| + LitCount(Pattern(key, b.wp + 1)),
                   Weight(b.values) + |val| - b.vp)
    decreases |key| - b.kp, 1
  {
    hide FoundAt, Find, Pattern, Outcome, SkipStars, LitCount, Finish, Recorded, Weight, Landed;
    var found := Find(cmp, val, b.vp + b.offset, b.section);
    FindNothing(cmp, val, b.vp + b.offset, b.section);
    if b.vp + b.offset >= |val| || found.None? {
      NoTextFound(cmp, val, key, b);
    } else {
      FindBounds(cmp, val, b.vp + b.offset, b.section);
      var t := StarLanding(cmp, val, key, b, found.value);
      var at := found.value - b.offset;
      RecordedWeight(b.values, val[b.vp..at], val[at..found.value]);
      Spent(cmp, val, key, t);
    }
  }

  lemma {:induction false} SpentAtRun(cmp: Comparator, val: seq<Byte>, key: seq<Byte>, b: State)
    requires Ready(b, val, key) && b.next == Quest && b.wp < |key| && b.section != []
    ensures var run := RunAt(key, b.wp + 1);
            Within(val, key, Outcome(cmp, val, key, b),
                   |b.section| + LitCount(run.tokens) + LitCount(Pattern(key, run.end)),
                   Weight(b.values) + |b.mvalue| + |val| - b.vp)
    decreases |key| - b.kp, 1, |val| - b.vp
  {
    hide FixedAt, FoundAt, Find, Outcome, RunAt, Finish, Pattern, RunFits, Landed, Recorded, CaughtAt, LitCount, Weight;
    var run := RunAt(key, b.wp + 1);
    var r := Find(cmp, val, b.vp + b.offset, b.section);
    FindBounds(cmp, val, b.vp + b.offset, b.section);
    if b.vp + b.offset >= |val| || r.None? {
      HuntFindsNothing(cmp, val, key, b);
    } else {
      var found := r.value;
      if RunFits(cmp, val, key, found + |b.section|, run) {
        SpentOnRun(cmp, val, key, b, found);
      } else {
        HopelessTry(cmp, val, key, b, found);
        if found + 1 < |val| {
          var star := b.mvalue + val[b.vp..found - b.offset];
          SpentAtRun(cmp, val, key, b.(vp := found + 1, mvalue := star + [val[found]]));
        } else {
          HuntEnds(val, key, Outcome(cmp, val, key, b));
        }
      }
    }
  }

  lemma {:induction false} SpentOnRun(cmp: Comparator, val: seq<Byte>, key: seq<Byte>, b: State, found: nat)
    requires Ready(b, val, key) && b.next == Quest && b.wp < |key| && b.section != []
    requires b.vp + b.offset < |val| && Find(cmp, val, b.vp + b.offset, b.section) == Some(found)
    requires found + |b.section| <= |val| && b.vp + b.offset <= found
    requires RunFits(cmp, val, key, found + |b.section|, RunAt(key, b.wp + 1))
    ensures var run := RunAt(key, b.wp + 1);
            Within(val, key, Outcome(cmp, val, key, b),
                   |b.section| + LitCount(run.tokens) + LitCount(Pattern(key, run.end)),
                   Weight(b.values) + |b.mvalue| + |val| - b.vp)
    decreases |key| - b.kp, 0
  {
    hide FixedAt, FoundAt, Find, Outcome, RunAt, Finish, Pattern, RunFits, Landed, Recorded, CaughtAt, LitCount, Weight;
    var run := RunAt(key, b.wp + 1);
    var t := LuckyTry(cmp, val, key, b, found);
    RunRest(key, b.wp + 1);
    StretchWeight(cmp, val, b.values, b.mvalue + val[b.vp..found - b.offset], val[found - b.offset..found], run.tokens,
                  found + |b.section|);
    if run.end < |key| { StarCount(Pattern(key, run.end + 1)); } else { StarCount([]); }
    if run.end < |key| { Spent(cmp, val, key, t); }
  }

  // ----- Values for which bytes get lost -----

  // Bytes the run does not fit, if it has text at all.
  function Spoiled(cmp: Comparator, run: seq<Token>): (v: seq<Byte>)
    ensures |v| == |run|
  {
    seq(|run|, i requires 0 <= i < |run| => if run[i].Lit? then Other(cmp, run[i].b, run[i].b) else 0)
  }

  lemma SpoiledAt(cmp: Comparator, run: seq<Token>, i: nat)
    requires i < |run| && run[i].Lit?
    ensures !Same(cmp, Spoiled(cmp, run)[i], run[i].b)
  {
  }

  lemma SpoiledFails(cmp: Comparator, val: seq<Byte>, at: nat, run: seq<Token>)
    requires Has(val, at, Spoiled(cmp, run)) && NoStar(run) && !AllAnyChar(run)
    ensures !FixedAt(cmp, val, at, run)
  {
    hide Has, Same, Spoiled;
    var i :| 0 <= i < |run| && run[i] != AnyChar;
    assert run[i] in run;
    HasByte(val, at, Spoiled(cmp, run), i);
    SpoiledAt(cmp, run, i);
    assert !Fits(cmp, run[i], val[at + i]);
  }

  // For a key that is good, but not for its match values: the text with '?' in front of it is found,
  // and gone back over, before an instance of the rest of the pattern.
  ghost function Lossy(cmp: Comparator, key: seq<Byte>, p: nat): (v: seq<Byte>)
    requires p <= |key| && GoodTail(cmp, key, p, false) && !GoodTail(cmp, key, p, true)
    ensures v != []
    decreases |key| - p
  {
    var n := Needle(key, p, 0, Star);
    if WildAt(key, n.1) == Star then Samples(Piece(n.2, n.0)) + Lossy(cmp, key, n.1 + 1)
    else
      var run := RunAt(key, n.1 + 1);
      if Clear(cmp, n.0, n.2, run, run.end == |key|, true) then
        Samples(Piece(n.2, n.0) + run.tokens) + Lossy(cmp, key, run.end + 1)
      else Samples(Anys(n.2)) + (n.0 + (Spoiled(cmp, run.tokens) + Least(Pattern(key, p))))
  }

  // The pattern is matched, and if the matcher succeeds, the match values are too short for it.
  ghost predicate Loses(cmp: Comparator, val: seq<Byte>, key: seq<Byte>, end: State, pattern: seq<Token>, at: nat,
                        weight: nat)
    requires end.kp <= |key| && at <= |val|
  {
    Globs(cmp, pattern, val, at) && Within(val, key, end, LitCount(pattern), weight + |val| - at - 1)
  }

  lemma {:induction false} Lost(cmp: Comparator, val: seq<Byte>, key: seq<Byte>, s: State)
    requires BehindStar(s, val, key) && GoodTail(cmp, key, s.kp, false) && !GoodTail(cmp, key, s.kp, true)
    requires Ends(val, s.vp, Lossy(cmp, key, s.kp))
    ensures Loses(cmp, val, key, Landed(cmp, val, key, s), [AnyString] + Pattern(key, s.kp), s.vp, Weight(s.values))
    decreases |key| - s.kp, 1
  {
    hide Loop, Pattern, Outcome, Begin, Piece, Needle, RunAt, SkipStars, GoodTail, Lossy, Loses, Has, Weight;
    NothingBehind(cmp, key, true);
    LoopIsOutcome(cmp, val, key, s);
    BeginBehindStar(val, key, s);
    var b := Begin(key, s);
    if b.next == Star {
      LostBehindStar(cmp, val, key, s, b);
    } else if b.next == Quest {
      LostAtRun(cmp, val, key, s, b);
    } else {
      GoodAtEnd(cmp, key, s.kp, true);
    }
  }

  lemma {:induction false} LostBehindStar(cmp: Comparator, val: seq<Byte>, key: seq<Byte>, s: State, b: State)
    requires BehindStar(s, val, key) && s.kp < |key| && s.vp < |val| && b == Begin(key, s) && b.next == Star
    requires GoodTail(cmp, key, s.kp, false) && !GoodTail(cmp, key, s.kp, true)
             && Ends(val, s.vp, Lossy(cmp, key, s.kp))
    requires Outcome.requires(cmp, val, key, b)
    ensures Loses(cmp, val, key, Outcome(cmp, val, key, b), [AnyString] + Pattern(key, s.kp), s.vp, Weight(s.values))
    decreases |key| - s.kp, 0
  {
    hide Loop, Pattern, Outcome, Begin, Piece, Needle, RunAt, SkipStars, GoodTail, Ends, Samples, Globs, Finish, Landed,
      Weight, LitCount, FixedAt, FoundAt, Find, Recorded;
    BeginBehindStar(val, key, s);
    PieceAtStar(key, s.wp);
    TailAtStar(cmp, key, s.wp, false);
    TailAtStar(cmp, key, s.wp, true);
    var tokens, tail := Piece(b.offset, b.section), Pattern(key, b.wp + 1);
    var more := Lossy(cmp, key, b.wp + 1);
    EndsParts(val, s.vp, Samples(tokens), more);
    EndsFits(val, s.vp + |Samples(tokens)|, more);
    PieceSize(b.offset, b.section);
    var t := ThroughStar(cmp, val, key, b);
    RecordedWeight(b.values, val[b.vp..b.vp], val[b.vp..b.vp + b.offset]);
    Lost(cmp, val, key, t);
    StarsCount(b.offset, b.section, tail);
  }

  lemma StarsCount(offset: nat, text: seq<Byte>, tail: seq<Token>)
    ensures LitCount([AnyString] + (Piece(offset, text) + ([AnyString] + tail)))
            == |text| + LitCount([AnyString] + tail)
  {
    hide LitCount, Piece;
    PieceCount(offset, text);
    LitCountParts(Piece(offset, text), [AnyString] + tail);
    StarCount(Piece(offset, text) + ([AnyString] + tail));
  }

  lemma EndsFits(val: seq<Byte>, at: nat, v: seq<Byte>)
    requires Ends(val, at, v)
    ensures at + |v| == |val|
  {
  }

  lemma {:induction false} LostAtRun(cmp: Comparator, val: seq<Byte>, key: seq<Byte>, s: State, b: State)
    requires BehindStar(s, val, key) && s.kp < |key| && s.vp < |val| && b == Begin(key, s) && b.next == Quest
    requires GoodTail(cmp, key, s.kp, false) && !GoodTail(cmp, key, s.kp, true)
             && Ends(val, s.vp, Lossy(cmp, key, s.kp))
    requires Outcome.requires(cmp, val, key, b)
    ensures Loses(cmp, val, key, Outcome(cmp, val, key, b), [AnyString] + Pattern(key, s.kp), s.vp, Weight(s.values))
    decreases |key| - s.kp, 0
  {
    hide Loop, Pattern, Outcome, Begin, Piece, Needle, RunAt, SkipStars, GoodTail, Ends, Samples, Globs, Finish, Landed,
      Weight, LitCount, FixedAt, FoundAt, Find, Recorded, Clear, Loses, Spoiled, Least;
    BeginBehindStar(val, key, s);
    PieceAtRun(key, s.wp);
    TailAtRun(cmp, key, s.wp, false);
    TailAtRun(cmp, key, s.wp, true);
    var run := RunAt(key, b.wp + 1);
    if Clear(cmp, b.section, b.offset, run, run.end == |key|, true) {
      LostBehindRun(cmp, val, key, b);
    } else {
      LostHere(cmp, val, key, b, Pattern(key, s.kp));
    }
  }

  // Text and run stand at once where they may.
  lemma FitsAtOnce(cmp: Comparator, val: seq<Byte>, key: seq<Byte>, b: State)
    requires b.wp < |key| && b.section != []
    requires var run := RunAt(key, b.wp + 1);
             Has(val, b.vp, Samples(Piece(b.offset, b.section) + run.tokens))
             && (run.end == |key| ==> b.vp + b.offset + |b.section| + |run.tokens| == |val|)
    ensures var run, found := RunAt(key, b.wp + 1), b.vp + b.offset;
            && FixedAt(cmp, val, b.vp, Piece(b.offset, b.section) + run.tokens)
            && FixedAt(cmp, val, found + |b.section|, run.tokens) && RunFits(cmp, val, key, found + |b.section|, run)
            && Find(cmp, val, found, b.section) == Some(found) && found + |b.section| + |run.tokens| <= |val|
            && |run.tokens| >= 1 && NoStar(run.tokens) && NoStar(Piece(b.offset, b.section) + run.tokens)
  {
    hide FixedAt, FoundAt, Find, Piece, Samples, Has, RunAt, Pattern, NoStar;
    var run, piece := RunAt(key, b.wp + 1), Piece(b.offset, b.section);
    RunRest(key, b.wp + 1);
    PieceAt(cmp, val, b.vp, b.offset, b.section);
    NoStarParts(piece, run.tokens);
    SamplesFit(cmp, val, b.vp, piece + run.tokens);
    FixedParts(cmp, val, b.vp, piece, run.tokens);
    FixedFits(cmp, val, b.vp + |piece|, run.tokens);
    FindAtOnce(cmp, val, b.vp + b.offset, b.section);
  }

  lemma {:induction false} LostBehindRun(cmp: Comparator, val: seq<Byte>, key: seq<Byte>, b: State)
    requires Ready(b, val, key) && b.next == Quest && b.wp < |key| && b.section != [] && b.mvalue == []
    requires var run := RunAt(key, b.wp + 1);
             && run.end < |key| && GoodTail(cmp, key, run.end + 1, false) && !GoodTail(cmp, key, run.end + 1, true)
             && Ends(val, b.vp, Samples(Piece(b.offset, b.section) + run.tokens) + Lossy(cmp, key, run.end + 1))
    ensures Loses(cmp, val, key, Outcome(cmp, val, key, b), HuntPattern(key, b), b.vp, Weight(b.values))
    decreases |key| - b.kp, 0, 0
  {
    hide Loop, Pattern, Outcome, Piece, RunAt, GoodTail, Ends, Samples, Globs, Finish, Landed, Weight, LitCount,
      FixedAt, FoundAt, Find, Recorded, CaughtAt, Lossy, NoStar, RunFits;
    var run, found := RunAt(key, b.wp + 1), b.vp + b.offset;
    var tokens, tail := Piece(b.offset, b.section) + run.tokens, Pattern(key, run.end + 1);
    RunRest(key, b.wp + 1);
    PieceSize(b.offset, b.section);
    EndsParts(val, b.vp, Samples(tokens), Lossy(cmp, key, run.end + 1));
    FitsAtOnce(cmp, val, key, b);
    var t := LuckyTry(cmp, val, key, b, found);
    StretchWeight(cmp, val, b.values, [] + val[b.vp..b.vp], val[b.vp..found], run.tokens, found + |b.section|);
    Lost(cmp, val, key, t);
    GlobsHere(cmp, tokens, tail, val, b.vp);
    HuntCount(key, b);
    StarCount(tail);
  }

  lemma HuntCount(key: seq<Byte>, b: State)
    requires b.wp < |key|
    ensures var run := RunAt(key, b.wp + 1);
            LitCount(HuntPattern(key, b)) == |b.section| + LitCount(run.tokens) + LitCount(Pattern(key, run.end))
  {
    hide Pattern, Piece, RunAt, LitCount;
    var run, piece := RunAt(key, b.wp + 1), Piece(b.offset, b.section);
    PieceCount(b.offset, b.section);
    LitCountParts(piece, run.tokens);
    LitCountParts(piece + run.tokens, Pattern(key, run.end));
    StarCount(piece + run.tokens + Pattern(key, run.end));
  }

  lemma LostHere(cmp: Comparator, val: seq<Byte>, key: seq<Byte>, b: State, rest: seq<Token>)
    requires Ready(b, val, key) && b.next == Quest && b.wp < |key| && b.section != [] && b.mvalue == []
    requires var run := RunAt(key, b.wp + 1);
             && !Clear(cmp, b.section, b.offset, run, run.end == |key|, true)
             && Ends(val, b.vp, Samples(Anys(b.offset)) + (b.section + (Spoiled(cmp, run.tokens) + Least(rest))))
             && (run.end == |key| ==> run.open) && HuntPattern(key, b) == [AnyString] + rest
    ensures Loses(cmp, val, key, Outcome(cmp, val, key, b), HuntPattern(key, b), b.vp, Weight(b.values))
  {
    hide Pattern, Outcome, Piece, RunAt, Ends, Samples, Globs, Finish, Weight, LitCount, FixedAt, FoundAt, Find,
      Spoiled, Least, Anys, HuntPattern, RunFits, AllAnyChar, Misses, Has;
    var run, found := RunAt(key, b.wp + 1), b.vp + b.offset;
    var later := found + |b.section| + |run.tokens|;
    RunRest(key, b.wp + 1);
    HuntNeeds(key, b, rest);
    LostLayout(cmp, val, b.vp, b.offset, b.section, run.tokens, Least(rest));
    SpoiledHere(cmp, val, key, b, run);
    SpentGoingBack(cmp, val, key, b);
    HuntCount(key, b);
    LaterGlobs(cmp, val, rest, b.vp, later);
  }

  // Text found at once and gone back over: what the '?' in front of it took is in no match value.
  lemma SpentGoingBack(cmp: Comparator, val: seq<Byte>, key: seq<Byte>, b: State)
    requires Ready(b, val, key) && b.next == Quest && b.wp < |key| && b.section != [] && b.mvalue == [] && b.offset > 0
    requires var run, found := RunAt(key, b.wp + 1), b.vp + b.offset;
             && FoundAt(cmp, val, found, b.section) && !RunFits(cmp, val, key, found + |b.section|, run)
             && found + 1 < |val|
    ensures var run := RunAt(key, b.wp + 1);
            Within(val, key, Outcome(cmp, val, key, b),
                   |b.section| + LitCount(run.tokens) + LitCount(Pattern(key, run.end)),
                   Weight(b.values) + |val| - b.vp - 1)
  {
    hide Pattern, Outcome, RunAt, Finish, Weight, LitCount, FoundAt, Find, RunFits;
    var found := b.vp + b.offset;
    FindAtOnce(cmp, val, found, b.section);
    HopelessTry(cmp, val, key, b, found);
    SpentAtRun(cmp, val, key, b.(vp := found + 1, mvalue := [] + val[b.vp..b.vp] + [val[found]]));
  }

  lemma LostLayout(cmp: Comparator, val: seq<Byte>, vp: nat, o: nat, text: seq<Byte>, run: seq<Token>, more: seq<Byte>)
    requires Ends(val, vp, Samples(Anys(o)) + (text + (Spoiled(cmp, run) + more)))
    ensures var at := vp + o + |text|;
            && FoundAt(cmp, val, vp + o, text) && Has(val, at, Spoiled(cmp, run)) && Ends(val, at + |run|, more)
            && at + |run| + |more| == |val|
  {
    hide Has, FoundAt, Samples, Anys, Spoiled;
    EndsParts(val, vp, Samples(Anys(o)), text + (Spoiled(cmp, run) + more));
    EndsParts(val, vp + o, text, Spoiled(cmp, run) + more);
    EndsParts(val, vp + o + |text|, Spoiled(cmp, run), more);
    HasFound(cmp, val, vp + o, text);
  }

  lemma LaterGlobs(cmp: Comparator, val: seq<Byte>, rest: seq<Token>, at: nat, later: nat)
    requires at <= later && Ends(val, later, Least(rest))
    ensures at <= |val| && Globs(cmp, [AnyString] + rest, val, at)
  {
    hide Globs, Least, Has;
    HasFits(val, later, Least(rest));
    LeastGlobs(cmp, rest, val, later);
    GlobsStar(cmp, rest, val, at, later);
  }

  // There is something left behind the spoiled run.
  lemma HuntNeeds(key: seq<Byte>, b: State, rest: seq<Token>)
    requires b.wp < |key| && b.section != [] && HuntPattern(key, b) == [AnyString] + rest
    ensures |Least(rest)| > 0
  {
    hide Pattern, RunAt, Piece, Size;
    var run, piece := RunAt(key, b.wp + 1), Piece(b.offset, b.section);
    PieceSize(b.offset, b.section);
    SizeParts(piece, run.tokens);
    SizeParts(piece + run.tokens, Pattern(key, run.end));
    assert ([AnyString] + rest)[1..] == rest;
    assert HuntPattern(key, b)[1..] == piece + run.tokens + Pattern(key, run.end);
  }

  lemma SpoiledHere(cmp: Comparator, val: seq<Byte>, key: seq<Byte>, b: State, run: Run)
    requires NoStar(run.tokens) && !Clear(cmp, b.section, b.offset, run, run.end == |key|, true)
    requires run.end == |key| ==> run.open
    requires Has(val, b.vp + b.offset + |b.section|, Spoiled(cmp, run.tokens))
    requires b.vp + b.offset + |b.section| + |run.tokens| < |val|
    ensures !RunFits(cmp, val, key, b.vp + b.offset + |b.section|, run)
  {
    hide FixedAt, Has, Spoiled, AllAnyChar, NoStar;
    if run.end != |key| { SpoiledFails(cmp, val, b.vp + b.offset + |b.section|, run.tokens); }
  }

  // ----- From the start -----

  ghost function Losing(cmp: Comparator, key: seq<Byte>): seq<Byte>
    requires GoodKey(cmp, key, false) && !GoodKey(cmp, key, true)
  {
    var s := Section(key, 0);
    if WildAt(key, s.1) == Star then Samples(Lits(s.0)) + Lossy(cmp, key, s.1 + 1)
    else var run := RunAt(key, s.1 + 1); Samples(Lits(s.0) + run.tokens) + Lossy(cmp, key, run.end + 1)
  }

  lemma TextCount(text: seq<Byte>)
    ensures LitCount(Lits(text)) == |Lits(text)| == |text|
  {
    hide LitCount, WildCount, Lits;
    CaughtLits(text, text, 0);
    LitsLength(text);
    FixedCounts(Lits(text));
  }

  lemma NoWeight()
    ensures Weight([[]]) == 0
  {
  }

  lemma LostFromStar(cmp: Comparator, val: seq<Byte>, key: seq<Byte>, b: State)
    requires b.wp < |key| && b == START.(next := Star, section := b.section, wp := b.wp) && WildAt(key, b.wp) == Star
    requires GoodTail(cmp, key, b.wp + 1, false) && !GoodTail(cmp, key, b.wp + 1, true)
    requires Ends(val, 0, Samples(Lits(b.section)) + Lossy(cmp, key, b.wp + 1))
    ensures Loses(cmp, val, key, Outcome(cmp, val, key, b), Lits(b.section) + ([AnyString] + Pattern(key, b.wp + 1)), 0,
                  0)
  {
    hide FoundAt, Pattern, Lits, SkipStars, FixedAt, Globs, Finish, GoodTail, AfterSection, Outcome, Has, Samples,
      Lossy, Landed, LitCount, Weight;
    var text, tail := b.section, [AnyString] + Pattern(key, b.wp + 1);
    LitsLength(text);
    EndsParts(val, 0, Samples(Lits(text)), Lossy(cmp, key, b.wp + 1));
    SamplesFit(cmp, val, 0, Lits(text));
    FixedLits(cmp, val, 0, text);
    AfterSectionAtStar(cmp, val, key, b, |text|, None, []);
    var t := b.(vp := |text|, kp := b.wp + 1, wp := b.wp + 1, values := AddChars([[]], []));
    OutcomeLanded(cmp, val, key, b, t);
    Lost(cmp, val, key, t);
    NoWeight();
    GlobsFixed(cmp, Lits(text), tail, val, 0);
    TextCount(text);
    LitCountParts(Lits(text), tail);
  }

  lemma LostFromRun(cmp: Comparator, val: seq<Byte>, key: seq<Byte>, b: State)
    requires b.wp < |key| && b == START.(next := Quest, section := b.section, wp := b.wp) && WildAt(key, b.wp) == Quest
    requires var run := RunAt(key, b.wp + 1);
             && run.end < |key| && GoodTail(cmp, key, run.end + 1, false) && !GoodTail(cmp, key, run.end + 1, true)
             && Ends(val, 0, Samples(Lits(b.section) + run.tokens) + Lossy(cmp, key, run.end + 1))
    ensures var run := RunAt(key, b.wp + 1);
            Loses(cmp, val, key, Outcome(cmp, val, key, b), Lits(b.section) + run.tokens + Pattern(key, run.end), 0, 0)
  {
    hide FoundAt, Pattern, Lits, FixedAt, Globs, Finish, GoodTail, Outcome, Ends, Samples, Lossy, RunAt, Landed,
      AddChars, CaughtAt, LitCount, Weight, NoStar, WildCount;
    var text, run := b.section, RunAt(key, b.wp + 1);
    var tokens, more := Lits(text) + run.tokens, Lossy(cmp, key, run.end + 1);
    LitsLength(text);
    RunRest(key, b.wp + 1);
    NoStarParts(Lits(text), run.tokens);
    FitsInFront(cmp, val, text, run.tokens, more);
    FixedFits(cmp, val, |text|, run.tokens);
    FixedLits(cmp, val, 0, text);
    FixedParts(cmp, val, 0, Lits(text), run.tokens);
    var t := StartLanding(cmp, val, key, b);
    Lost(cmp, val, key, t);
    RunWeight(val, text, run.tokens);
    GlobsFixed(cmp, tokens, Pattern(key, run.end), val, 0);
    TextCount(text);
    LitCountParts(Lits(text), run.tokens);
    LitCountParts(tokens, Pattern(key, run.end));
  }

  lemma RunWeight(val: seq<Byte>, text: seq<Byte>, tokens: seq<Token>)
    requires NoStar(tokens) && |text| + |tokens| <= |val|
    ensures Weight(AddChars([[]], [] + CaughtAt(tokens, val, |text|))) + LitCount(tokens) <= |tokens|
  {
    hide Weight, LitCount, WildCount, AddChars, Caught;
    NoWeight();
    AddCharsWeight([[]], [] + CaughtAt(tokens, val, |text|));
    CaughtCount(tokens, val, |text|);
    FixedCounts(tokens);
  }

  // The matcher decides the value correctly, and records what each wildcard stands for.
  ghost predicate Right(cmp: Comparator, val: seq<Byte>, key: seq<Byte>)
  {
    var r := MatchResult(cmp, val, key);
    && (r.Some? <==> Globs(cmp, Pattern(key, 0), val, 0))
    && (r.Some? ==> r.value != [] && r.value[0] == val && Fills(cmp, Pattern(key, 0), val, 0, r.value[1..]))
  }

  lemma LosingIsNotRight(cmp: Comparator, key: seq<Byte>)
    requires GoodKey(cmp, key, false) && !GoodKey(cmp, key, true)
    ensures !Right(cmp, Losing(cmp, key), key)
  {
    hide Pattern, Lits, Loop, GoodTail, Section, Begin, Outcome, RunAt, Globs, Finish, Samples, Lossy, LitCount, Weight,
      Fills;
    var val, r := Losing(cmp, key), Section(key, 0);
    SectionPattern(key, 0);
    BeginStart(key);
    LoopIsOutcome(cmp, val, key, START);
    var b := Begin(key, START);
    if b.next == Star {
      LostFromStar(cmp, val, key, b);
    } else {
      RunPattern(key, r.1 + 1);
      var run := RunAt(key, r.1 + 1);
      assert Lits(r.0) + (run.tokens + Pattern(key, run.end)) == Lits(r.0) + run.tokens + Pattern(key, run.end);
      LostFromRun(cmp, val, key, b);
    }
    TooLight(cmp, val, key, Loop(cmp, val, key, START));
  }

  // Match values that are too short do not fill the pattern.
  lemma TooLight(cmp: Comparator, val: seq<Byte>, key: seq<Byte>, end: State)
    requires end == Loop(cmp, val, key, START) && Loses(cmp, val, key, end, Pattern(key, 0), 0, 0)
    ensures !Right(cmp, val, key)
  {
    hide Pattern, Loop, Globs, Finish, LitCount, Fills;
    if Right(cmp, val, key) {
      assert end.values[0 := val][1..] == end.values[1..];
      FillsWeight(cmp, Pattern(key, 0), val, 0, end.values[1..]);
    }
  }

  lemma KeptIsRight(cmp: Comparator, val: seq<Byte>, key: seq<Byte>)
    requires GoodKey(cmp, key, true) && WildCount(Pattern(key, 0)) < MAX_MATCH_VALUES
    ensures Right(cmp, val, key)
  {
    hide Globs, Pattern, MatchResult, GoodKey, Fills, WildCount;
    MatcherIsExactOnGoodKeys(cmp, val, key, true);
  }

  lemma ConfusedIsNotRight(cmp: Comparator, key: seq<Byte>)
    requires !GoodKey(cmp, key, false)
    ensures !Right(cmp, Confusing(cmp, key), key)
  {
    hide Globs, Pattern, MatchResult, GoodKey, Fills;
    BadKeysAreConfused(cmp, key);
  }
}
