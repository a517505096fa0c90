// For every key that is not good behind one of its stars, a value that is refused there although it
// is an instance of the rest of the pattern.
module MatchesRefused {
  import opened Bytes
  import opened Glob
  import opened Fixed
  import opened Matches
  import opened Keys
  import opened MatchesCorrect
  import opened Instances

  // ----- The matcher does not take less than the pattern -----

  // With too little of the value left for the rest of the pattern, the match fails.
  lemma {:induction false} TooShort(cmp: Comparator, val: seq<Byte>, key: seq<Byte>, s: State)
    requires BehindStar(s, val, key) && s.kp < |key| && |val| - s.vp < Size(Pattern(key, s.kp))
    ensures !Finish(val, key, Loop(cmp, val, key, s))
    decreases |key| - s.kp, 2
  {
    hide Loop, Pattern, Outcome, Begin, Piece, Needle, RunAt, SkipStars, Size, Finish;
    if s.vp == |val| {
      TooShortAtEnd(cmp, val, key, s);
    } else {
      LoopIsOutcome(cmp, val, key, s);
      BeginBehindStar(val, key, s);
      var b := Begin(key, s);
      match b.next {
        case NoWild =>
          PieceAtEnd(key, s.wp);
          PieceSize(b.offset, b.section);
          TooShortAtLast(cmp, val, key, b);
        case Star =>
          PieceAtStar(key, s.wp);
          PieceSize(b.offset, b.section);
          SizeParts(Piece(b.offset, b.section), [AnyString] + Pattern(key, b.wp + 1));
          SizeStar(Pattern(key, b.wp + 1));
          TooShortAtStar(cmp, val, key, b);
        case Quest =>
          PieceAtRun(key, s.wp);
          PieceSize(b.offset, b.section);
          var run := RunAt(key, b.wp + 1);
          RunRest(key, b.wp + 1);
          SizeFixed(run.tokens);
          SizeParts(Piece(b.offset, b.section), run.tokens);
          SizeParts(Piece(b.offset, b.section) + run.tokens, Pattern(key, run.end));
          TooShortAtRun(cmp, val, key, b);
      }
    }
  }

  lemma PieceSize(offset: nat, text: seq<Byte>)
    ensures NoStar(Piece(offset, text)) && Size(Piece(offset, text)) == |Piece(offset, text)| == offset + |text|
  {
    hide Lits, Size;
    LitsLength(text);
    SizeFixed(Piece(offset, text));
  }

  lemma TooShortAtEnd(cmp: Comparator, val: seq<Byte>, key: seq<Byte>, s: State)
    requires BehindStar(s, val, key) && s.kp < |key| && s.vp == |val| && 0 < Size(Pattern(key, s.kp))
    ensures !Finish(val, key, Loop(cmp, val, key, s))
  {
    hide Pattern, SkipStars, Size;
    SkipStarsPattern(key, s.kp);
    if AllStars(Pattern(key, s.kp)) { SizeStars(Pattern(key, s.kp)); }
  }

  lemma TooShortAtLast(cmp: Comparator, val: seq<Byte>, key: seq<Byte>, b: State)
    requires Ready(b, val, key) && b.next == NoWild && b.vp + b.offset + |b.section| > |val|
    ensures !Finish(val, key, Outcome(cmp, val, key, b))
  {
    hide FoundAt, SkipStars, AddChars;
  }

  lemma {:induction false} TooShortAtStar(cmp: Comparator, val: seq<Byte>, key: seq<Byte>, b: State)
    requires Ready(b, val, key) && b.next == Star && b.mvalue == [] && b.wp < |key|
    requires b.section != [] || b.offset > 0 ==> SkipStars(key, b.kp) == b.kp
    requires |val| - b.vp < b.offset + |b.section| + Size(Pattern(key, b.wp + 1))
    ensures !Finish(val, key, Outcome(cmp, val, key, b))
    decreases |key| - b.kp, 1
  {
    hide FoundAt, Find, Pattern, Outcome, SkipStars, Size, Finish, Recorded, Landed, BehindStar;
    var found := Find(cmp, val, b.vp + b.offset, b.section);
    FindNothing(cmp, val, b.vp + b.offset, b.section);
    if b.vp + b.offset >= |val| || found.None? {
      NoTextFound(cmp, val, key, b);
    } else {
      FindBounds(cmp, val, b.vp + b.offset, b.section);
      var t := StarLanding(cmp, val, key, b, found.value);
      TooShortLanded(cmp, val, key, t);
    }
  }

  lemma FindBounds(cmp: Comparator, val: seq<Byte>, at: nat, text: seq<Byte>)
    ensures var r := Find(cmp, val, at, text); r.Some? ==> at <= r.value && r.value + |text| <= |val|
  {
  }

  lemma {:induction false} TooShortLanded(cmp: Comparator, val: seq<Byte>, key: seq<Byte>, t: State)
    requires BehindStar(t, val, key) && |val| - t.vp < Size(Pattern(key, t.kp))
    ensures !Finish(val, key, Landed(cmp, val, key, t))
    decreases |key| - t.kp, 3
  {
    hide Loop, Pattern, Finish;
    SkipStarsEnds(key);
    if t.kp < |key| { TooShort(cmp, val, key, t); }
  }

  // The state in which the round leaves a text found in front of a star.
  lemma StarLanding(cmp: Comparator, val: seq<Byte>, key: seq<Byte>, b: State, found: nat) returns (t: State)
    requires Ready(b, val, key) && b.next == Star && b.mvalue == [] && b.wp < |key|
    requires b.vp + b.offset < |val| && Find(cmp, val, b.vp + b.offset, b.section) == Some(found)
    requires b.vp + b.offset <= found && found + |b.section| <= |val|
    ensures BehindStar(t, val, key) && t.kp == b.wp + 1 && t.vp == found + |b.section|
    ensures t.values == Recorded(b.values, val[b.vp..found - b.offset], val[found - b.offset..found])
    ensures Outcome(cmp, val, key, b) == Landed(cmp, val, key, t)
  {
    hide Find, FoundAt, Recorded, MiddleSection, Outcome, Landed;
    var at := found - b.offset;
    t := b.(mvalue := val[b.vp..at], vp := found + |b.section|, kp := b.wp + 1, wp := b.wp + 1,
            values := Recorded(b.values, val[b.vp..at], val[at..found]));
    MiddleAtStar(cmp, val, key, b, found);
    OutcomeLanded(cmp, val, key, b, t);
  }

  lemma {:induction false} TooShortAtRun(cmp: Comparator, val: seq<Byte>, key: seq<Byte>, b: State)
    requires Ready(b, val, key) && b.next == Quest && b.wp < |key| && b.section != []
    requires var run := RunAt(key, b.wp + 1);
             |val| - b.vp < b.offset + |b.section| + |run.tokens| + Size(Pattern(key, run.end))
    ensures !Finish(val, key, Outcome(cmp, val, key, b))
    decreases |key| - b.kp, 1, |val| - b.vp
  {
    hide FixedAt, FoundAt, Find, Outcome, RunAt, Finish, Size, Pattern, RunFits, Landed, Recorded, CaughtAt;
    var run := RunAt(key, b.wp + 1);
    var r := Find(cmp, val, b.vp + b.offset, b.section);
    FindBounds(cmp, val, b.vp + b.offset, b.section);
    if b.vp + b.offset >= |val| || r.None? {
      HuntFindsNothing(cmp, val, key, b);
    } else {
      var found := r.value;
      if RunFits(cmp, val, key, found + |b.section|, run) {
        var t := LuckyTry(cmp, val, key, b, found);
        RunRest(key, b.wp + 1);
        if run.end < |key| {
          SizeStar(Pattern(key, run.end + 1));
          TooShortLanded(cmp, val, key, t);
        } else {
          SizeStars([]);
        }
      } else {
        HopelessTry(cmp, val, key, b, found);
        if found + 1 < |val| {
          var star := b.mvalue + val[b.vp..found - b.offset];
          TooShortAtRun(cmp, val, key, b.(vp := found + 1, mvalue := star + [val[found]]));
        } else {
          HuntEnds(val, key, Outcome(cmp, val, key, b));
        }
      }
    }
  }

  // ----- Values a good match of which is refused -----

  // How much further on the match is that is passed over.
  ghost function MissDistance(cmp: Comparator, text: seq<Byte>, offset: nat, run: Run, last: bool): (d: nat)
    requires Misses(cmp, text, offset, run, last)
    ensures 1 <= d <= offset && MissesBy(cmp, text, run, last, d)
  {
    var d: nat :| 1 <= d <= offset && MissesBy(cmp, text, run, last, d);
    d
  }

  // For a key that is not good behind the star in front of `p`, a value that is refused there: it
  // fits in the first place up to the part of the key that is not good.
  ghost function Refusal(cmp: Comparator, key: seq<Byte>, p: nat): (v: seq<Byte>)
    requires p <= |key| && !GoodTail(cmp, key, p, false)
    ensures v != []
    decreases |key| - p
  {
    var n := Needle(key, p, 0, Star);
    if WildAt(key, n.1) == Star then
      if n.0 == [] && n.2 > 0 && SkipStars(key, n.1) == |key| then Samples(Anys(n.2))
      else Samples(Piece(n.2, n.0)) + Refusal(cmp, key, n.1 + 1)
    else
      var run := RunAt(key, n.1 + 1);
      if run.end == |key| && !run.open then Samples(Piece(n.2, n.0) + run.tokens) + Samples(Lits(n.0) + run.tokens)
      else if Misses(cmp, n.0, n.2, run, run.end == |key|) then
        var d := MissDistance(cmp, n.0, n.2, run, run.end == |key|);
        Samples(Anys(n.2)) + (Twice(cmp, n.0, Lits(n.0) + run.tokens, d) + Least(Pattern(key, run.end)))
      else Samples(Piece(n.2, n.0) + run.tokens) + Refusal(cmp, key, run.end + 1)
  }

  // The value ends with `v`, which begins at `at`.
  ghost predicate Ends(val: seq<Byte>, at: nat, v: seq<Byte>) { Has(val, at, v) && at + |v| == |val| }

  lemma EndsParts(val: seq<Byte>, at: nat, a: seq<Byte>, b: seq<Byte>)
    requires Ends(val, at, a + b)
    ensures Has(val, at, a) && Ends(val, at + |a|, b)
  {
    HasParts(val, at, a, b);
  }

  ghost predicate Refuses(cmp: Comparator, val: seq<Byte>, key: seq<Byte>, end: State, pattern: seq<Token>, at: nat)
    requires end.kp <= |key| && at <= |val|
  {
    !Finish(val, key, end) && Globs(cmp, pattern, val, at)
  }

  lemma FindAtOnce(cmp: Comparator, val: seq<Byte>, at: nat, text: seq<Byte>)
    requires FoundAt(cmp, val, at, text)
    ensures Find(cmp, val, at, text) == Some(at) && at + |text| <= |val|
  {
  }

  // '?' alone between stars.
  lemma RefusesQuestions(cmp: Comparator, val: seq<Byte>, key: seq<Byte>, b: State)
    requires Ready(b, val, key) && b.next == Star && b.wp < |key| && SkipStars(key, b.kp) == b.kp
    requires b.section == [] && SkipStars(key, b.wp) == |key| && b.vp + b.offset == |val|
    ensures Refuses(cmp, val, key, Outcome(cmp, val, key, b),
                    [AnyString] + (Piece(b.offset, []) + ([AnyString] + Pattern(key, b.wp + 1))), b.vp)
  {
    hide Globs, FixedAt, FoundAt, Find, Piece, SkipStars, Outcome, Finish;
    var tail := Pattern(key, b.wp + 1);
    NoTextFound(cmp, val, key, b);
    SkipStarsPattern(key, b.wp);
    PieceAt(cmp, val, b.vp, b.offset, []);
    FoundEmpty(cmp, val, |val|, []);
    GlobsHere(cmp, Piece(b.offset, []), tail, val, b.vp);
    GlobsNothing(cmp, [AnyString] + tail, val);
  }

  // A text that stands at once where it may, in front of a star.
  lemma ThroughStar(cmp: Comparator, val: seq<Byte>, key: seq<Byte>, b: State) returns (t: State)
    requires Ready(b, val, key) && b.next == Star && b.mvalue == [] && b.wp < |key|
    requires Has(val, b.vp, Samples(Piece(b.offset, b.section))) && b.vp + b.offset < |val|
    ensures BehindStar(t, val, key) && t.kp == b.wp + 1 && t.vp == b.vp + |Piece(b.offset, b.section)|
    ensures t.values == Recorded(b.values, val[b.vp..b.vp], val[b.vp..b.vp + b.offset])
    ensures Outcome(cmp, val, key, b) == Landed(cmp, val, key, t)
    ensures Globs(cmp, [AnyString] + (Piece(b.offset, b.section) + ([AnyString] + Pattern(key, b.wp + 1))), val, b.vp)
            <==> Globs(cmp, [AnyString] + Pattern(key, b.wp + 1), val, t.vp)
  {
    hide Globs, FixedAt, FoundAt, Find, Piece, Outcome, Landed, Pattern, Samples, Has, Recorded;
    var tokens := Piece(b.offset, b.section);
    PieceAt(cmp, val, b.vp, b.offset, b.section);
    SamplesFit(cmp, val, b.vp, tokens);
    FindAtOnce(cmp, val, b.vp + b.offset, b.section);
    t := StarLanding(cmp, val, key, b, b.vp + b.offset);
    GlobsHere(cmp, tokens, Pattern(key, b.wp + 1), val, b.vp);
  }

  // The same in front of a '?', with the run behind it.
  lemma ThroughRun(cmp: Comparator, val: seq<Byte>, key: seq<Byte>, b: State) returns (t: State)
    requires Ready(b, val, key) && b.next == Quest && b.wp < |key| && b.section != []
    requires Has(val, b.vp, Samples(Piece(b.offset, b.section) + RunAt(key, b.wp + 1).tokens))
    requires var run := RunAt(key, b.wp + 1); run.end == |key| ==> !run.open
    ensures var run := RunAt(key, b.wp + 1);
            && InBounds(t, val, key) && !t.backtrack && t.kp == t.wp == Behind(key, run.end)
               && t.next == WildAt(key, run.end)
            && t.vp == b.vp + |Piece(b.offset, b.section) + run.tokens|
            && FixedAt(cmp, val, b.vp, Piece(b.offset, b.section) + run.tokens)
            && Outcome(cmp, val, key, b) == if run.end < |key| then Landed(cmp, val, key, t) else t
  {
    hide Globs, FixedAt, FoundAt, Find, Piece, Outcome, Landed, Pattern, Samples, Has, RunAt, Recorded, CaughtAt;
    var run := RunAt(key, b.wp + 1);
    var tokens := Piece(b.offset, b.section) + run.tokens;
    RunRest(key, b.wp + 1);
    PieceAt(cmp, val, b.vp, b.offset, b.section);
    assert NoStar(tokens);
    SamplesFit(cmp, val, b.vp, tokens);
    FixedParts(cmp, val, b.vp, Piece(b.offset, b.section), run.tokens);
    FixedFits(cmp, val, b.vp, tokens);
    FindAtOnce(cmp, val, b.vp + b.offset, b.section);
    t := LuckyTry(cmp, val, key, b, b.vp + b.offset);
  }

  // The last stretch ends in text, and the value has it twice: the first is taken.
  lemma RefusesDouble(cmp: Comparator, val: seq<Byte>, key: seq<Byte>, b: State)
    requires Ready(b, val, key) && b.next == Quest && b.wp < |key| && b.section != []
    requires var run := RunAt(key, b.wp + 1);
             && run.end == |key| && !run.open
             && Ends(val, b.vp, Samples(Piece(b.offset, b.section) + run.tokens)
                     + Samples(Lits(b.section) + run.tokens))
    ensures Refuses(cmp, val, key, Outcome(cmp, val, key, b), HuntPattern(key, b), b.vp)
  {
    hide Globs, FixedAt, FoundAt, Find, Piece, Outcome, Landed, Pattern, Samples, Has, RunAt, Lits, Finish;
    var run, text, o := RunAt(key, b.wp + 1), b.section, b.offset;
    var tokens, stretch := Piece(o, text) + run.tokens, Lits(text) + run.tokens;
    RunRest(key, b.wp + 1);
    LitsLength(text);
    EndsParts(val, b.vp, Samples(tokens), Samples(stretch));
    var t := ThroughRun(cmp, val, key, b);
    ShortOfEnd(val, key, t);
    PieceAt(cmp, val, b.vp, o, text);
    SamplesFit(cmp, val, t.vp, stretch);
    FixedParts(cmp, val, t.vp, Lits(text), run.tokens);
    FixedLits(cmp, val, t.vp, text);
    PieceAt(cmp, val, t.vp - o, o, text);
    FixedParts(cmp, val, t.vp - o, Piece(o, text), run.tokens);
    assert tokens + [] == tokens;
    GlobsLast(cmp, tokens, val, b.vp);
  }

  // The text begins twice, and the second is passed over.
  lemma RefusesTwice(cmp: Comparator, val: seq<Byte>, key: seq<Byte>, b: State, d: nat)
    requires Ready(b, val, key) && b.next == Quest && b.wp < |key| && b.section != []
    requires var run := RunAt(key, b.wp + 1);
             && 1 <= d <= b.offset && MissesBy(cmp, b.section, run, run.end == |key|, d)
                && (run.end == |key| ==> run.open)
             && Ends(val, b.vp, Samples(Anys(b.offset))
                                + (Twice(cmp, b.section, Lits(b.section) + run.tokens, d)
                                   + Least(Pattern(key, run.end))))
    ensures Refuses(cmp, val, key, Outcome(cmp, val, key, b), HuntPattern(key, b), b.vp)
  {
    hide Globs, FixedAt, FoundAt, Find, Piece, Outcome, Pattern, Samples, RunAt, Lits, Finish, Twice, Least, MissesBy,
      Size, Anys, Has, RunFits, Ends, NoStar, Overlaps;
    var run, text, o := RunAt(key, b.wp + 1), b.section, b.offset;
    var stretch, rest, at := Lits(text) + run.tokens, Pattern(key, run.end), b.vp + b.offset;
    RunRest(key, b.wp + 1);
    LitsLength(text);
    TwiceLayout(cmp, val, b.vp, o, text, stretch, d, Least(rest));
    MissedHere(cmp, val, key, text, run, d, at);
    GoesOnInVain(cmp, val, key, b);
    SecondIsInstance(cmp, val, key, text, o, run, d, b.vp);
  }

  // The text is found at once, and behind it there is too little left.
  lemma GoesOnInVain(cmp: Comparator, val: seq<Byte>, key: seq<Byte>, b: State)
    requires Ready(b, val, key) && b.next == Quest && b.wp < |key| && b.section != []
    requires var run, at := RunAt(key, b.wp + 1), b.vp + b.offset;
             && FoundAt(cmp, val, at, b.section) && !RunFits(cmp, val, key, at + |b.section|, run) && at + 1 < |val|
             && |val| - at - 1 < b.offset + |b.section| + |run.tokens| + Size(Pattern(key, run.end))
    ensures !Finish(val, key, Outcome(cmp, val, key, b))
  {
    hide FixedAt, FoundAt, Find, Outcome, RunAt, Finish, Size, Pattern, RunFits;
    var at := b.vp + b.offset;
    FindAtOnce(cmp, val, at, b.section);
    HopelessTry(cmp, val, key, b, at);
    TooShortAtRun(cmp, val, key, b.(vp := at + 1, mvalue := b.mvalue + val[b.vp..at - b.offset] + [val[at]]));
  }

  lemma TwiceLayout(cmp: Comparator, val: seq<Byte>, vp: nat, o: nat, text: seq<Byte>, stretch: seq<Token>, d: nat,
                    more: seq<Byte>)
    requires |text| <= |stretch| && Ends(val, vp, Samples(Anys(o)) + (Twice(cmp, text, stretch, d) + more))
    ensures var at := vp + o;
            && FoundAt(cmp, val, at, text) && Has(val, at, Twice(cmp, text, stretch, d))
            && Ends(val, at + d + |stretch|, more) && at + d + |stretch| + |more| == |val|
  {
    hide Has, FoundAt, Samples, Anys, Twice;
    EndsParts(val, vp, Samples(Anys(o)), Twice(cmp, text, stretch, d) + more);
    EndsParts(val, vp + o, Twice(cmp, text, stretch, d), more);
    TwiceHasText(cmp, val, vp + o, text, stretch, d);
  }

  lemma SecondIsInstance(cmp: Comparator, val: seq<Byte>, key: seq<Byte>, text: seq<Byte>, o: nat, run: Run, d: nat,
                         vp: nat)
    requires run.end <= |key| && NoStar(run.tokens) && MissesBy(cmp, text, run, run.end == |key|, d)
    requires Has(val, vp + o, Twice(cmp, text, Lits(text) + run.tokens, d))
    requires Ends(val, vp + o + d + |text| + |run.tokens|, Least(Pattern(key, run.end)))
    ensures vp <= |val|
    ensures Globs(cmp, [AnyString] + (Piece(o, text) + run.tokens + Pattern(key, run.end)), val, vp)
  {
    hide Globs, FixedAt, FoundAt, Piece, Pattern, Lits, Twice, Least, Overlaps, Loose, Size, Has;
    var tokens, rest, at := Piece(o, text) + run.tokens, Pattern(key, run.end), vp + o + d;
    LitsLength(text);
    TwiceHasTokens(cmp, val, vp + o, text, run.tokens, d);
    FixedParts(cmp, val, at, Lits(text), run.tokens);
    FixedLits(cmp, val, at, text);
    PieceAt(cmp, val, vp + d, o, text);
    FixedParts(cmp, val, vp + d, Piece(o, text), run.tokens);
    LeastGlobs(cmp, rest, val, at + |text| + |run.tokens|);
    GlobsFixed(cmp, tokens, rest, val, vp + d);
    GlobsStar(cmp, tokens + rest, val, vp, vp + d);
  }

  lemma MissedHere(cmp: Comparator, val: seq<Byte>, key: seq<Byte>, text: seq<Byte>, run: Run, d: nat, at: nat)
    requires 1 <= d && MissesBy(cmp, text, run, run.end == |key|, d) && (run.end == |key| ==> run.open)
    requires |Lits(text)| == |text|
    requires var stretch := Lits(text) + run.tokens;
             Has(val, at, Twice(cmp, text, stretch, d)) && at + d + |stretch| <= |val|
    ensures !RunFits(cmp, val, key, at + |text|, run)
  {
    hide FixedAt, Lits, Has, Twice, Overlaps, Loose;
    if run.end != |key| { TwiceFitsOnce(cmp, val, at, text, run.tokens, d); }
  }

  lemma GoodAtEnd(cmp: Comparator, key: seq<Byte>, p: nat, kept: bool)
    requires p <= |key| && WildAt(key, Needle(key, p, 0, Star).1) == NoWild
    ensures GoodTail(cmp, key, p, kept)
  {
  }

  lemma NothingBehind(cmp: Comparator, key: seq<Byte>, kept: bool)
    ensures GoodTail(cmp, key, |key|, kept)
  {
  }

  // The value made up for the key is refused, although it is an instance of the pattern.
  lemma {:induction false} Refused(cmp: Comparator, val: seq<Byte>, key: seq<Byte>, s: State)
    requires BehindStar(s, val, key) && !GoodTail(cmp, key, s.kp, false) && Ends(val, s.vp, Refusal(cmp, key, s.kp))
    ensures Refuses(cmp, val, key, Landed(cmp, val, key, s), [AnyString] + Pattern(key, s.kp), s.vp)
    decreases |key| - s.kp, 1
  {
    hide Loop, Pattern, Outcome, Begin, Piece, Needle, RunAt, SkipStars, GoodTail, Refusal, Refuses, Has, Misses;
    NothingBehind(cmp, key, false);
    LoopIsOutcome(cmp, val, key, s);
    BeginBehindStar(val, key, s);
    var b := Begin(key, s);
    if b.next == Star {
      PieceAtStar(key, s.wp);
      RefusedAtStar(cmp, val, key, s, b);
    } else if b.next == Quest {
      PieceAtRun(key, s.wp);
      RefusedAtRun(cmp, val, key, s, b);
    } else {
      GoodAtEnd(cmp, key, s.kp, false);
    }
  }

  lemma {:induction false} RefusedAtStar(cmp: Comparator, val: seq<Byte>, key: seq<Byte>, s: State, b: State)
    requires BehindStar(s, val, key) && s.kp < |key| && s.vp < |val| && b == Begin(key, s) && b.next == Star
    requires !GoodTail(cmp, key, s.kp, false) && Ends(val, s.vp, Refusal(cmp, key, s.kp))
    requires Outcome.requires(cmp, val, key, b)
    ensures Refuses(cmp, val, key, Outcome(cmp, val, key, b), [AnyString] + Pattern(key, s.kp), s.vp)
    decreases |key| - s.kp, 0
  {
    hide Loop, Pattern, Outcome, Begin, Piece, Needle, RunAt, SkipStars, GoodTail, Has, Misses, Samples, Globs, Finish,
      Recorded;
    BeginBehindStar(val, key, s);
    PieceAtStar(key, s.wp);
    TailAtStar(cmp, key, s.wp, false);
    var tokens, tail := Piece(b.offset, b.section), Pattern(key, b.wp + 1);
    PieceSize(b.offset, b.section);
    if b.section == [] && b.offset > 0 && SkipStars(key, b.wp) == |key| {
      RefusesQuestions(cmp, val, key, b);
    } else {
      var more := Refusal(cmp, key, b.wp + 1);
      EndsParts(val, s.vp, Samples(tokens), more);
      var t := ThroughStar(cmp, val, key, b);
      Refused(cmp, val, key, t);
    }
  }

  lemma RefusalAtRun(cmp: Comparator, key: seq<Byte>, p: nat)
    requires p <= |key| && !GoodTail(cmp, key, p, false)
    requires WildAt(key, Needle(key, p, 0, Star).1) == Quest && Needle(key, p, 0, Star).1 < |key|
    ensures var n := Needle(key, p, 0, Star);
            var run, last := RunAt(key, n.1 + 1), RunAt(key, n.1 + 1).end == |key|;
            var v, piece, stretch := Refusal(cmp, key, p), Piece(n.2, n.0), Lits(n.0) + run.tokens;
            if last && !run.open then v == Samples(piece + run.tokens) + Samples(stretch)
            else if Misses(cmp, n.0, n.2, run, last) then
              var d := MissDistance(cmp, n.0, n.2, run, last);
              v == Samples(Anys(n.2)) + (Twice(cmp, n.0, stretch, d) + Least(Pattern(key, run.end)))
            else
              && !last && !GoodTail(cmp, key, run.end + 1, false)
              && v == Samples(piece + run.tokens) + Refusal(cmp, key, run.end + 1)
  {
    hide Needle, RunAt, SkipStars, Misses, Samples, Lits, Least, Twice, Piece, Pattern, Anys;
  }

  lemma {:induction false} RefusedAtRun(cmp: Comparator, val: seq<Byte>, key: seq<Byte>, s: State, b: State)
    requires BehindStar(s, val, key) && s.kp < |key| && s.vp < |val| && b == Begin(key, s) && b.next == Quest
    requires !GoodTail(cmp, key, s.kp, false) && Ends(val, s.vp, Refusal(cmp, key, s.kp))
    requires Outcome.requires(cmp, val, key, b)
    ensures Refuses(cmp, val, key, Outcome(cmp, val, key, b), [AnyString] + Pattern(key, s.kp), s.vp)
    decreases |key| - s.kp, 0
  {
    hide Loop, Pattern, Outcome, Begin, Piece, Needle, RunAt, SkipStars, GoodTail, Ends, Misses, Samples, Globs, Finish,
      Lits, Least, Twice, Refusal;
    BeginBehindStar(val, key, s);
    PieceAtRun(key, s.wp);
    TailAtRun(cmp, key, s.wp, false);
    RefusalAtRun(cmp, key, s.wp);
    var run := RunAt(key, b.wp + 1);
    var tokens := Piece(b.offset, b.section) + run.tokens;
    if run.end == |key| && !run.open {
      RefusesDouble(cmp, val, key, b);
    } else if Misses(cmp, b.section, b.offset, run, run.end == |key|) {
      RefusesTwice(cmp, val, key, b, MissDistance(cmp, b.section, b.offset, run, run.end == |key|));
    } else {
      var more, tail := Refusal(cmp, key, run.end + 1), Pattern(key, run.end + 1);
      EndsParts(val, s.vp, Samples(tokens), more);
      var t := ThroughRun(cmp, val, key, b);
      RunRest(key, b.wp + 1);
      PieceSize(b.offset, b.section);
      GlobsHere(cmp, tokens, tail, val, s.vp);
      Refused(cmp, val, key, t);
    }
  }
}
