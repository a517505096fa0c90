// The keys outside `GoodKey` are matched wrongly, every one of them on some value: the matcher is
// exact on a key if and only if the key is good.
module MatchesExact {
  import opened Bytes
  import opened Glob
  import opened Fixed
  import opened Matches
  import opened Keys
  import opened MatchesCorrect
  import opened Instances
  import opened MatchesRefused

  // ----- Values that are taken whatever stands in front of them -----

  function Repeated(n: nat, z: Byte): (v: seq<Byte>)
    ensures |v| == n
  {
    seq(n, _ => z)
  }

  lemma RepeatedAt(n: nat, z: Byte, i: nat)
    requires i < n
    ensures Repeated(n, z)[i] == z
  {
  }

  function HeadOf(text: seq<Byte>, y: Byte): Byte { if text == [] then y else text[0] }

  // A value that matches behind the star in front of `p` and does not begin with `y`. Every text is
  // kept away from the place where it could be found too early.
  function Welcome(cmp: Comparator, key: seq<Byte>, p: nat, y: Byte): (v: seq<Byte>)
    requires p <= |key|
    ensures v != [] && !Same(cmp, HeadOf(v, y), y)
    decreases |key| - p
  {
    var n := Needle(key, p, 0, Star);
    var z := Other(cmp, y, HeadOf(n.0, y));
    match WildAt(key, n.1)
    case NoWild => Repeated(n.2 + 1, z) + n.0
    case Star =>
      if n.0 == [] then Repeated(n.2, z) + Welcome(cmp, key, n.1 + 1, y)
      else Repeated(n.2 + 1, z) + (n.0 + Welcome(cmp, key, n.1 + 1, y))
    case Quest =>
      var run := RunAt(key, n.1 + 1);
      var more := if run.end < |key| then Welcome(cmp, key, run.end + 1, y) else [];
      Repeated(n.2 + 1, z) + (n.0 + (Samples(run.tokens) + more))
  }

  lemma FindNext(cmp: Comparator, val: seq<Byte>, at: nat, text: seq<Byte>)
    requires text != [] && at < |val| && !Same(cmp, val[at], text[0]) && FoundAt(cmp, val, at + 1, text)
    ensures Find(cmp, val, at, text) == Some(at + 1)
  {
    FindAtOnce(cmp, val, at + 1, text);
    Differs(cmp, val, at, text, 0);
  }

  // A text held off by one byte is found there.
  lemma HeldOff(cmp: Comparator, val: seq<Byte>, vp: nat, offset: nat, text: seq<Byte>, z: Byte, more: seq<Byte>)
    requires text != [] && !Same(cmp, z, text[0]) && Ends(val, vp, Repeated(offset + 1, z) + (text + more))
    ensures var at := vp + offset + 1;
            && Find(cmp, val, vp + offset, text) == Some(at) && at + |text| <= |val| && Ends(val, at + |text|, more)
  {
    hide Has, Find, Repeated, Same;
    EndsParts(val, vp, Repeated(offset + 1, z), text + more);
    EndsParts(val, vp + offset + 1, text, more);
    HasByte(val, vp, Repeated(offset + 1, z), offset);
    RepeatedAt(offset + 1, z, offset);
    HasFound(cmp, val, vp + offset + 1, text);
    FindNext(cmp, val, vp + offset, text);
  }

  lemma HasFound(cmp: Comparator, val: seq<Byte>, at: nat, text: seq<Byte>)
    requires Has(val, at, text)
    ensures FoundAt(cmp, val, at, text)
  {
    hide Has;
    HasFits(val, at, text);
    forall i | 0 <= i < |text| ensures Same(cmp, val[at + i], text[i]) { HasByte(val, at, text, i); }
  }

  lemma {:induction false} Welcomed(cmp: Comparator, val: seq<Byte>, key: seq<Byte>, s: State, y: Byte)
    requires BehindStar(s, val, key) && Ends(val, s.vp, Welcome(cmp, key, s.kp, y))
    ensures Finish(val, key, Landed(cmp, val, key, s))
    decreases |key| - s.kp, 1
  {
    hide Loop, Outcome, Begin, Needle, RunAt, SkipStars, Welcome, Has, Finish;
    if s.kp == |key| {
      WelcomedAtEnd(cmp, val, key, s);
    } else {
      LoopIsOutcome(cmp, val, key, s);
      BeginBehindStar(val, key, s);
      var b := Begin(key, s);
      match b.next
      case NoWild => WelcomedAtLast(cmp, val, key, s, b, y);
      case Star => WelcomedAtStar(cmp, val, key, s, b, y);
      case Quest => WelcomedAtRun(cmp, val, key, s, b, y);
    }
  }

  lemma WelcomedAtEnd(cmp: Comparator, val: seq<Byte>, key: seq<Byte>, s: State)
    requires BehindStar(s, val, key) && s.kp == |key|
    ensures Finish(val, key, Landed(cmp, val, key, s))
  {
    SkipStarsEnds(key);
  }

  lemma WelcomedAtLast(cmp: Comparator, val: seq<Byte>, key: seq<Byte>, s: State, b: State, y: Byte)
    requires BehindStar(s, val, key) && s.kp < |key| && s.vp < |val| && b == Begin(key, s) && b.next == NoWild
    requires Ends(val, s.vp, Welcome(cmp, key, s.kp, y)) && Outcome.requires(cmp, val, key, b)
    ensures Finish(val, key, Outcome(cmp, val, key, b))
  {
    hide Begin, Needle, RunAt, SkipStars, Has, Repeated, FoundAt, AddChars;
    BeginBehindStar(val, key, s);
    SkipStarsEnds(key);
    var z := Other(cmp, y, HeadOf(b.section, y));
    EndsParts(val, s.vp, Repeated(b.offset + 1, z), b.section);
    HasFound(cmp, val, |val| - |b.section|, b.section);
  }

  lemma {:induction false} WelcomedAtStar(cmp: Comparator, val: seq<Byte>, key: seq<Byte>, s: State, b: State, y: Byte)
    requires BehindStar(s, val, key) && s.kp < |key| && s.vp < |val| && b == Begin(key, s) && b.next == Star
    requires Ends(val, s.vp, Welcome(cmp, key, s.kp, y)) && Outcome.requires(cmp, val, key, b)
    ensures Finish(val, key, Outcome(cmp, val, key, b))
    decreases |key| - s.kp, 0
  {
    hide Begin, Needle, RunAt, SkipStars, Has, Repeated, Find, FoundAt, Outcome, Finish, Landed, Same;
    BeginBehindStar(val, key, s);
    var z, more := Other(cmp, y, HeadOf(b.section, y)), Welcome(cmp, key, b.wp + 1, y);
    var found: nat;
    if b.section == [] {
      EndsParts(val, s.vp, Repeated(b.offset, z), more);
      found := s.vp + b.offset;
      FindNothing(cmp, val, found, []);
    } else {
      HeldOff(cmp, val, s.vp, b.offset, b.section, z, more);
      found := s.vp + b.offset + 1;
    }
    var t := StarLanding(cmp, val, key, b, found);
    Welcomed(cmp, val, key, t, y);
  }

  // The value as it is laid out: the text is held off by one byte, and the samples of the run follow it.
  lemma WelcomeLaidOut(cmp: Comparator, val: seq<Byte>, key: seq<Byte>, s: State, b: State, y: Byte)
    requires BehindStar(s, val, key) && s.kp < |key| && s.vp < |val| && b == Begin(key, s) && b.next == Quest
    requires Ends(val, s.vp, Welcome(cmp, key, s.kp, y))
    ensures Ready(b, val, key) && b.wp < |key| && b.section != [] && b.vp == s.vp
    ensures var run, found := RunAt(key, b.wp + 1), s.vp + b.offset + 1; var vp := found + |b.section|;
            && b.vp + b.offset < |val| && Find(cmp, val, b.vp + b.offset, b.section) == Some(found) && vp <= |val|
            && RunFits(cmp, val, key, vp, run) && run.end > s.kp
            && Ends(val, vp + |run.tokens|, if run.end < |key| then Welcome(cmp, key, run.end + 1, y) else [])
  {
    hide Begin, Needle, RunAt, SkipStars, Has, Repeated, Find, FoundAt, FixedAt, Same, Samples, Pattern, Welcome;
    BeginBehindStar(val, key, s);
    PieceAtRun(key, s.wp);
    WelcomeAtRun(cmp, key, s.wp, y);
    var z, run := Other(cmp, y, HeadOf(b.section, y)), RunAt(key, b.wp + 1);
    var more := if run.end < |key| then Welcome(cmp, key, run.end + 1, y) else [];
    HeldOff(cmp, val, s.vp, b.offset, b.section, z, Samples(run.tokens) + more);
    var vp := s.vp + b.offset + 1 + |b.section|;
    EndsParts(val, vp, Samples(run.tokens), more);
    RunRest(key, b.wp + 1);
    SamplesFit(cmp, val, vp, run.tokens);
  }

  lemma {:induction false} WelcomedAtRun(cmp: Comparator, val: seq<Byte>, key: seq<Byte>, s: State, b: State, y: Byte)
    requires BehindStar(s, val, key) && s.kp < |key| && s.vp < |val| && b == Begin(key, s) && b.next == Quest
    requires Ends(val, s.vp, Welcome(cmp, key, s.kp, y)) && Outcome.requires(cmp, val, key, b)
    ensures Finish(val, key, Outcome(cmp, val, key, b))
    decreases |key| - s.kp, 0
  {
    hide Begin, RunAt, Has, Find, FixedAt, Outcome, Landed, Welcome, Finish, RunFits, Recorded, CaughtAt;
    WelcomeLaidOut(cmp, val, key, s, b, y);
    var t := LuckyTry(cmp, val, key, b, s.vp + b.offset + 1);
    if RunAt(key, b.wp + 1).end < |key| { Welcomed(cmp, val, key, t, y); } else { AllDone(val, key, t); }
  }

  lemma AllDone(val: seq<Byte>, key: seq<Byte>, t: State)
    requires t.kp == |key| && t.vp == |val| && t.next == NoWild
    ensures Finish(val, key, t)
  {
    SkipStarsEnds(key);
  }

  lemma WelcomeAtRun(cmp: Comparator, key: seq<Byte>, p: nat, y: Byte)
    requires p <= |key| && WildAt(key, Needle(key, p, 0, Star).1) == Quest && Needle(key, p, 0, Star).1 < |key|
    ensures var n := Needle(key, p, 0, Star);
            var run, z := RunAt(key, n.1 + 1), Other(cmp, y, HeadOf(n.0, y));
            var more := if run.end < |key| then Welcome(cmp, key, run.end + 1, y) else [];
            Welcome(cmp, key, p, y) == Repeated(n.2 + 1, z) + (n.0 + (Samples(run.tokens) + more))
  {
    hide Needle, RunAt, Samples, Repeated, Same, Other, HeadOf;
  }

  // ----- Text that is passed over in front of the first star -----

  // A run without its last text, and where that text begins.
  function Stem(key: seq<Byte>, p: nat): (r: (seq<Token>, nat))
    requires p <= |key|
    ensures p <= r.1 <= |key|
    decreases |key| - p
  {
    var sub := Section(key, p);
    if WildAt(key, sub.1) == Quest then var r := Stem(key, sub.1 + 1); ([AnyChar] + (Lits(sub.0) + r.0), r.1)
    else ([AnyChar], p)
  }

  lemma {:induction false} StemOfRun(key: seq<Byte>, p: nat)
    requires p <= |key|
    ensures var run, stem := RunAt(key, p), Stem(key, p); var last := Section(key, stem.1);
            && run.tokens == stem.0 + Lits(last.0) && run.end == last.1 && (run.open <==> last.0 == [])
    decreases |key| - p
  {
    hide Section, Lits;
    var sub := Section(key, p);
    if WildAt(key, sub.1) == Quest {
      StemOfRun(key, sub.1 + 1);
      var stem := Stem(key, sub.1 + 1);
      var last := Lits(Section(key, stem.1).0);
      assert [AnyChar] + (Lits(sub.0) + (stem.0 + last)) == [AnyChar] + (Lits(sub.0) + stem.0) + last;
    }
  }

  // When only the last text fails, the state is left as if the text had not been there.
  lemma {:induction false} PassedOver(cmp: Comparator, val: seq<Byte>, key: seq<Byte>, q: Trail)
    requires q.vp <= |val| && q.kp == q.wp <= |key| && !q.failed && q.next == Quest
    requires var stem, run := Stem(key, q.wp), RunAt(key, q.wp);
             && run.end < |key| && !run.open && FixedAt(cmp, val, q.vp, stem.0)
             && !FoundAt(cmp, val, q.vp + |stem.0|, Section(key, stem.1).0)
    ensures var r, stem := Questions(cmp, val, key, q), Stem(key, q.wp);
            r.failed && r.vp == q.vp + |stem.0| && r.kp == stem.1 && r.wp == RunAt(key, q.wp).end && r.next == Star
    decreases |val| - q.vp
  {
    hide FixedAt, FoundAt, Section, Lits, Questions, RunAt, Stem;
    var sub, stem := Section(key, q.wp), Stem(key, q.wp);
    StemStep(key, q.wp);
    FixedFits(cmp, val, q.vp, stem.0);
    LitsLength(sub.0);
    if WildAt(key, sub.1) == Quest {
      FixedRunHead(cmp, val, q.vp, sub.0, Stem(key, sub.1 + 1).0);
      FoundEmpty(cmp, val, q.vp + 1, sub.0);
      QuestionsStep(cmp, val, key, q);
      PassedOver(cmp, val, key,
                 Trail(q.vp + 1 + |sub.0|, sub.1 + 1, sub.1 + 1, Quest, q.chars + [val[q.vp]], false));
    } else {
      QuestionsFail(cmp, val, key, q);
    }
  }

  lemma StemStep(key: seq<Byte>, p: nat)
    requires p <= |key|
    ensures var sub, stem, run := Section(key, p), Stem(key, p), RunAt(key, p);
            if WildAt(key, sub.1) == Quest then
              var stem', run' := Stem(key, sub.1 + 1), RunAt(key, sub.1 + 1);
              && stem == ([AnyChar] + (Lits(sub.0) + stem'.0), stem'.1) && run.end == run'.end && run.open == run'.open
              && |stem.0| == 1 + |Lits(sub.0)| + |stem'.0|
            else stem == ([AnyChar], p) && run.end == sub.1 && (run.open <==> sub.0 == [])
  {
    hide Section, Lits;
  }

  lemma QuestionsStep(cmp: Comparator, val: seq<Byte>, key: seq<Byte>, q: Trail)
    requires q.vp < |val| && q.kp == q.wp <= |key| && !q.failed && q.next == Quest
    requires var sub := Section(key, q.wp);
             WildAt(key, sub.1) == Quest && FoundAt(cmp, val, q.vp + 1, sub.0) && q.vp + 1 + |sub.0| <= |val|
    ensures var sub := Section(key, q.wp);
            Questions(cmp, val, key, q)
            == Questions(cmp, val, key,
                         Trail(q.vp + 1 + |sub.0|, sub.1 + 1, sub.1 + 1, Quest, q.chars + [val[q.vp]], false))
  {
    hide FoundAt, Section;
  }

  lemma QuestionsFail(cmp: Comparator, val: seq<Byte>, key: seq<Byte>, q: Trail)
    requires q.vp < |val| && q.kp == q.wp <= |key| && !q.failed && q.next == Quest
    requires var sub := Section(key, q.wp);
             sub.1 < |key| && WildAt(key, sub.1) == Star && !FoundAt(cmp, val, q.vp + 1, sub.0)
    ensures var r := Questions(cmp, val, key, q);
            r.failed && r.vp == q.vp + 1 && r.kp == q.kp && r.wp == Section(key, q.wp).1 && r.next == Star
  {
    hide FoundAt, Section;
  }

  // The next round goes on behind the star, wherever the value is.
  lemma PassesStar(cmp: Comparator, val: seq<Byte>, key: seq<Byte>, s: State, y: Byte)
    requires s.vp < |val| && s.kp < s.wp < |key| && s.next == Star == WildAt(key, s.wp) && !s.backtrack
    requires Ends(val, s.vp, Welcome(cmp, key, s.wp + 1, y))
    ensures InBounds(s, val, key) && Finish(val, key, Loop(cmp, val, key, s))
  {
    hide Loop, Outcome, Welcome, Has, Finish, Find, FoundAt, Landed;
    LoopIsOutcome(cmp, val, key, s);
    var b := Begin(key, s);
    assert Section(key, s.wp) == ([], s.wp) && Needle(key, s.wp, 0, Star) == ([], s.wp, 0);
    FindNothing(cmp, val, b.vp, []);
    var t := StarLanding(cmp, val, key, b, b.vp);
    Welcomed(cmp, val, key, t, y);
  }

  // ----- A value for every key that is not good -----

  ghost function Confusing(cmp: Comparator, key: seq<Byte>): seq<Byte>
    requires !GoodKey(cmp, key, false)
  {
    var s := Section(key, 0);
    if WildAt(key, s.1) == Star then Samples(Lits(s.0)) + Refusal(cmp, key, s.1 + 1)
    else
      var run := RunAt(key, s.1 + 1);
      if run.open then Samples(Lits(s.0) + run.tokens) + Refusal(cmp, key, run.end + 1)
      else
        var stem := Stem(key, s.1 + 1);
        Samples(Lits(s.0) + stem.0) + Welcome(cmp, key, run.end + 1, HeadOf(Section(key, stem.1).0, 0))
  }

  lemma RefusedFromStar(cmp: Comparator, val: seq<Byte>, key: seq<Byte>, b: State)
    requires b.wp < |key| && b == START.(next := Star, section := b.section, wp := b.wp)
    requires WildAt(key, b.wp) == Star && !GoodTail(cmp, key, b.wp + 1, false)
    requires Ends(val, 0, Samples(Lits(b.section)) + Refusal(cmp, key, b.wp + 1))
    ensures Refuses(cmp, val, key, Outcome(cmp, val, key, b), Lits(b.section) + ([AnyString] + Pattern(key, b.wp + 1)),
                    0)
  {
    hide FoundAt, Pattern, Lits, SkipStars, FixedAt, Globs, Finish, GoodTail, AfterSection, Outcome, Has, Samples,
      Refusal, Landed;
    var text, tail := b.section, [AnyString] + Pattern(key, b.wp + 1);
    LitsLength(text);
    EndsParts(val, 0, Samples(Lits(text)), Refusal(cmp, key, b.wp + 1));
    SamplesFit(cmp, val, 0, Lits(text));
    FixedLits(cmp, val, 0, text);
    AfterSectionAtStar(cmp, val, key, b, |text|, None, []);
    var t := b.(vp := |text|, kp := b.wp + 1, wp := b.wp + 1, values := AddChars([[]], []));
    OutcomeLanded(cmp, val, key, b, t);
    Refused(cmp, val, key, t);
    GlobsFixed(cmp, Lits(text), tail, val, 0);
  }

  // The state behind the first text and a run that fits.
  lemma StartLanding(cmp: Comparator, val: seq<Byte>, key: seq<Byte>, b: State) returns (t: State)
    requires b.wp < |key| && b == START.(next := Quest, section := b.section, wp := b.wp) && WildAt(key, b.wp) == Quest
    requires FoundAt(cmp, val, 0, b.section) && |b.section| <= |val|
    requires var run := RunAt(key, b.wp + 1);
             run.end < |key| && FixedAt(cmp, val, |b.section|, run.tokens) && |b.section| + |run.tokens| <= |val|
    ensures var run := RunAt(key, b.wp + 1);
            && BehindStar(t, val, key) && t.kp == run.end + 1 && t.vp == |b.section| + |run.tokens|
            && t.values == AddChars([[]], [] + CaughtAt(run.tokens, val, |b.section|))
            && Outcome(cmp, val, key, b) == Landed(cmp, val, key, t)
  {
    hide FoundAt, FixedAt, RunAt, Questions, AddChars, CaughtAt, Outcome, Landed;
    var run := RunAt(key, b.wp + 1);
    var q := Trail(|b.section|, b.wp + 1, b.wp + 1, Quest, [], false);
    QuestionsRun(cmp, val, key, q);
    t := b.(vp := q.vp + |run.tokens|, kp := run.end + 1, wp := run.end + 1, next := Star,
            values := AddChars([[]], [] + CaughtAt(run.tokens, val, q.vp)));
    assert MiddleSection(cmp, val, key, b) == (t, true);
    OutcomeLanded(cmp, val, key, b, t);
  }

  lemma RefusedFromRun(cmp: Comparator, val: seq<Byte>, key: seq<Byte>, b: State)
    requires b.wp < |key| && b == START.(next := Quest, section := b.section, wp := b.wp) && WildAt(key, b.wp) == Quest
    requires var run := RunAt(key, b.wp + 1);
             && run.end < |key| && !GoodTail(cmp, key, run.end + 1, false)
             && Ends(val, 0, Samples(Lits(b.section) + run.tokens) + Refusal(cmp, key, run.end + 1))
    ensures var run := RunAt(key, b.wp + 1);
            Refuses(cmp, val, key, Outcome(cmp, val, key, b), Lits(b.section) + run.tokens + Pattern(key, run.end), 0)
  {
    hide FoundAt, Pattern, Lits, FixedAt, Globs, Finish, GoodTail, Outcome, Has, Samples, Refusal, RunAt, Landed,
      AddChars, CaughtAt;
    var text, run := b.section, RunAt(key, b.wp + 1);
    var tokens := Lits(text) + run.tokens;
    LitsLength(text);
    RunRest(key, b.wp + 1);
    EndsParts(val, 0, Samples(tokens), Refusal(cmp, key, run.end + 1));
    SamplesFit(cmp, val, 0, tokens);
    FixedParts(cmp, val, 0, Lits(text), run.tokens);
    FixedLits(cmp, val, 0, text);
    FixedFits(cmp, val, 0, tokens);
    var t := StartLanding(cmp, val, key, b);
    Refused(cmp, val, key, t);
    GlobsFixed(cmp, tokens, Pattern(key, run.end), val, 0);
  }

  // The state in which text that fails in front of the first star is left.
  lemma StartPassing(cmp: Comparator, val: seq<Byte>, key: seq<Byte>, b: State) returns (t: State)
    requires b.wp < |key| && b == START.(next := Quest, section := b.section, wp := b.wp) && WildAt(key, b.wp) == Quest
    requires FoundAt(cmp, val, 0, b.section) && |b.section| <= |val|
    requires var run, stem := RunAt(key, b.wp + 1), Stem(key, b.wp + 1);
             && run.end < |key| && !run.open && FixedAt(cmp, val, |b.section|, stem.0)
             && !FoundAt(cmp, val, |b.section| + |stem.0|, Section(key, stem.1).0)
    ensures var run, stem := RunAt(key, b.wp + 1), Stem(key, b.wp + 1);
            && InBounds(t, val, key) && t.kp == stem.1 < t.wp == run.end && t.next == Star && !t.backtrack
            && t.vp == |b.section| + |stem.0| && Outcome(cmp, val, key, b) == Loop(cmp, val, key, t)
  {
    hide FoundAt, FixedAt, RunAt, Questions, AddChars, Loop, Section, Stem;
    var q := Trail(|b.section|, b.wp + 1, b.wp + 1, Quest, [], false);
    PassedOver(cmp, val, key, q);
    StemOfRun(key, b.wp + 1);
    SectionIsLiteral(key, Stem(key, b.wp + 1).1);
    var r := Questions(cmp, val, key, q);
    t := b.(vp := r.vp, kp := r.kp, wp := r.wp, next := r.next, values := AddChars([[]], r.chars));
    assert MiddleSection(cmp, val, key, b) == (t, true);
  }

  ghost predicate Accepts(cmp: Comparator, val: seq<Byte>, key: seq<Byte>, end: State, pattern: seq<Token>)
    requires end.kp <= |key|
  {
    Finish(val, key, end) && !Globs(cmp, pattern, val, 0)
  }

  lemma AcceptedFromRun(cmp: Comparator, val: seq<Byte>, key: seq<Byte>, b: State)
    requires b.wp < |key| && b == START.(next := Quest, section := b.section, wp := b.wp) && WildAt(key, b.wp) == Quest
    requires var run, stem := RunAt(key, b.wp + 1), Stem(key, b.wp + 1);
             && run.end < |key| && !run.open
             && Ends(val, 0, Samples(Lits(b.section) + stem.0)
                             + Welcome(cmp, key, run.end + 1, HeadOf(Section(key, stem.1).0, 0)))
    ensures var run := RunAt(key, b.wp + 1);
            Accepts(cmp, val, key, Outcome(cmp, val, key, b), Lits(b.section) + run.tokens + Pattern(key, run.end))
  {
    hide FoundAt, Pattern, Lits, FixedAt, Globs, Finish, Outcome, Ends, Samples, RunAt, Stem, Section, Welcome, Same,
      Loop, HeadOf, NoStar;
    var text, run, stem := b.section, RunAt(key, b.wp + 1), Stem(key, b.wp + 1);
    var last := Section(key, stem.1).0;
    var y := HeadOf(last, 0);
    RunRest(key, b.wp + 1);
    StemOfRun(key, b.wp + 1);
    var more := Welcome(cmp, key, run.end + 1, y);
    LitsLength(text);
    NoStarParts(stem.0, Lits(last));
    NoStarParts(Lits(text), stem.0);
    NoStarParts(Lits(text), run.tokens);
    FitsInFront(cmp, val, text, stem.0, more);
    FailsHere(cmp, val, |text| + |stem.0|, last, more, y);
    FailsWhole(cmp, val, Lits(text), stem.0, last);
    var t := StartPassing(cmp, val, key, b);
    PassesStar(cmp, val, key, t, y);
    GlobsFixed(cmp, Lits(text) + run.tokens, Pattern(key, run.end), val, 0);
  }

  lemma FitsInFront(cmp: Comparator, val: seq<Byte>, text: seq<Byte>, tokens: seq<Token>, more: seq<Byte>)
    requires NoStar(Lits(text) + tokens) && |Lits(text)| == |text| && Ends(val, 0, Samples(Lits(text) + tokens) + more)
    ensures FoundAt(cmp, val, 0, text) && FixedAt(cmp, val, |text|, tokens) && Ends(val, |text| + |tokens|, more)
  {
    hide FoundAt, Lits, FixedAt, Has, Samples, NoStar;
    EndsParts(val, 0, Samples(Lits(text) + tokens), more);
    SamplesFit(cmp, val, 0, Lits(text) + tokens);
    FixedParts(cmp, val, 0, Lits(text), tokens);
    FixedLits(cmp, val, 0, text);
  }

  lemma FailsHere(cmp: Comparator, val: seq<Byte>, at: nat, text: seq<Byte>, more: seq<Byte>, y: Byte)
    requires text != [] && more != [] && y == HeadOf(text, 0) && !Same(cmp, HeadOf(more, y), y) && Ends(val, at, more)
    ensures !FoundAt(cmp, val, at, text) && at < |val|
  {
    hide FoundAt, Has, Same;
    HasByte(val, at, more, 0);
    Differs(cmp, val, at, text, 0);
  }

  lemma FailsWhole(cmp: Comparator, val: seq<Byte>, a: seq<Token>, stem: seq<Token>, last: seq<Byte>)
    requires !FoundAt(cmp, val, |a| + |stem|, last)
    ensures !FixedAt(cmp, val, 0, a + (stem + Lits(last)))
  {
    hide FoundAt, Lits, FixedAt;
    FixedLits(cmp, val, |a| + |stem|, last);
    FixedParts(cmp, val, 0, a, stem + Lits(last));
    FixedParts(cmp, val, |a|, stem, Lits(last));
  }

  lemma NoStarParts(a: seq<Token>, b: seq<Token>)
    ensures NoStar(a + b) <==> NoStar(a) && NoStar(b)
  {
  }

  // Every key that is not good is matched wrongly on some value.
  lemma BadKeysAreConfused(cmp: Comparator, key: seq<Byte>)
    requires !GoodKey(cmp, key, false)
    ensures var val := Confusing(cmp, key);
            MatchResult(cmp, val, key).Some? != Globs(cmp, Pattern(key, 0), val, 0)
  {
    hide Pattern, Lits, Loop, GoodTail, Section, Begin, Outcome, RunAt, Globs, Finish, Samples, Refusal, Welcome, Stem;
    var val, r := Confusing(cmp, key), Section(key, 0);
    SectionPattern(key, 0);
    BeginStart(key);
    LoopIsOutcome(cmp, val, key, START);
    var b := Begin(key, START);
    if b.next == Star {
      RefusedFromStar(cmp, val, key, b);
    } else {
      RunPattern(key, r.1 + 1);
      var run := RunAt(key, r.1 + 1);
      assert Lits(r.0) + (run.tokens + Pattern(key, run.end)) == Lits(r.0) + run.tokens + Pattern(key, run.end);
      if run.open { RefusedFromRun(cmp, val, key, b); } else { AcceptedFromRun(cmp, val, key, b); }
    }
  }

  // The matcher is exact on a key if and only if the key is good.
  lemma ExactOnGoodKeysOnly(cmp: Comparator, key: seq<Byte>)
    ensures GoodKey(cmp, key, false)
            <==> forall val: seq<Byte> :: MatchResult(cmp, val, key).Some? <==> Globs(cmp, Pattern(key, 0), val, 0)
  {
    hide Globs, Pattern, MatchResult, GoodKey;
    if GoodKey(cmp, key, false) {
      forall val: seq<Byte> ensures MatchResult(cmp, val, key).Some? <==> Globs(cmp, Pattern(key, 0), val, 0) {
        MatcherIsExactOnGoodKeys(cmp, val, key, false);
      }
    } else {
      BadKeysAreConfused(cmp, key);
    }
  }
}
