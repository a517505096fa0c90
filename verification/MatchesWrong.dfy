// Large families of good keys, and a small key and value for each way to be matched wrongly.
module MatchesWrong {
  import opened Bytes
  import opened Glob
  import opened Fixed
  import opened Matches
  import opened Keys
  import opened MatchesCorrect
  import opened MatchesExact
  import opened MatchesRecorded

  // ----- Keys with one kind of wildcard are good -----

  lemma InParts(a: seq<Token>, b: seq<Token>, t: Token)
    ensures t in a + b <==> t in a || t in b
  {
  }

  lemma WildTokens(key: seq<Byte>, p: nat)
    requires p <= |key|
    ensures WildAt(key, p) == Star ==> AnyString in Pattern(key, p)
    ensures WildAt(key, p) == Quest ==> AnyChar in Pattern(key, p)
  {
  }

  lemma AnysHas(n: nat)
    ensures AnyChar in Anys(n) <==> n > 0
  {
  }

  lemma {:induction false} StarTailsAreGood(cmp: Comparator, key: seq<Byte>, p: nat, kept: bool)
    requires p <= |key| && AnyChar !in Pattern(key, p)
    ensures GoodTail(cmp, key, p, kept)
    decreases |key| - p
  {
    hide Pattern, Needle, Lits, Anys, SkipStars, RunAt;
    var n := Needle(key, p, 0, Star);
    NeedlePattern(key, p, 0);
    NeedleWild(key, p, 0);
    AnysHas(n.2);
    InParts(Anys(n.2), Lits(n.0) + Pattern(key, n.1), AnyChar);
    InParts(Lits(n.0), Pattern(key, n.1), AnyChar);
    WildTokens(key, n.1);
    if WildAt(key, n.1) == Star {
      InParts([AnyString], Pattern(key, n.1 + 1), AnyChar);
      StarTailsAreGood(cmp, key, n.1 + 1, kept);
    }
  }

  lemma StarKeysAreGood(cmp: Comparator, key: seq<Byte>, kept: bool)
    requires AnyChar !in Pattern(key, 0)
    ensures GoodKey(cmp, key, kept)
  {
    hide Pattern, Lits, Section, GoodTail;
    var s := Section(key, 0);
    SectionPattern(key, 0);
    InParts(Lits(s.0), Pattern(key, s.1), AnyChar);
    WildTokens(key, s.1);
    if WildAt(key, s.1) == Star {
      InParts([AnyString], Pattern(key, s.1 + 1), AnyChar);
      StarTailsAreGood(cmp, key, s.1 + 1, kept);
    }
  }

  lemma QuestionKeysAreGood(cmp: Comparator, key: seq<Byte>, kept: bool)
    requires AnyString !in Pattern(key, 0)
    ensures GoodKey(cmp, key, kept)
  {
    hide Pattern, Lits, Section, GoodTail, RunAt;
    var s := Section(key, 0);
    SectionPattern(key, 0);
    InParts(Lits(s.0), Pattern(key, s.1), AnyString);
    WildTokens(key, s.1);
    if WildAt(key, s.1) == Quest {
      RunPattern(key, s.1 + 1);
      var run := RunAt(key, s.1 + 1);
      InParts(run.tokens, Pattern(key, run.end), AnyString);
      WildTokens(key, run.end);
    }
  }

  // ----- Reading small keys -----

  lemma OneByteSection(key: seq<Byte>, p: nat)
    requires p < |key| && WildAt(key, p) == NoWild && key[p] != BACKSLASH
    requires p + 1 == |key| || WildAt(key, p + 1) != NoWild
    ensures Section(key, p) == ([key[p]], p + 1)
  {
    assert Section(key, p + 1) == ([], p + 1) && [key[p]] + [] == [key[p]];
  }

  lemma OneByte(val: seq<Byte>, at: nat, b: Byte)
    ensures FoundAt(Octet, val, at, [b]) <==> at < |val| && val[at] == b
  {
    if FoundAt(Octet, val, at, [b]) { assert Same(Octet, val[at + 0], [b][0]); }
  }

  // Behind the star a key begins with.
  const BEHIND := State(0, 1, 1, NoWild, Star, [], 0, false, [[]], [])

  lemma StarFirst(val: seq<Byte>, key: seq<Byte>)
    requires |key| > 1 && key[0] == STAR && val != []
    ensures InBounds(BEHIND, val, key) && Loop(Octet, val, key, START) == Loop(Octet, val, key, BEHIND)
  {
    hide Loop, AfterSection;
    assert Section(key, 0) == ([], 0);
    BeginStart(key);
    LoopIsOutcome(Octet, val, key, START);
    var b := Begin(key, START);
    AfterSectionAtStar(Octet, val, key, b, 0, None, []);
    OutcomeLanded(Octet, val, key, b, BEHIND);
  }

  // ----- "a?b*": the failed text behind '?' is passed over when there is no star to go back to -----

  const KEY1: seq<Byte> := [97, QUESTION, 98, STAR]
  const VAL1: seq<Byte> := [97, 120, 99]

  lemma AcceptsTooMuch()
    ensures MatchResult(Octet, VAL1, KEY1).Some? && !Globs(Octet, Pattern(KEY1, 0), VAL1, 0)
  {
    hide Iterate, Pattern, Loop;
    Round1OfKey1();
    Round2OfKey1();
    var e := Iterate(Octet, VAL1, KEY1, PASSED).0;
    assert Loop(Octet, VAL1, KEY1, START) == e by { TwoRounds(); }
    assert SkipStars(KEY1, 4) == 4;
    IsNoInstance();
  }

  lemma TwoRounds()
    requires Iterate(Octet, VAL1, KEY1, START) == (PASSED, true) && !Iterate(Octet, VAL1, KEY1, PASSED).1
    ensures Loop(Octet, VAL1, KEY1, START) == Iterate(Octet, VAL1, KEY1, PASSED).0
  {
    hide Iterate;
    assert Loop(Octet, VAL1, KEY1, PASSED) == Iterate(Octet, VAL1, KEY1, PASSED).0;
  }

  // The text "b" has failed at the third byte, and the state is behind the '?' all the same.
  const PASSED := State(2, 2, 3, NoWild, Star, [97], 0, false, [[], [120]], [])

  lemma Round1OfKey1()
    ensures Iterate(Octet, VAL1, KEY1, START) == (PASSED, true)
  {
    OneByteSection(KEY1, 0);
    OneByteSection(KEY1, 2);
    OneByte(VAL1, 0, 97);
    OneByte(VAL1, 2, 98);
    assert Questions(Octet, VAL1, KEY1, Trail(1, 2, 2, Quest, [], false)) == Trail(2, 2, 3, Star, [120], true);
    assert AddChars([[]], [120]) == [[], [120]] by { assert [120][1..] == []; }
  }

  lemma Round2OfKey1()
    ensures var e := Iterate(Octet, VAL1, KEY1, PASSED); !e.1 && e.0.vp == 3 && e.0.kp == 4 && e.0.next == Star
  {
    assert Section(KEY1, 3) == ([], 3);
    assert Find(Octet, VAL1, 2, []) == Some(2);
  }

  lemma IsNoInstance()
    ensures !Globs(Octet, Pattern(KEY1, 0), VAL1, 0)
  {
    assert Pattern(KEY1, 4) == [] && Pattern(KEY1, 3) == [AnyString] && Pattern(KEY1, 2) == [Lit(98), AnyString];
    assert Pattern(KEY1, 1) == [AnyChar, Lit(98), AnyString];
    var pattern := [Lit(97), AnyChar, Lit(98), AnyString];
    assert Pattern(KEY1, 0) == pattern;
    hide Pattern;
    assert pattern[1..] == [AnyChar, Lit(98), AnyString] && pattern[1..][1..] == [Lit(98), AnyString];
    assert !Globs(Octet, pattern[1..][1..], VAL1, 2) && !Globs(Octet, pattern[1..], VAL1, 1);
  }

  // ----- "*?*": a value of one byte ends before its '?' is counted as matched -----

  const KEY2: seq<Byte> := [STAR, QUESTION, STAR]
  const VAL2: seq<Byte> := [120]

  lemma RejectsOneByte()
    ensures MatchResult(Octet, VAL2, KEY2).None? && Globs(Octet, Pattern(KEY2, 0), VAL2, 0)
  {
    hide Loop;
    StarFirst(VAL2, KEY2);
    LoopIsOutcome(Octet, VAL2, KEY2, BEHIND);
    assert Section(KEY2, 0) == ([], 0) && Section(KEY2, 1) == ([], 1) && Section(KEY2, 2) == ([], 2);
    assert Needle(KEY2, 2, 1, Star) == ([], 2, 1) && Needle(KEY2, 1, 0, Star) == ([], 2, 1);
    assert SkipStars(KEY2, 1) == 1;
    OneByteIsInstance();
  }

  lemma OneByteIsInstance()
    ensures Globs(Octet, Pattern(KEY2, 0), VAL2, 0)
  {
    assert Pattern(KEY2, 3) == [] && Pattern(KEY2, 2) == [AnyString] && Pattern(KEY2, 1) == [AnyChar, AnyString];
    var rest := [AnyChar, AnyString];
    assert Pattern(KEY2, 0) == [AnyString] + rest && rest[1..] == [AnyString] && [AnyString][1..] == [];
    assert Globs(Octet, [AnyString], VAL2, 1) && Globs(Octet, rest, VAL2, 0);
    GlobsStar(Octet, rest, VAL2, 0, 0);
  }

  // ----- "*a?b": the first "a?b" is taken, whether or not the value ends there -----

  const KEY3: seq<Byte> := [STAR, 97, QUESTION, 98]
  const VAL3: seq<Byte> := [97, 120, 98, 97, 120, 98]

  lemma RejectsTheSecond()
    ensures MatchResult(Octet, VAL3, KEY3).None? && Globs(Octet, Pattern(KEY3, 0), VAL3, 0)
  {
    hide Loop, Outcome, Questions, Find, FixedAt;
    StarFirst(VAL3, KEY3);
    LoopIsOutcome(Octet, VAL3, KEY3, BEHIND);
    assert Section(KEY3, 0) == ([], 0);
    OneByteSection(KEY3, 1);
    OneByteSection(KEY3, 3);
    hide Section;
    var b := Begin(KEY3, BEHIND);
    FindHere(VAL3, 0, 97);
    RoundTries(Octet, VAL3, KEY3, b, 0, 0);
    FixedRun(VAL3, 1, 98);
    TheSecondIsInstance();
  }

  lemma FindHere(val: seq<Byte>, at: nat, b: Byte)
    requires at < |val| && val[at] == b
    ensures Find(Octet, val, at, [b]) == Some(at)
  {
    OneByte(val, at, b);
  }

  // A '?' and one byte of text.
  lemma FixedRun(val: seq<Byte>, at: nat, b: Byte)
    ensures FixedAt(Octet, val, at, [AnyChar] + Lits([b])) <==> at + 1 < |val| && val[at + 1] == b
    ensures [AnyChar] + Lits([b]) == [AnyChar, Lit(b)]
  {
    assert [b][1..] == [] && Lits([]) == [] && Lits([b]) == [Lit(b)] + Lits([]) == [Lit(b)];
    hide Lits, FixedAt;
    assert [AnyChar] + [Lit(b)] == [AnyChar, Lit(b)] && |[AnyChar]| == 1;
    FixedParts(Octet, val, at, [AnyChar], [Lit(b)]);
    FixedOne(Octet, val, at, AnyChar);
    FixedOne(Octet, val, at + 1, Lit(b));
  }

  lemma TheSecondIsInstance()
    ensures Globs(Octet, Pattern(KEY3, 0), VAL3, 0)
  {
    assert Pattern(KEY3, 4) == [] && Pattern(KEY3, 3) == [Lit(98)] && Pattern(KEY3, 2) == [AnyChar, Lit(98)];
    var rest := [Lit(97), AnyChar, Lit(98)];
    assert Pattern(KEY3, 1) == rest && Pattern(KEY3, 0) == [AnyString] + rest;
    hide Pattern;
    assert rest[1..] == [AnyChar, Lit(98)] && rest[1..][1..] == [Lit(98)] && rest[1..][1..][1..] == [];
    assert Globs(Octet, rest[1..][1..], VAL3, 5) && Globs(Octet, rest[1..], VAL3, 4) && Globs(Octet, rest, VAL3, 3);
    GlobsStar(Octet, rest, VAL3, 0, 3);
  }

  // ----- "*?a?b*" and "*?a?": going back to the star skips the '?' in front of the text again -----

  const KEY4: seq<Byte> := [STAR, QUESTION, 97, QUESTION, 98, STAR]
  const VAL4: seq<Byte> := [120, 97, 97, 120, 98]

  lemma SkipsTwice()
    ensures MatchResult(Octet, VAL4, KEY4).None? && Globs(Octet, Pattern(KEY4, 0), VAL4, 0)
  {
    hide Loop, Outcome, Questions, Find, FixedAt;
    StarFirst(VAL4, KEY4);
    LoopIsOutcome(Octet, VAL4, KEY4, BEHIND);
    assert Section(KEY4, 0) == ([], 0) && Section(KEY4, 1) == ([], 1);
    OneByteSection(KEY4, 2);
    OneByteSection(KEY4, 4);
    assert Needle(KEY4, 2, 1, Star) == ([97], 3, 1) && Needle(KEY4, 1, 0, Star) == ([97], 3, 1);
    hide Section;
    var b := Begin(KEY4, BEHIND);
    FindHere(VAL4, 1, 97);
    FixedRun(VAL4, 2, 98);
    HopelessTry(Octet, VAL4, KEY4, b, 1);
    FindNoMore(VAL4, 3, 97);
    HuntFindsNothing(Octet, VAL4, KEY4, b.(vp := 2, mvalue := b.mvalue + VAL4[0..0] + [VAL4[1]]));
    SkippedIsInstance();
  }

  lemma FindNoMore(val: seq<Byte>, at: nat, b: Byte)
    requires forall i | at <= i < |val| :: val[i] != b
    ensures Find(Octet, val, at, [b]) == None
    decreases |val| - at
  {
    OneByte(val, at, b);
    if at < |val| { FindNoMore(val, at + 1, b); }
  }

  lemma SkippedIsInstance()
    ensures Globs(Octet, Pattern(KEY4, 0), VAL4, 0)
  {
    assert Pattern(KEY4, 6) == [] && Pattern(KEY4, 5) == [AnyString] && Pattern(KEY4, 4) == [Lit(98), AnyString];
    assert Pattern(KEY4, 3) == [AnyChar, Lit(98), AnyString]
           && Pattern(KEY4, 2) == [Lit(97), AnyChar, Lit(98), AnyString];
    var rest := [AnyChar, Lit(97), AnyChar, Lit(98), AnyString];
    assert Pattern(KEY4, 1) == rest && Pattern(KEY4, 0) == [AnyString] + rest;
    hide Pattern;
    var r1, r2, r3 := [Lit(97), AnyChar, Lit(98), AnyString], [AnyChar, Lit(98), AnyString], [Lit(98), AnyString];
    assert rest[1..] == r1 && r1[1..] == r2 && r2[1..] == r3 && r3[1..] == [AnyString] && [AnyString][1..] == [];
    assert Globs(Octet, [AnyString], VAL4, 5) && Globs(Octet, r3, VAL4, 4) && Globs(Octet, r2, VAL4, 3);
    assert Globs(Octet, r1, VAL4, 2) && Globs(Octet, rest, VAL4, 1);
    GlobsStar(Octet, rest, VAL4, 0, 1);
  }

  const KEY5: seq<Byte> := [STAR, QUESTION, 97, QUESTION]
  const VAL5: seq<Byte> := [120, 97, 97, 120]

  lemma SkipsTwiceAtTheEnd()
    ensures MatchResult(Octet, VAL5, KEY5).None? && Globs(Octet, Pattern(KEY5, 0), VAL5, 0)
  {
    hide Loop, Outcome, Questions, Find, FixedAt, Landed, Section, Needle, RunAt, Begin, Pattern, Globs;
    StarFirst(VAL5, KEY5);
    LoopIsOutcome(Octet, VAL5, KEY5, BEHIND);
    Key5Parts();
    var b := Begin(KEY5, BEHIND);
    FindHere(VAL5, 1, 97);
    RoundTries(Octet, VAL5, KEY5, b, 0, 1);
    FindNoMore(VAL5, 3, 97);
    HuntFindsNothing(Octet, VAL5, KEY5, b.(vp := 2, mvalue := VAL5[0..0] + [VAL5[1]]));
    AtTheEndIsInstance();
  }

  lemma Key5Parts()
    ensures Begin(KEY5, BEHIND) == BEHIND.(wcard := Star, next := Quest, section := [97], wp := 3, offset := 1)
    ensures var run := RunAt(KEY5, 4); run.end == 4 && run.open && |run.tokens| == 1
  {
    assert Section(KEY5, 0) == ([], 0) && Section(KEY5, 1) == ([], 1) && Section(KEY5, 4) == ([], 4);
    OneByteSection(KEY5, 2);
    assert Needle(KEY5, 2, 1, Star) == ([97], 3, 1) && Needle(KEY5, 1, 0, Star) == ([97], 3, 1);
    hide Section, Needle;
  }

  lemma AtTheEndIsInstance()
    ensures Globs(Octet, Pattern(KEY5, 0), VAL5, 0)
  {
    assert Pattern(KEY5, 4) == [] && Pattern(KEY5, 3) == [AnyChar] && Pattern(KEY5, 2) == [Lit(97), AnyChar];
    var rest := [AnyChar, Lit(97), AnyChar];
    assert Pattern(KEY5, 1) == rest && Pattern(KEY5, 0) == [AnyString] + rest;
    hide Pattern;
    assert rest[1..] == [Lit(97), AnyChar] && [Lit(97), AnyChar][1..] == [AnyChar] && [AnyChar][1..] == [];
    assert Globs(Octet, [AnyChar], VAL5, 3) && Globs(Octet, [Lit(97), AnyChar], VAL5, 2) && Globs(Octet, rest, VAL5, 1);
    GlobsStar(Octet, rest, VAL5, 0, 1);
  }

  // ----- "*?ab?": what is gone back over is not all recorded -----

  const KEY6: seq<Byte> := [STAR, QUESTION, 97, 98, QUESTION]
  const VAL6: seq<Byte> := [120, 97, 98, 97, 98, 121]

  // The star is recorded as "a" where it stands for "xa".
  lemma LosesAByte()
    ensures var r := MatchResult(Octet, VAL6, KEY6);
            && r == Some([VAL6, [97], [98], [121]]) && Globs(Octet, Pattern(KEY6, 0), VAL6, 0)
            && !Fills(Octet, Pattern(KEY6, 0), VAL6, 0, r.value[1..])
  {
    hide Loop, Outcome, Find, Landed, Pattern, Globs, Fills, Begin, RunAt, CaughtAt, Recorded, Finish, LitCount,
      RunFits;
    StarFirst(VAL6, KEY6);
    LoopIsOutcome(Octet, VAL6, KEY6, BEHIND);
    Key6Parts();
    var b := Begin(KEY6, BEHIND);
    FoundTwice();
    HopelessTry(Octet, VAL6, KEY6, b, 1);
    assert [] + VAL6[0..0] + [VAL6[1]] == [97];
    var c := b.(vp := 2, mvalue := [97]);
    var t := LuckyTry(Octet, VAL6, KEY6, c, 3);
    RecordsKey6();
    assert t.values[0 := VAL6] == [VAL6, [97], [98], [121]];
    AllDone(VAL6, KEY6, t);
    TheRestIsInstance();
  }

  lemma Key6Parts()
    ensures Begin(KEY6, BEHIND) == BEHIND.(wcard := Star, next := Quest, section := [97, 98], wp := 4, offset := 1)
    ensures RunAt(KEY6, 5) == Run([AnyChar], 5, true)
  {
    assert Section(KEY6, 1) == ([], 1) && Section(KEY6, 5) == ([], 5) && Section(KEY6, 4) == ([], 4);
    OneByteSection(KEY6, 3);
    assert Section(KEY6, 2) == ([97] + [98], 4) && [97] + [98] == [97, 98];
    assert Needle(KEY6, 2, 1, Star) == ([97, 98], 4, 1) && Needle(KEY6, 1, 0, Star) == ([97, 98], 4, 1);
    hide Section, Needle;
  }

  // "ab" at 1 with more than one byte behind it, and at 3 with one.
  lemma FoundTwice()
    requires RunAt(KEY6, 5) == Run([AnyChar], 5, true)
    ensures Find(Octet, VAL6, 1, [97, 98]) == Some(1) && Find(Octet, VAL6, 3, [97, 98]) == Some(3)
    ensures !RunFits(Octet, VAL6, KEY6, 3, RunAt(KEY6, 5)) && RunFits(Octet, VAL6, KEY6, 5, RunAt(KEY6, 5))
  {
    hide RunAt;
    assert FoundAt(Octet, VAL6, 1, [97, 98]) && FoundAt(Octet, VAL6, 3, [97, 98]);
  }

  lemma RecordsKey6()
    ensures Recorded([[]], [97] + VAL6[2..2], VAL6[2..3] + CaughtAt([AnyChar], VAL6, 5)) == [[], [97], [98], [121]]
  {
    CaughtAny(VAL6, 5);
    assert [97] + VAL6[2..2] == [97] && VAL6[2..3] + [121] == [98, 121] && [98, 121][1..] == [121] && [121][1..] == [];
    AddCharsSingles([[], [97]], [98, 121]);
    assert Singles([98, 121]) == [[98]] + Singles([121]) && Singles([121]) == [[121]] + Singles([]);
  }

  lemma TheRestIsInstance()
    ensures Globs(Octet, Pattern(KEY6, 0), VAL6, 0)
    ensures !Fills(Octet, Pattern(KEY6, 0), VAL6, 0, [VAL6, [97], [98], [121]][1..])
  {
    assert Pattern(KEY6, 5) == [] && Pattern(KEY6, 4) == [AnyChar] && Pattern(KEY6, 3) == [Lit(98), AnyChar];
    assert Pattern(KEY6, 2) == [Lit(97), Lit(98), AnyChar];
    var rest := [AnyChar, Lit(97), Lit(98), AnyChar];
    assert Pattern(KEY6, 1) == rest && Pattern(KEY6, 0) == [AnyString] + rest;
    hide Pattern;
    var r1, r2 := [Lit(97), Lit(98), AnyChar], [Lit(98), AnyChar];
    assert rest[1..] == r1 && r1[1..] == r2 && r2[1..] == [AnyChar] && [AnyChar][1..] == [];
    assert Globs(Octet, [AnyChar], VAL6, 5) && Globs(Octet, r2, VAL6, 4) && Globs(Octet, r1, VAL6, 3)
           && Globs(Octet, rest, VAL6, 2);
    GlobsStar(Octet, rest, VAL6, 0, 2);
    var values := [[97], [98], [121]];
    assert [VAL6, [97], [98], [121]][1..] == values;
    FillsInWeight([AnyString] + rest, VAL6, values);
    CountsOfKey6();
  }

  lemma FillsInWeight(pattern: seq<Token>, val: seq<Byte>, values: seq<seq<Byte>>)
    ensures Fills(Octet, pattern, val, 0, values) ==> |val| == LitCount(pattern) + Weight(values)
  {
    if Fills(Octet, pattern, val, 0, values) { FillsWeight(Octet, pattern, val, 0, values); }
  }

  lemma CountsOfKey6()
    ensures LitCount([AnyString] + [AnyChar, Lit(97), Lit(98), AnyChar]) == 2 && Weight([[97], [98], [121]]) == 3
  {
    StarCount([AnyChar, Lit(97), Lit(98), AnyChar]);
    assert [AnyChar, Lit(97), Lit(98), AnyChar][1..] == [Lit(97), Lit(98), AnyChar];
    assert [Lit(97), Lit(98), AnyChar][1..] == [Lit(98), AnyChar] && [Lit(98), AnyChar][1..] == [AnyChar]
           && [AnyChar][1..] == [];
    assert LitCount([AnyChar]) == 0 && LitCount([Lit(98), AnyChar]) == 1 && LitCount([Lit(97), Lit(98), AnyChar]) == 2;
    WeightMore([], [97]);
    WeightMore([[97]], [98]);
    WeightMore([[97], [98]], [121]);
    assert [] + [[97]] == [[97]] && [[97]] + [[98]] == [[97], [98]] && [[97], [98]] + [[121]] == [[97], [98], [121]];
  }
}
