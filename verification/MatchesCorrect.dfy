// What the matcher decides, for every value and every key of `GoodKey`: exactly the pattern; and if
// the key is good for its match values, what it records puts the value back together.
module MatchesCorrect {
  import opened Bytes
  import opened Glob
  import opened Fixed
  import opened Matches
  import opened Keys

  // ----- A run of '?' -----

  ghost predicate RunFits(cmp: Comparator, val: seq<Byte>, key: seq<Byte>, vp: nat, run: Run)
  {
    FixedAt(cmp, val, vp, run.tokens) && (run.end == |key| && run.open ==> vp + |run.tokens| == |val|)
  }

  function Behind(key: seq<Byte>, end: nat): nat { if end < |key| then end + 1 else end }

  lemma FixedRunHead(cmp: Comparator, val: seq<Byte>, vp: nat, text: seq<Byte>, rest: seq<Token>)
    requires vp < |val|
    ensures FixedAt(cmp, val, vp, [AnyChar] + (Lits(text) + rest))
            <==> FoundAt(cmp, val, vp + 1, text) && FixedAt(cmp, val, vp + 1 + |text|, rest)
    ensures FoundAt(cmp, val, vp + 1, text) && FixedAt(cmp, val, vp + 1 + |text|, rest)
            ==> Caught([AnyChar] + (Lits(text) + rest), val, vp) == [val[vp]] + Caught(rest, val, vp + 1 + |text|)
  {
    hide FixedAt, Lits, FoundAt, Fits, Caught;
    FixedParts(cmp, val, vp, [AnyChar], Lits(text) + rest);
    FixedOne(cmp, val, vp, AnyChar);
    FixedParts(cmp, val, vp + 1, Lits(text), rest);
    FixedLits(cmp, val, vp + 1, text);
    LitsLength(text);
    FitsAny(cmp, val[vp]);
    if FoundAt(cmp, val, vp + 1, text) && FixedAt(cmp, val, vp + 1 + |text|, rest) {
      FixedFits(cmp, val, vp + 1 + |text|, rest);
      CaughtParts([AnyChar], Lits(text) + rest, val, vp);
      CaughtParts(Lits(text), rest, val, vp + 1);
      CaughtLits(text, val, vp + 1);
      CaughtAny(val, vp);
      assert [] + Caught(rest, val, vp + 1 + |text|) == Caught(rest, val, vp + 1 + |text|);
    }
  }

  lemma FitsAny(cmp: Comparator, b: Byte)
    ensures Fits(cmp, AnyChar, b)
  {
  }

  lemma CaughtAny(val: seq<Byte>, at: nat)
    requires at < |val|
    ensures Caught([AnyChar], val, at) == [val[at]] && WildCount([AnyChar]) == 1 && WildCount([AnyString]) == 1
  {
  }

  // What the loop over '?' comes to: it succeeds exactly where the run fits; if not, a star stands
  // next only behind text, and the end of the key only where the match does not end.
  ghost predicate RunDone(cmp: Comparator, val: seq<Byte>, key: seq<Byte>, q: Trail, run: Run, r: Trail)
    requires r.kp <= |key|
  {
    var e := Behind(key, run.end);
    if RunFits(cmp, val, key, q.vp, run) then
      r == Trail(q.vp + |run.tokens|, e, e, WildAt(key, run.end), q.chars + CaughtAt(run.tokens, val, q.vp), false)
    else
      && r.failed && (r.next == Star ==> run.end < |key| && !run.open) && (q.vp == |val| ==> r.next == Quest)
      && (r.next == NoWild ==> !(r.vp == |val| && SkipStars(key, r.kp) == |key|))
  }

  function CaughtAt(tokens: seq<Token>, val: seq<Byte>, at: nat): seq<Byte>
  {
    if at + |tokens| <= |val| then Caught(tokens, val, at) else []
  }

  lemma {:induction false} QuestionsRun(cmp: Comparator, val: seq<Byte>, key: seq<Byte>, q: Trail)
    requires q.vp <= |val| && q.kp == q.wp <= |key| && !q.failed && q.next == Quest
    ensures RunDone(cmp, val, key, q, RunAt(key, q.wp), Questions(cmp, val, key, q))
    decreases |val| - q.vp
  {
    hide FoundAt, Section, RunDone, RunAt;
    var sub := Section(key, q.wp);
    var at := q.vp + 1;
    if q.vp == |val| {
      RunPattern(key, q.wp);
      NoRunLeft(cmp, val, key, q);
    } else if WildAt(key, sub.1) != Quest {
      LastOfRun(cmp, val, key, q);
    } else if FoundAt(cmp, val, at, sub.0) {
      FoundEmpty(cmp, val, at, sub.0);
      var q' := Trail(at + |sub.0|, sub.1 + 1, sub.1 + 1, Quest, q.chars + [val[q.vp]], false);
      QuestionsRun(cmp, val, key, q');
      MoreOfRun(cmp, val, key, q, Questions(cmp, val, key, q'));
    } else {
      BrokenRun(cmp, val, key, q);
    }
  }

  lemma NoRunLeft(cmp: Comparator, val: seq<Byte>, key: seq<Byte>, q: Trail)
    requires q.vp == |val| && q.kp == q.wp <= |key| && !q.failed && q.next == Quest && |RunAt(key, q.wp).tokens| >= 1
    ensures RunDone(cmp, val, key, q, RunAt(key, q.wp), Questions(cmp, val, key, q))
  {
    hide RunAt;
  }

  lemma LastOfRun(cmp: Comparator, val: seq<Byte>, key: seq<Byte>, q: Trail)
    requires q.vp < |val| && q.kp == q.wp <= |key| && !q.failed && q.next == Quest
    requires WildAt(key, Section(key, q.wp).1) != Quest
    ensures RunDone(cmp, val, key, q, RunAt(key, q.wp), Questions(cmp, val, key, q))
  {
    hide FixedAt, Lits, FoundAt, Section, Caught, SkipStars;
    var sub := Section(key, q.wp);
    var at := q.vp + 1;
    NoStarsHere(key, q.wp);
    FoundEmpty(cmp, val, at, sub.0);
    FixedRunHead(cmp, val, q.vp, sub.0, []);
    LitsLength(sub.0);
    assert Lits(sub.0) + [] == Lits(sub.0);
    FixedNothing(cmp, val, at + |sub.0|);
    if FoundAt(cmp, val, at, sub.0) {
      CaughtNothing(val, at + |sub.0|);
      assert [val[q.vp]] + [] == [val[q.vp]];
    }
  }

  lemma BrokenRun(cmp: Comparator, val: seq<Byte>, key: seq<Byte>, q: Trail)
    requires q.vp < |val| && q.kp == q.wp <= |key| && !q.failed && q.next == Quest
    requires var sub := Section(key, q.wp); WildAt(key, sub.1) == Quest && !FoundAt(cmp, val, q.vp + 1, sub.0)
    ensures RunDone(cmp, val, key, q, RunAt(key, q.wp), Questions(cmp, val, key, q))
  {
    hide FixedAt, Lits, FoundAt, Section, Caught;
    var sub := Section(key, q.wp);
    FixedRunHead(cmp, val, q.vp, sub.0, RunAt(key, sub.1 + 1).tokens);
  }

  lemma MoreOfRun(cmp: Comparator, val: seq<Byte>, key: seq<Byte>, q: Trail, r: Trail)
    requires q.vp < |val| && q.kp == q.wp <= |key| && !q.failed && q.next == Quest && r.kp <= |key|
    requires var sub := Section(key, q.wp); var at := q.vp + 1;
             && WildAt(key, sub.1) == Quest && FoundAt(cmp, val, at, sub.0)
             && RunDone(cmp, val, key, Trail(at + |sub.0|, sub.1 + 1, sub.1 + 1, Quest, q.chars + [val[q.vp]], false),
                        RunAt(key, sub.1 + 1), r)
    ensures RunDone(cmp, val, key, q, RunAt(key, q.wp), r)
  {
    hide FixedAt, Lits, FoundAt, Section, Caught, SkipStars;
    var sub := Section(key, q.wp);
    var at := q.vp + 1;
    var rest := RunAt(key, sub.1 + 1);
    FixedRunHead(cmp, val, q.vp, sub.0, rest.tokens);
    LitsLength(sub.0);
    if FixedAt(cmp, val, at + |sub.0|, rest.tokens) { FixedFits(cmp, val, at + |sub.0|, rest.tokens); }
    Assoc(q.chars, [val[q.vp]], CaughtAt(rest.tokens, val, at + |sub.0|));
  }

  lemma CaughtNothing(val: seq<Byte>, at: nat)
    requires at <= |val|
    ensures Caught([], val, at) == []
  {
  }

  lemma NoRoom(cmp: Comparator, val: seq<Byte>, at: nat, tokens: seq<Token>)
    requires at + |tokens| > |val|
    ensures !FixedAt(cmp, val, at, tokens)
  {
  }

  lemma FoundEmpty(cmp: Comparator, val: seq<Byte>, at: nat, text: seq<Byte>)
    ensures text == [] && at <= |val| ==> FoundAt(cmp, val, at, text)
    ensures FoundAt(cmp, val, at, text) ==> at + |text| <= |val|
  {
  }

  // ----- The loop -----

  // The loop stands behind a star.
  predicate BehindStar(s: State, val: seq<Byte>, key: seq<Byte>)
  {
    s.vp <= |val| && s.kp == s.wp <= |key| && s.next == Star && !s.backtrack
  }

  // What a round does once it knows what to look for.
  function Resume(cmp: Comparator, val: seq<Byte>, key: seq<Byte>, b: State): (r: (State, bool))
    requires InBounds(b, val, key) && !b.backtrack && b.next == WildAt(key, b.wp)
    ensures r.0.kp <= |key|
    ensures r.1 ==> InBounds(r.0, val, key)
  {
    if b.next == NoWild then (FinalSection(cmp, val, key, b), false)
    else
      var r := MiddleSection(cmp, val, key, b);
      var t := r.0;
      if r.1 && t.kp == |key| && t.next == Star then (t.(vp := |val|, values := Add(t.values, val[t.vp..])), false)
      else r
  }

  // The end of the loop from such a round on.
  function Outcome(cmp: Comparator, val: seq<Byte>, key: seq<Byte>, b: State): (r: State)
    requires InBounds(b, val, key) && !b.backtrack && b.next == WildAt(key, b.wp)
    ensures r.kp <= |key|
  {
    var r := Resume(cmp, val, key, b);
    if r.1 then Loop(cmp, val, key, r.0) else r.0
  }

  lemma LoopIsOutcome(cmp: Comparator, val: seq<Byte>, key: seq<Byte>, s: State)
    requires InBounds(s, val, key) && s.kp < |key| && s.vp < |val|
    ensures var b := Begin(key, s);
            InBounds(b, val, key) && !b.backtrack && b.next == WildAt(key, b.wp)
            && Loop(cmp, val, key, s) == Outcome(cmp, val, key, b)
  {
    hide FinalSection, MiddleSection;
  }

  // The state the loop ends in decides the rest of the pattern, to be matched at `at`; and the
  // values recorded on the way, if they are `kept` in order, fill it from `from` on.
  ghost predicate Decides(cmp: Comparator, val: seq<Byte>, key: seq<Byte>, end: State, pattern: seq<Token>, from: nat,
                          at: nat,
                          values: seq<seq<Byte>>, kept: bool)
    requires end.kp <= |key| && from <= at <= |val|
  {
    && (Finish(val, key, end) <==> Globs(cmp, pattern, val, at))
    && (kept && Finish(val, key, end) && |values| + WildCount(pattern) <= MAX_MATCH_VALUES ==>
          values <= end.values && Fills(cmp, pattern, val, from, end.values[|values|..]))
  }

  lemma NotDecided(cmp: Comparator, val: seq<Byte>, key: seq<Byte>, end: State, pattern: seq<Token>, from: nat, at: nat,
                   values: seq<seq<Byte>>, kept: bool)
    requires end.kp <= |key| && from <= at <= |val| && !Finish(val, key, end) && !Globs(cmp, pattern, val, at)
    ensures Decides(cmp, val, key, end, pattern, from, at, values, kept)
  {
  }

  lemma {:induction false} AddCharsSingles(values: seq<seq<Byte>>, chars: seq<Byte>)
    requires |values| + |chars| <= MAX_MATCH_VALUES
    ensures AddChars(values, chars) == values + Singles(chars)
    decreases |chars|
  {
    if chars == [] {
      assert values + [] == values;
    } else {
      AddCharsSingles(values + [[chars[0]]], chars[1..]);
      assert values + [[chars[0]]] + Singles(chars[1..]) == values + ([[chars[0]]] + Singles(chars[1..]));
    }
  }

  // The values recorded for a star and the stretch behind it.
  function Recorded(values: seq<seq<Byte>>, star: seq<Byte>, chars: seq<Byte>): seq<seq<Byte>>
  {
    AddChars(Add(values, star), chars)
  }

  lemma {:induction false} RecordedAll(values: seq<seq<Byte>>, star: seq<Byte>, chars: seq<Byte>)
    requires |values| + 1 + |chars| <= MAX_MATCH_VALUES
    ensures Recorded(values, star, chars) == values + ([star] + Singles(chars))
  {
    hide AddChars, Singles;
    AddCharsSingles(values + [star], chars);
    assert values + [star] + Singles(chars) == values + ([star] + Singles(chars));
  }

  // One more star, and a stretch found behind it, in front of what is decided already.
  lemma ExtendDecides(cmp: Comparator, val: seq<Byte>, key: seq<Byte>, end: State, tokens: seq<Token>, tail: seq<Token>,
                      from: nat, found: nat, values: seq<seq<Byte>>, kept: bool)
    requires NoStar(tokens) && from <= found && found + |tokens| <= |val| && FixedAt(cmp, val, found, tokens)
             && end.kp <= |key|
    requires Decides(cmp, val, key, end, [AnyString] + tail, found + |tokens|, found + |tokens|,
                     Recorded(values, val[from..found], Caught(tokens, val, found)), kept)
    ensures Decides(cmp, val, key, end, [AnyString] + (tokens + ([AnyString] + tail)), from, found, values, kept)
  {
    hide Globs, Finish, FixedAt, Fills, WildCount, Caught, Recorded;
    GlobsHere(cmp, tokens, tail, val, found);
    var rest := [AnyString] + tail;
    WildCountParts([AnyString], tokens + rest);
    WildCountParts(tokens, rest);
    WildCountStar();
    CaughtCount(tokens, val, found);
    var star, chars := val[from..found], Caught(tokens, val, found);
    if kept && Finish(val, key, end) && |values| + 1 + WildCount(tokens) + WildCount(rest) <= MAX_MATCH_VALUES {
      RecordedAll(values, star, chars);
      var more := [star] + Singles(chars);
      var last := end.values[|values + more|..];
      PrefixSplit(end.values, values, more);
      FillsFixed(cmp, tokens, rest, val, found, last);
      FillsStar(cmp, tokens + rest, val, from, found, Singles(chars) + last);
      assert [star] + (Singles(chars) + last) == more + last;
    }
  }

  lemma WildCountStar()
    ensures WildCount([AnyString]) == 1
  {
  }

  lemma PrefixSplit(all: seq<seq<Byte>>, a: seq<seq<Byte>>, b: seq<seq<Byte>>)
    requires a + b <= all
    ensures a <= all && all[|a|..] == b + all[|a + b|..]
  {
    assert all[|a|..][..|b|] == (a + b)[|a|..] == b;
    assert all[|a|..] == all[|a|..][..|b|] + all[|a|..][|b|..];
  }

  // Skipping places where the stretch does not fit changes nothing.
  lemma DecidesEarlier(cmp: Comparator, val: seq<Byte>, key: seq<Byte>, end: State, pattern: seq<Token>, from: nat,
                       at: nat,
                       later: nat, values: seq<seq<Byte>>, kept: bool)
    requires end.kp <= |key| && from <= at <= later <= |val|
    requires Decides(cmp, val, key, end, pattern, from, later, values, kept)
    requires Globs(cmp, pattern, val, at) <==> Globs(cmp, pattern, val, later)
    ensures Decides(cmp, val, key, end, pattern, from, at, values, kept)
  {
    hide Globs, Finish, Fills;
  }

  // ----- Landing behind the next star -----

  function Landed(cmp: Comparator, val: seq<Byte>, key: seq<Byte>, t: State): (r: State)
    requires InBounds(t, val, key)
    ensures r.kp <= |key|
  {
    if t.kp == |key| then t.(vp := |val|, values := Add(t.values, val[t.vp..])) else Loop(cmp, val, key, t)
  }

  lemma OutcomeLanded(cmp: Comparator, val: seq<Byte>, key: seq<Byte>, b: State, t: State)
    requires InBounds(b, val, key) && !b.backtrack && b.next == WildAt(key, b.wp) != NoWild
    requires MiddleSection(cmp, val, key, b) == (t, true) && t.next == Star
    ensures InBounds(t, val, key) && Outcome(cmp, val, key, b) == Landed(cmp, val, key, t)
  {
    hide MiddleSection;
  }

  lemma OutcomeEnds(cmp: Comparator, val: seq<Byte>, key: seq<Byte>, b: State, t: State)
    requires InBounds(b, val, key) && !b.backtrack && b.next == WildAt(key, b.wp) != NoWild
    requires MiddleSection(cmp, val, key, b) == (t, false)
    ensures Outcome(cmp, val, key, b) == t
  {
    hide MiddleSection;
  }

  lemma {:induction false} LandedDecides(cmp: Comparator, val: seq<Byte>, key: seq<Byte>, t: State, kept: bool)
    requires BehindStar(t, val, key) && GoodTail(cmp, key, t.kp, kept)
    ensures Decides(cmp, val, key, Landed(cmp, val, key, t), [AnyString] + Pattern(key, t.kp), t.vp, t.vp, t.values,
                    kept)
    decreases |key| - t.kp, 9
  {
    hide Decides, Loop, GoodTail, Pattern;
    if t.kp == |key| { EndsInStar(cmp, val, key, t, kept); } else { StarLoop(cmp, val, key, t, kept); }
  }

  lemma EndsInStar(cmp: Comparator, val: seq<Byte>, key: seq<Byte>, t: State, kept: bool)
    requires BehindStar(t, val, key) && t.kp == |key|
    ensures Decides(cmp, val, key, Landed(cmp, val, key, t), [AnyString] + Pattern(key, t.kp), t.vp, t.vp, t.values,
                    kept)
  {
    hide Globs, WildCount, Fills, FixedAt, Pattern;
    SkipStarsEnds(key);
    GlobsLast(cmp, [], val, t.vp);
    FixedNothing(cmp, val, |val|);
    NothingLeft(cmp, val);
    FillsStar(cmp, [], val, t.vp, |val|, []);
    assert val[t.vp..|val|] == val[t.vp..];
    WildCountStar();
    assert [AnyString] + [] == [AnyString];
    var v := val[t.vp..];
    if |t.values| + 1 <= MAX_MATCH_VALUES { assert (t.values + [v])[|t.values|..] == [v] + []; }
  }

  lemma NothingLeft(cmp: Comparator, val: seq<Byte>)
    ensures Fills(cmp, [], val, |val|, [])
  {
  }

  // ----- A text between two stars -----

  // The round knows what to look for behind a star.
  predicate Ready(b: State, val: seq<Byte>, key: seq<Byte>)
  {
    InBounds(b, val, key) && !b.backtrack && b.next == WildAt(key, b.wp) && b.wcard == Star && b.vp < |val|
      && b.kp < |key|
  }

  // A text with its '?' in front.
  function Piece(offset: nat, text: seq<Byte>): seq<Token> { Anys(offset) + Lits(text) }

  lemma PieceAt(cmp: Comparator, val: seq<Byte>, at: nat, offset: nat, text: seq<Byte>)
    ensures NoStar(Piece(offset, text)) && |Piece(offset, text)| == offset + |text|
    ensures FixedAt(cmp, val, at, Piece(offset, text)) <==> FoundAt(cmp, val, at + offset, text)
    ensures FoundAt(cmp, val, at + offset, text) ==>
              at + offset + |text| <= |val| && Caught(Piece(offset, text), val, at) == val[at..at + offset]
  {
    hide FixedAt, FoundAt, Lits, Caught;
    LitsLength(text);
    FixedParts(cmp, val, at, Anys(offset), Lits(text));
    FixedLits(cmp, val, at + offset, text);
    FixedAnys(cmp, val, at, offset);
    FoundEmpty(cmp, val, at + offset, text);
    if FoundAt(cmp, val, at + offset, text) {
      CaughtParts(Anys(offset), Lits(text), val, at);
      CaughtAnys(offset, val, at);
      CaughtLits(text, val, at + offset);
      assert val[at..at + offset] + [] == val[at..at + offset];
    }
  }

  // Where the text of a piece is first found, the piece first fits.
  lemma PieceFirst(cmp: Comparator, val: seq<Byte>, at: nat, offset: nat, text: seq<Byte>, rest: seq<Token>)
    requires at <= |val|
    ensures var r := Find(cmp, val, at + offset, text);
            && (r.Some? ==> at + offset <= r.value && r.value + |text| <= |val| && FoundAt(cmp, val, r.value, text))
            && forall j | at <= j <= |val| && (r.None? || j < r.value - offset) ::
                 !FixedAt(cmp, val, j, Piece(offset, text) + rest)
  {
    hide FixedAt, Piece;
    var r := Find(cmp, val, at + offset, text);
    forall j | at <= j <= |val| && (r.None? || j < r.value - offset)
      ensures !FixedAt(cmp, val, j, Piece(offset, text) + rest)
    {
      FixedParts(cmp, val, j, Piece(offset, text), rest);
      PieceAt(cmp, val, j, offset, text);
      assert !FoundAt(cmp, val, j + offset, text);
    }
  }

  // With a star next there are no '?' to work through.
  lemma AfterSectionAtStar(cmp: Comparator, val: seq<Byte>, key: seq<Byte>, s: State, vp: nat, found: Option<nat>,
                           chars: seq<Byte>)
    requires InBounds(s, val, key) && !s.backtrack && s.wp < |key| && s.next == WildAt(key, s.wp) == Star && vp <= |val|
    requires found.Some? ==> s.vp <= found.value <= |val|
    ensures AfterSection(cmp, val, key, s, vp, found, chars)
            == (s.(vp := vp, kp := s.wp + 1, wp := s.wp + 1,
                   values := if found.Some? then Recorded(s.values, s.mvalue, chars)
                             else AddChars(s.values, chars)), true)
  {
    hide FoundAt, Section, AddChars;
  }

  lemma {:induction false} StarNext(cmp: Comparator, val: seq<Byte>, key: seq<Byte>, b: State, kept: bool)
    requires Ready(b, val, key) && b.next == Star && b.mvalue == [] && b.wp < |key|
             && GoodTail(cmp, key, b.wp + 1, kept)
    requires b.section != [] || b.offset == 0 || SkipStars(key, b.wp) < |key|
    requires b.section != [] || b.offset > 0 ==> SkipStars(key, b.kp) == b.kp
    ensures Decides(cmp, val, key, Outcome(cmp, val, key, b),
                    [AnyString] + (Piece(b.offset, b.section) + ([AnyString] + Pattern(key, b.wp + 1))), b.vp, b.vp,
                    b.values, kept)
    decreases |key| - b.kp, 5
  {
    hide Globs, FixedAt, FoundAt, Find, Pattern, Piece, Decides, GoodTail, Outcome, SkipStars;
    var o, text := b.offset, b.section;
    var tokens, rest := Piece(o, text), [AnyString] + Pattern(key, b.wp + 1);
    var end, found := Outcome(cmp, val, key, b), Find(cmp, val, b.vp + o, text);
    FindNothing(cmp, val, b.vp + o, text);
    if b.vp + o == |val| && text == [] {
      NoTextFound(cmp, val, key, b);
      OnlyQuestions(cmp, val, key, b);
      NotDecided(cmp, val, key, end, [AnyString] + (tokens + rest), b.vp, b.vp, b.values, kept);
    } else if b.vp + o >= |val| || found.None? {
      PieceFirst(cmp, val, b.vp, o, text, []);
      PieceAt(cmp, val, b.vp, o, text);
      assert tokens + [] == tokens;
      NoTextFound(cmp, val, key, b);
      GlobsNowhere(cmp, tokens, rest, val, b.vp);
      NotDecided(cmp, val, key, end, [AnyString] + (tokens + rest), b.vp, b.vp, b.values, kept);
    } else {
      StarFound(cmp, val, key, b, found.value, kept);
    }
  }

  lemma {:induction false} StarFound(cmp: Comparator, val: seq<Byte>, key: seq<Byte>, b: State, found: nat, kept: bool)
    requires Ready(b, val, key) && b.next == Star && b.mvalue == [] && b.wp < |key|
             && GoodTail(cmp, key, b.wp + 1, kept)
    requires b.vp + b.offset < |val| && Find(cmp, val, b.vp + b.offset, b.section) == Some(found)
    ensures Decides(cmp, val, key, Outcome(cmp, val, key, b),
                    [AnyString] + (Piece(b.offset, b.section) + ([AnyString] + Pattern(key, b.wp + 1))), b.vp, b.vp,
                    b.values, kept)
    decreases |key| - b.kp, 4
  {
    hide Globs, FixedAt, FoundAt, Find, Pattern, Piece, Decides, GoodTail, Recorded, Outcome, Landed, MiddleSection;
    var o, text, at := b.offset, b.section, found - b.offset;
    var tokens, rest := Piece(o, text), [AnyString] + Pattern(key, b.wp + 1);
    PieceFirst(cmp, val, b.vp, o, text, []);
    PieceAt(cmp, val, at, o, text);
    assert tokens + [] == tokens;
    var t := b.(mvalue := val[b.vp..at], vp := found + |text|, kp := b.wp + 1, wp := b.wp + 1,
                values := Recorded(b.values, val[b.vp..at], val[at..found]));
    MiddleAtStar(cmp, val, key, b, found);
    OutcomeLanded(cmp, val, key, b, t);
    LandedDecides(cmp, val, key, t, kept);
    var end := Landed(cmp, val, key, t);
    ExtendDecides(cmp, val, key, end, tokens, Pattern(key, b.wp + 1), b.vp, at, b.values, kept);
    GlobsSkip(cmp, tokens, rest, val, b.vp, at);
    DecidesEarlier(cmp, val, key, end, [AnyString] + (tokens + rest), b.vp, b.vp, at, b.values, kept);
  }

  lemma MiddleAtStar(cmp: Comparator, val: seq<Byte>, key: seq<Byte>, b: State, found: nat)
    requires Ready(b, val, key) && b.next == Star && b.mvalue == [] && b.wp < |key|
    requires b.vp + b.offset < |val| && Find(cmp, val, b.vp + b.offset, b.section) == Some(found)
    requires b.vp + b.offset <= found && found + |b.section| <= |val|
    ensures var at := found - b.offset;
            MiddleSection(cmp, val, key, b)
            == (b.(mvalue := val[b.vp..at], vp := found + |b.section|, kp := b.wp + 1, wp := b.wp + 1,
                   values := Recorded(b.values, val[b.vp..at], val[at..found])), true)
  {
    hide FoundAt, Find, AfterSection, Recorded;
    var at := found - b.offset;
    assert [] + val[b.vp..at] == val[b.vp..at];
    AfterSectionAtStar(cmp, val, key, b.(mvalue := val[b.vp..at]), found + |b.section|, Some(found), val[at..found]);
  }

  lemma FindNothing(cmp: Comparator, val: seq<Byte>, at: nat, text: seq<Byte>)
    ensures (text != [] && at >= |val|) || at > |val| ==> Find(cmp, val, at, text) == None
    ensures text == [] && at <= |val| ==> Find(cmp, val, at, text) == Some(at)
  {
  }

  // The value ends with the '?', and the key does not.
  lemma OnlyQuestions(cmp: Comparator, val: seq<Byte>, key: seq<Byte>, b: State)
    requires b.wp < |key| && WildAt(key, b.wp) == Star && SkipStars(key, b.wp) < |key| && b.vp + b.offset == |val|
    ensures !Globs(cmp, [AnyString] + (Piece(b.offset, []) + ([AnyString] + Pattern(key, b.wp + 1))), val, b.vp)
  {
    hide Globs, FixedAt, FoundAt, Piece, SkipStars;
    var tail := Pattern(key, b.wp + 1);
    SkipStarsPattern(key, b.wp);
    PieceAt(cmp, val, b.vp, b.offset, []);
    FoundEmpty(cmp, val, |val|, []);
    GlobsHere(cmp, Piece(b.offset, []), tail, val, b.vp);
    GlobsNothing(cmp, [AnyString] + tail, val);
  }

  lemma NoTextFound(cmp: Comparator, val: seq<Byte>, key: seq<Byte>, b: State)
    requires Ready(b, val, key) && b.next == Star && SkipStars(key, b.kp) == b.kp
    requires b.vp + b.offset >= |val| || Find(cmp, val, b.vp + b.offset, b.section).None?
    ensures !Finish(val, key, Outcome(cmp, val, key, b))
  {
    hide FoundAt, Find, SkipStars;
  }

  // ----- The last text -----

  lemma LastNext(cmp: Comparator, val: seq<Byte>, key: seq<Byte>, b: State, kept: bool)
    requires Ready(b, val, key) && b.next == NoWild && b.wp == |key| && b.mvalue == []
    requires SkipStars(key, b.kp) == b.kp
    ensures Decides(cmp, val, key, Outcome(cmp, val, key, b), [AnyString] + Piece(b.offset, b.section), b.vp, b.vp,
                    b.values, kept)
  {
    hide Globs, FixedAt, FoundAt, Piece, Caught, AddChars, Fills, WildCount, SkipStars;
    var o, text := b.offset, b.section;
    var tokens := Piece(o, text);
    PieceAt(cmp, val, b.vp, o, text);
    GlobsLast(cmp, tokens, val, b.vp);
    SkipStarsEnds(key);
    var end := Outcome(cmp, val, key, b);
    if b.vp + o + |text| <= |val| {
      var at := |val| - o - |text|;
      PieceAt(cmp, val, at, o, text);
      assert [] + val[b.vp..at] == val[b.vp..at];
      if FoundAt(cmp, val, at + o, text) {
        assert end.values == Recorded(b.values, val[b.vp..at], val[at..at + o]);
        LastFills(cmp, val, key, tokens, b.vp, at, b.values);
      }
    }
  }

  lemma LastFills(cmp: Comparator, val: seq<Byte>, key: seq<Byte>, tokens: seq<Token>, from: nat, at: nat,
                  values: seq<seq<Byte>>)
    requires NoStar(tokens) && from <= at && at + |tokens| == |val| && FixedAt(cmp, val, at, tokens)
    ensures |values| + WildCount([AnyString] + tokens) <= MAX_MATCH_VALUES ==>
              var all := Recorded(values, val[from..at], Caught(tokens, val, at));
              values <= all && Fills(cmp, [AnyString] + tokens, val, from, all[|values|..])
  {
    hide FixedAt, Fills, WildCount, Caught, Recorded, Singles;
    WildCountParts([AnyString], tokens);
    WildCountStar();
    CaughtCount(tokens, val, at);
    var star, chars := val[from..at], Caught(tokens, val, at);
    if |values| + 1 + WildCount(tokens) <= MAX_MATCH_VALUES {
      RecordedAll(values, star, chars);
      var more := [star] + Singles(chars);
      assert (values + more)[|values|..] == more;
      NothingLeft(cmp, val);
      FillsFixed(cmp, tokens, [], val, at, []);
      assert tokens + [] == tokens && Singles(chars) + [] == Singles(chars);
      FillsStar(cmp, tokens, val, from, at, Singles(chars));
    }
  }

  // ----- A text with '?' behind it: the hunt -----

  // A round that looks for a text with '?' behind it; the star in front began at `from`.
  predicate Hunts(b: State, val: seq<Byte>, key: seq<Byte>, from: nat)
  {
    && Ready(b, val, key) && b.next == Quest && b.wp < |key| && b.section != []
    && from <= b.vp && b.mvalue == val[from..b.vp]
  }

  lemma HuntEnds(val: seq<Byte>, key: seq<Byte>, end: State)
    requires end.kp <= |key| && end.next == Quest
    ensures !Finish(val, key, end)
  {
  }

  // What the round makes of the text found at `found`.
  ghost predicate Tried(cmp: Comparator, val: seq<Byte>, key: seq<Byte>, b: State, from: nat, found: nat)
    requires Hunts(b, val, key, from) && b.vp + b.offset <= found && found + |b.section| <= |val|
  {
    var run, end := RunAt(key, b.wp + 1), Outcome(cmp, val, key, b);
    var vp, e := found + |b.section|, Behind(key, run.end);
    if RunFits(cmp, val, key, vp, run) then
      var t := b.(mvalue := val[from..found - b.offset], vp := vp + |run.tokens|, kp := e, wp := e,
                  next := WildAt(key, run.end),
                  values := Recorded(b.values, val[from..found - b.offset],
                                     val[found - b.offset..found] + CaughtAt(run.tokens, val, vp)));
      InBounds(t, val, key) && end == if run.end < |key| then Landed(cmp, val, key, t) else t
    else if found + 1 < |val| then
      end == Outcome(cmp, val, key, b.(vp := found + 1, mvalue := val[from..found - b.offset] + [val[found]]))
    else end.next == Quest
  }

  lemma RoundTries(cmp: Comparator, val: seq<Byte>, key: seq<Byte>, b: State, from: nat, found: nat)
    requires Hunts(b, val, key, from) && b.vp + b.offset < |val|
             && Find(cmp, val, b.vp + b.offset, b.section) == Some(found)
    requires found + |b.section| <= |val| && b.vp + b.offset <= found
    ensures Tried(cmp, val, key, b, from, found)
  {
    hide Find, FoundAt, RunAt, FixedAt, Questions, AddChars, CaughtAt, Outcome, Landed, MiddleSection, AfterSection,
      RunDone;
    var run, vp := RunAt(key, b.wp + 1), found + |b.section|;
    var q := Trail(vp, b.wp + 1, b.wp + 1, Quest, val[found - b.offset..found], false);
    var c := b.(mvalue := val[from..found - b.offset]);
    QuestionsRun(cmp, val, key, q);
    MiddleIsAfter(cmp, val, key, b, from, found);
    if RunFits(cmp, val, key, vp, run) {
      TriedFits(cmp, val, key, b, c, q, found);
    } else {
      TriedFails(cmp, val, key, b, c, q, found);
    }
  }

  lemma MiddleIsAfter(cmp: Comparator, val: seq<Byte>, key: seq<Byte>, b: State, from: nat, found: nat)
    requires Hunts(b, val, key, from) && b.vp + b.offset < |val|
             && Find(cmp, val, b.vp + b.offset, b.section) == Some(found)
    requires found + |b.section| <= |val| && b.vp + b.offset <= found
    ensures MiddleSection(cmp, val, key, b)
            == AfterSection(cmp, val, key, b.(mvalue := val[from..found - b.offset]), found + |b.section|, Some(found),
                            val[found - b.offset..found])
  {
    hide Find, FoundAt, AfterSection;
    assert val[from..b.vp] + val[b.vp..found - b.offset] == val[from..found - b.offset];
  }

  lemma TriedFits(cmp: Comparator, val: seq<Byte>, key: seq<Byte>, b: State, c: State, q: Trail, found: nat)
    requires Ready(b, val, key) && b.next == Quest && b.wp < |key| && c == b.(mvalue := c.mvalue)
    requires b.vp <= found <= |val| && q == Trail(q.vp, b.wp + 1, b.wp + 1, Quest, q.chars, false) && q.vp <= |val|
    requires MiddleSection(cmp, val, key, b) == AfterSection(cmp, val, key, c, q.vp, Some(found), q.chars)
    requires RunDone(cmp, val, key, q, RunAt(key, q.wp), Questions(cmp, val, key, q))
    requires RunFits(cmp, val, key, q.vp, RunAt(key, q.wp))
    ensures var run := RunAt(key, q.wp); var e := Behind(key, run.end);
            var t := c.(vp := q.vp + |run.tokens|, kp := e, wp := e, next := WildAt(key, run.end),
                        values := Recorded(b.values, c.mvalue, q.chars + CaughtAt(run.tokens, val, q.vp)));
            InBounds(t, val, key)
              && Outcome(cmp, val, key, b) == if run.end < |key| then Landed(cmp, val, key, t) else t
  {
    hide RunAt, FixedAt, Questions, AddChars, CaughtAt, MiddleSection, Outcome, Landed;
    var run := RunAt(key, q.wp);
    var e := Behind(key, run.end);
    FixedFits(cmp, val, q.vp, run.tokens);
    var t := c.(vp := q.vp + |run.tokens|, kp := e, wp := e, next := WildAt(key, run.end),
                values := Recorded(b.values, c.mvalue, q.chars + CaughtAt(run.tokens, val, q.vp)));
    if run.end < |key| { OutcomeLanded(cmp, val, key, b, t); } else { OutcomeEnds(cmp, val, key, b, t); }
  }

  lemma TriedFails(cmp: Comparator, val: seq<Byte>, key: seq<Byte>, b: State, c: State, q: Trail, found: nat)
    requires Ready(b, val, key) && b.next == Quest && b.wp < |key| && c == b.(mvalue := c.mvalue)
    requires b.vp <= found < q.vp <= |val| && q == Trail(q.vp, b.wp + 1, b.wp + 1, Quest, q.chars, false)
    requires MiddleSection(cmp, val, key, b) == AfterSection(cmp, val, key, c, q.vp, Some(found), q.chars)
    requires RunDone(cmp, val, key, q, RunAt(key, q.wp), Questions(cmp, val, key, q))
    requires !RunFits(cmp, val, key, q.vp, RunAt(key, q.wp))
    ensures var end := Outcome(cmp, val, key, b);
            if found + 1 < |val| then
              end == Outcome(cmp, val, key, b.(vp := found + 1, mvalue := c.mvalue + [val[found]]))
            else end.next == Quest
  {
    hide RunAt, FixedAt, Questions, AddChars, CaughtAt, MiddleSection, Landed;
    if found + 1 < |val| {
      var s := c.(vp := found + 1, mvalue := c.mvalue + [val[found]], wcard := Star, next := Quest, backtrack := true);
      assert Resume(cmp, val, key, b) == (s, true);
      hide Resume, Begin;
      BeginAgain(key, s);
      LoopIsOutcome(cmp, val, key, s);
    }
  }

  lemma BeginAgain(key: seq<Byte>, s: State)
    requires s.wp <= |key| && s.backtrack
    ensures Begin(key, s) == s.(backtrack := false)
  {
  }

  // The stretch the hunt looks for: the text and the run behind it.
  lemma StretchAt(cmp: Comparator, val: seq<Byte>, at: nat, offset: nat, text: seq<Byte>, run: Run)
    requires FoundAt(cmp, val, at + offset, text) && NoStar(run.tokens)
    ensures var tokens := Piece(offset, text) + run.tokens; var vp := at + offset + |text|;
            && NoStar(tokens) && |tokens| == offset + |text| + |run.tokens|
            && (FixedAt(cmp, val, at, tokens) <==> FixedAt(cmp, val, vp, run.tokens))
            && (FixedAt(cmp, val, vp, run.tokens) ==>
                  at + |tokens| <= |val|
                    && Caught(tokens, val, at) == val[at..at + offset] + CaughtAt(run.tokens, val, vp))
  {
    hide FixedAt, FoundAt, Piece, Caught;
    var piece, vp := Piece(offset, text), at + offset + |text|;
    PieceAt(cmp, val, at, offset, text);
    FixedParts(cmp, val, at, piece, run.tokens);
    if FixedAt(cmp, val, vp, run.tokens) {
      FixedFits(cmp, val, vp, run.tokens);
      CaughtParts(piece, run.tokens, val, at);
    }
  }

  lemma RunRest(key: seq<Byte>, p: nat)
    requires p <= |key|
    ensures var run := RunAt(key, p);
            NoStar(run.tokens) && |run.tokens| >= 1
            && Pattern(key, run.end) == if run.end < |key| then [AnyString] + Pattern(key, run.end + 1) else []
  {
    RunPattern(key, p);
    hide RunAt;
  }

  lemma {:induction false} HuntDecides(cmp: Comparator, val: seq<Byte>, key: seq<Byte>, b: State, from: nat, kept: bool)
    requires Hunts(b, val, key, from) && b.offset == 0
    requires var run := RunAt(key, b.wp + 1);
             if run.end < |key| then GoodTail(cmp, key, run.end + 1, kept) else run.open
    ensures var run := RunAt(key, b.wp + 1);
            Decides(cmp, val, key, Outcome(cmp, val, key, b),
                    [AnyString] + (Piece(0, b.section) + run.tokens + Pattern(key, run.end)), from, b.vp, b.values,
                    kept)
    decreases |key| - b.kp, 5, |val| - b.vp
  {
    hide Globs, FixedAt, FoundAt, Find, Pattern, Piece, Decides, GoodTail, Outcome, RunAt, Tried, Finish, Fills;
    var run, text := RunAt(key, b.wp + 1), b.section;
    var tokens, rest, end := Piece(0, text) + run.tokens, Pattern(key, run.end), Outcome(cmp, val, key, b);
    var pattern := [AnyString] + (tokens + rest);
    RunRest(key, b.wp + 1);
    PieceAt(cmp, val, b.vp, 0, text);
    PieceFirst(cmp, val, b.vp, 0, text, run.tokens);
    var r := Find(cmp, val, b.vp, text);
    if r.None? {
      HuntFindsNothing(cmp, val, key, b);
      GlobsNowhere(cmp, tokens, rest, val, b.vp);
      NotDecided(cmp, val, key, end, pattern, from, b.vp, b.values, kept);
    } else {
      var found := r.value;
      RoundTries(cmp, val, key, b, from, found);
      StretchAt(cmp, val, found, 0, text, run);
      if RunFits(cmp, val, key, found + |text|, run) {
        HuntSucceeds(cmp, val, key, b, from, found, kept);
      } else {
        HuntGoesOn(cmp, val, key, b, from, found, kept);
      }
      GlobsSkip(cmp, tokens, rest, val, b.vp, found);
      DecidesEarlier(cmp, val, key, end, pattern, from, b.vp, found, b.values, kept);
    }
  }

  lemma HuntFindsNothing(cmp: Comparator, val: seq<Byte>, key: seq<Byte>, b: State)
    requires Ready(b, val, key) && b.next == Quest && b.wp < |key|
    requires b.vp + b.offset >= |val| || Find(cmp, val, b.vp + b.offset, b.section).None?
    ensures !Finish(val, key, Outcome(cmp, val, key, b))
  {
    hide FoundAt, Find, SkipStars;
  }

  lemma {:induction false} HuntSucceeds(cmp: Comparator, val: seq<Byte>, key: seq<Byte>, b: State, from: nat,
                                        found: nat, kept: bool)
    requires Hunts(b, val, key, from) && b.vp + b.offset <= found && found + |b.section| <= |val|
    requires FoundAt(cmp, val, found, b.section) && Tried(cmp, val, key, b, from, found)
    requires RunFits(cmp, val, key, found + |b.section|, RunAt(key, b.wp + 1))
    requires var run := RunAt(key, b.wp + 1);
             if run.end < |key| then GoodTail(cmp, key, run.end + 1, kept) else run.open && b.offset == 0
    ensures var run := RunAt(key, b.wp + 1);
            Decides(cmp, val, key, Outcome(cmp, val, key, b),
                    [AnyString] + (Piece(b.offset, b.section) + run.tokens + Pattern(key, run.end)),
                    from, found - b.offset, b.values, kept)
    decreases |key| - b.kp, 3
  {
    hide Globs, FixedAt, FoundAt, Find, Pattern, Piece, Decides, GoodTail, Outcome, RunAt, Finish, Fills, Recorded,
      Caught, CaughtAt, Landed;
    var run, text, at := RunAt(key, b.wp + 1), b.section, found - b.offset;
    var tokens, end := Piece(b.offset, text) + run.tokens, Outcome(cmp, val, key, b);
    RunRest(key, b.wp + 1);
    StretchAt(cmp, val, at, b.offset, text, run);
    var vp, e := found + |text|, Behind(key, run.end);
    var t := b.(mvalue := val[from..at], vp := vp + |run.tokens|, kp := e, wp := e, next := WildAt(key, run.end),
                values := Recorded(b.values, val[from..at], val[at..found] + CaughtAt(run.tokens, val, vp)));
    if run.end < |key| {
      LandedDecides(cmp, val, key, t, kept);
      ExtendDecides(cmp, val, key, end, tokens, Pattern(key, run.end + 1), from, at, b.values, kept);
    } else {
      EndsHunt(cmp, val, key, end, tokens, from, at, b.values, kept);
    }
  }

  lemma EndsHunt(cmp: Comparator, val: seq<Byte>, key: seq<Byte>, end: State, tokens: seq<Token>, from: nat, at: nat,
                 values: seq<seq<Byte>>, kept: bool)
    requires NoStar(tokens) && from <= at && at + |tokens| == |val| && FixedAt(cmp, val, at, tokens)
    requires end.kp == |key| && end.vp == |val| && end.next == NoWild
    requires end.values == Recorded(values, val[from..at], Caught(tokens, val, at))
    ensures Decides(cmp, val, key, end, [AnyString] + (tokens + []), from, at, values, kept)
  {
    hide Globs, FixedAt, Fills, Recorded, Caught, WildCount;
    assert tokens + [] == tokens;
    SkipStarsEnds(key);
    GlobsLast(cmp, tokens, val, at);
    LastFills(cmp, val, key, tokens, from, at, values);
  }

  lemma {:induction false} HuntGoesOn(cmp: Comparator, val: seq<Byte>, key: seq<Byte>, b: State, from: nat, found: nat,
                                      kept: bool)
    requires Hunts(b, val, key, from) && b.offset == 0 && b.vp <= found && found + |b.section| <= |val|
    requires FoundAt(cmp, val, found, b.section) && Tried(cmp, val, key, b, from, found)
    requires !RunFits(cmp, val, key, found + |b.section|, RunAt(key, b.wp + 1))
    requires var run := RunAt(key, b.wp + 1);
             if run.end < |key| then GoodTail(cmp, key, run.end + 1, kept) else run.open
    ensures var run := RunAt(key, b.wp + 1);
            Decides(cmp, val, key, Outcome(cmp, val, key, b),
                    [AnyString] + (Piece(0, b.section) + run.tokens + Pattern(key, run.end)), from, found, b.values,
                    kept)
    decreases |key| - b.kp, 5, |val| - b.vp, 0
  {
    hide Globs, FixedAt, FoundAt, Find, Pattern, Piece, Decides, GoodTail, Outcome, RunAt, Finish, Fills, Tried,
      RunFits;
    var run, text := RunAt(key, b.wp + 1), b.section;
    var tokens, rest, end := Piece(0, text) + run.tokens, Pattern(key, run.end), Outcome(cmp, val, key, b);
    var pattern := [AnyString] + (tokens + rest);
    RunRest(key, b.wp + 1);
    StretchAt(cmp, val, found, 0, text, run);
    TriedInVain(cmp, val, key, b, from, found);
    if found + 1 < |val| {
      if FixedAt(cmp, val, found, tokens) { FixedFits(cmp, val, found, tokens); }
      NotHere(cmp, val, key, run, found, tokens);
      GlobsLater(cmp, tokens, rest, val, found);
      HuntDecides(cmp, val, key, b.(vp := found + 1, mvalue := val[from..found + 1]), from, kept);
      DecidesEarlier(cmp, val, key, end, pattern, from, found, found + 1, b.values, kept);
    } else {
      HuntEnds(val, key, end);
      forall j | found <= j <= |val| ensures !FixedAt(cmp, val, j, tokens) { NoRoom(cmp, val, j, tokens); }
      GlobsNowhere(cmp, tokens, rest, val, found);
      NotDecided(cmp, val, key, end, pattern, from, found, b.values, kept);
    }
  }

  lemma TriedInVain(cmp: Comparator, val: seq<Byte>, key: seq<Byte>, b: State, from: nat, found: nat)
    requires Hunts(b, val, key, from) && b.offset == 0 && b.vp <= found && found + |b.section| <= |val|
    requires Tried(cmp, val, key, b, from, found) && !RunFits(cmp, val, key, found + |b.section|, RunAt(key, b.wp + 1))
    ensures var end := Outcome(cmp, val, key, b);
            if found + 1 < |val| then end == Outcome(cmp, val, key, b.(vp := found + 1, mvalue := val[from..found + 1]))
            else end.next == Quest
  {
    hide Outcome, RunAt, RunFits, Landed, Recorded, CaughtAt, InBounds, Behind;
    if found + 1 < |val| { assert val[from..found - b.offset] + [val[found]] == val[from..found + 1]; }
  }

  // Where the run does not fit, the stretch does not, or the value does not end with it.
  lemma NotHere(cmp: Comparator, val: seq<Byte>, key: seq<Byte>, run: Run, at: nat, tokens: seq<Token>)
    requires |run.tokens| <= |tokens| && !RunFits(cmp, val, key, at + |tokens| - |run.tokens|, run)
    requires FixedAt(cmp, val, at, tokens) ==> at + |tokens| <= |val|
    requires FixedAt(cmp, val, at, tokens) <==> FixedAt(cmp, val, at + |tokens| - |run.tokens|, run.tokens)
    requires run.end < |key| || run.open
    requires run.end == |key| ==> Pattern(key, run.end) == []
    requires run.end <= |key|
    ensures !(FixedAt(cmp, val, at, tokens) && Globs(cmp, Pattern(key, run.end), val, at + |tokens|))
  {
    hide FixedAt, Pattern;
  }

  lemma NothingButEnd(cmp: Comparator, val: seq<Byte>, at: nat)
    ensures at <= |val| ==> (Globs(cmp, [], val, at) <==> at == |val|)
  {
  }

  // ----- A text with '?' on both sides, and no text behind the latter -----

  lemma AnysRun(cmp: Comparator, val: seq<Byte>, at: nat, tokens: seq<Token>)
    requires AllAnyChar(tokens)
    ensures FixedAt(cmp, val, at, tokens) <==> at + |tokens| <= |val|
  {
  }

  // Once there is no room for the '?' behind the text, there never is.
  lemma {:induction false} HopelessHunt(cmp: Comparator, val: seq<Byte>, key: seq<Byte>, b: State, from: nat)
    requires Ready(b, val, key) && b.next == Quest && b.wp < |key| && b.section != [] && from <= b.vp
    requires b.vp + b.offset + |b.section| + |RunAt(key, b.wp + 1).tokens| > |val|
    ensures !Finish(val, key, Outcome(cmp, val, key, b))
    decreases |val| - b.vp
  {
    hide FixedAt, FoundAt, Find, Outcome, RunAt, Finish;
    var run := RunAt(key, b.wp + 1);
    var c := b.(mvalue := val[from..b.vp]);
    var r := Find(cmp, val, b.vp + b.offset, b.section);
    PieceFirst(cmp, val, b.vp, b.offset, b.section, []);
    if b.vp + b.offset >= |val| || r.None? {
      HuntFindsNothing(cmp, val, key, b);
    } else {
      var found := r.value;
      NoRoom(cmp, val, found + |b.section|, run.tokens);
      HopelessTry(cmp, val, key, b, found);
      if found + 1 < |val| {
        var star := b.mvalue + val[b.vp..found - b.offset];
        HopelessHunt(cmp, val, key, b.(vp := found + 1, mvalue := star + [val[found]]), from);
      } else {
        HuntEnds(val, key, Outcome(cmp, val, key, b));
      }
    }
  }

  lemma HopelessTry(cmp: Comparator, val: seq<Byte>, key: seq<Byte>, b: State, found: nat)
    requires Ready(b, val, key) && b.next == Quest && b.wp < |key| && b.section != []
    requires b.vp + b.offset < |val| && Find(cmp, val, b.vp + b.offset, b.section) == Some(found)
    requires found + |b.section| <= |val| && b.vp + b.offset <= found
    requires !RunFits(cmp, val, key, found + |b.section|, RunAt(key, b.wp + 1))
    ensures var end := Outcome(cmp, val, key, b); var star := b.mvalue + val[b.vp..found - b.offset];
            if found + 1 < |val| then end == Outcome(cmp, val, key, b.(vp := found + 1, mvalue := star + [val[found]]))
            else end.next == Quest
  {
    hide Find, FoundAt, RunAt, FixedAt, Questions, AddChars, CaughtAt, Outcome, AfterSection, RunDone;
    var q := Trail(found + |b.section|, b.wp + 1, b.wp + 1, Quest, val[found - b.offset..found], false);
    QuestionsRun(cmp, val, key, q);
    TriedFails(cmp, val, key, b, b.(mvalue := b.mvalue + val[b.vp..found - b.offset]), q, found);
  }

  lemma {:induction false} PlainDecides(cmp: Comparator, val: seq<Byte>, key: seq<Byte>, b: State, kept: bool)
    requires Hunts(b, val, key, b.vp)
    requires var run := RunAt(key, b.wp + 1);
             run.end < |key| && AllAnyChar(run.tokens) && GoodTail(cmp, key, run.end + 1, kept)
    ensures var run := RunAt(key, b.wp + 1);
            Decides(cmp, val, key, Outcome(cmp, val, key, b),
                    [AnyString] + (Piece(b.offset, b.section) + run.tokens + Pattern(key, run.end)), b.vp, b.vp,
                    b.values, kept)
    decreases |key| - b.kp, 5
  {
    hide Globs, FixedAt, FoundAt, Find, Pattern, Piece, Decides, GoodTail, Outcome, RunAt, Tried, Finish, Fills,
      AllAnyChar;
    var run, text, o := RunAt(key, b.wp + 1), b.section, b.offset;
    var tokens, rest, end := Piece(o, text) + run.tokens, Pattern(key, run.end), Outcome(cmp, val, key, b);
    var pattern := [AnyString] + (tokens + rest);
    RunRest(key, b.wp + 1);
    PieceAt(cmp, val, b.vp, o, text);
    PieceFirst(cmp, val, b.vp, o, text, run.tokens);
    var r := Find(cmp, val, b.vp + o, text);
    FindNothing(cmp, val, b.vp + o, text);
    if b.vp + o >= |val| || r.None? {
      HuntFindsNothing(cmp, val, key, b);
      GlobsNowhere(cmp, tokens, rest, val, b.vp);
      NotDecided(cmp, val, key, end, pattern, b.vp, b.vp, b.values, kept);
    } else {
      var found := r.value;
      StretchAt(cmp, val, found - o, o, text, run);
      AnysRun(cmp, val, found + |text|, run.tokens);
      if found + |text| + |run.tokens| <= |val| {
        RoundTries(cmp, val, key, b, b.vp, found);
        HuntSucceeds(cmp, val, key, b, b.vp, found, kept);
        GlobsSkip(cmp, tokens, rest, val, b.vp, found - o);
        DecidesEarlier(cmp, val, key, end, pattern, b.vp, b.vp, found - o, b.values, kept);
      } else {
        PlainFails(cmp, val, key, b, found);
        forall j | b.vp <= j <= |val| ensures !FixedAt(cmp, val, j, tokens) {
          if j >= found - o { NoRoom(cmp, val, j, tokens); }
        }
        GlobsNowhere(cmp, tokens, rest, val, b.vp);
        NotDecided(cmp, val, key, end, pattern, b.vp, b.vp, b.values, kept);
      }
    }
  }

  lemma PlainFails(cmp: Comparator, val: seq<Byte>, key: seq<Byte>, b: State, found: nat)
    requires Hunts(b, val, key, b.vp) && b.vp + b.offset < |val|
    requires Find(cmp, val, b.vp + b.offset, b.section) == Some(found) && b.vp + b.offset <= found
             && found + |b.section| <= |val|
    requires found + |b.section| + |RunAt(key, b.wp + 1).tokens| > |val|
    ensures !Finish(val, key, Outcome(cmp, val, key, b))
  {
    hide FixedAt, FoundAt, Find, Outcome, RunAt, Finish;
    NoRoom(cmp, val, found + |b.section|, RunAt(key, b.wp + 1).tokens);
    HopelessTry(cmp, val, key, b, found);
    if found + 1 < |val| {
      var star := b.mvalue + val[b.vp..found - b.offset];
      HopelessHunt(cmp, val, key, b.(vp := found + 1, mvalue := star + [val[found]]), b.vp);
    } else {
      HuntEnds(val, key, Outcome(cmp, val, key, b));
    }
  }

  // ----- A text with '?' on both sides, without regard to the match values -----

  ghost predicate Agrees(cmp: Comparator, val: seq<Byte>, key: seq<Byte>, end: State, pattern: seq<Token>, at: nat)
    requires end.kp <= |key| && at <= |val|
  {
    Finish(val, key, end) <==> Globs(cmp, pattern, val, at)
  }

  // Where the stretch fits a little further on, the text begins again there.
  lemma FoundAgain(cmp: Comparator, val: seq<Byte>, found: nat, text: seq<Byte>, d: nat)
    requires FoundAt(cmp, val, found, text) && FoundAt(cmp, val, found + d, text)
    ensures Overlaps(cmp, text, d)
  {
    forall i | d <= i < |text| ensures Same(cmp, text[i], text[i - d]) {
      assert Same(cmp, val[found + i], text[i]) && Same(cmp, val[found + d + (i - d)], text[i - d]);
    }
  }

  // If no token is loose, the run fits already where the text was found first.
  lemma FitsAlready(cmp: Comparator, val: seq<Byte>, found: nat, text: seq<Byte>, run: seq<Token>, d: nat)
    requires var tokens := Lits(text) + run;
             && FixedAt(cmp, val, found + d, tokens) && |Lits(text)| == |text| && NoStar(run)
             && !exists i | |text| <= i < |tokens| :: Loose(cmp, tokens, i, d)
    ensures FixedAt(cmp, val, found + |text|, run)
  {
    hide Lits;
    var tokens := Lits(text) + run;
    forall k | 0 <= k < |run| ensures Fits(cmp, run[k], val[found + |text| + k]) {
      var i := |text| + k;
      assert tokens[i] == run[k] && run[k] in run;
      assert !Loose(cmp, tokens, i, d);
      if run[k].Lit? { assert Fits(cmp, tokens[i - d], val[found + d + (i - d)]); }
    }
  }

  lemma NeverMissed(cmp: Comparator, val: seq<Byte>, key: seq<Byte>, offset: nat, text: seq<Byte>, run: Run, found: nat,
                    j: nat)
    requires offset <= found && found - offset < j <= found && FoundAt(cmp, val, found, text) && NoStar(run.tokens)
    requires run.end <= |key| && !RunFits(cmp, val, key, found + |text|, run)
    requires !Misses(cmp, text, offset, run, run.end == |key|)
    ensures !FixedAt(cmp, val, j, Piece(offset, text) + run.tokens)
  {
    hide FixedAt, FoundAt, Lits, Piece, Overlaps, Loose, NoStar;
    if FixedAt(cmp, val, j, Piece(offset, text) + run.tokens) {
      var d := j - (found - offset);
      PieceAt(cmp, val, j, offset, text);
      FixedParts(cmp, val, j, Piece(offset, text), run.tokens);
      FoundAgain(cmp, val, found, text, d);
      LitsLength(text);
      FixedLits(cmp, val, found + d, text);
      FixedParts(cmp, val, found + d, Lits(text), run.tokens);
      assert !MissesBy(cmp, text, run, run.end == |key|, d);
      FitsAlready(cmp, val, found, text, run.tokens, d);
    }
  }

  // The state in which the round leaves a text that is found and a run that fits.
  lemma LuckyTry(cmp: Comparator, val: seq<Byte>, key: seq<Byte>, b: State, found: nat) returns (t: State)
    requires Ready(b, val, key) && b.next == Quest && b.wp < |key| && b.section != []
    requires b.vp + b.offset < |val| && Find(cmp, val, b.vp + b.offset, b.section) == Some(found)
    requires found + |b.section| <= |val| && b.vp + b.offset <= found
    requires RunFits(cmp, val, key, found + |b.section|, RunAt(key, b.wp + 1))
    ensures var run := RunAt(key, b.wp + 1); var e := Behind(key, run.end);
            && InBounds(t, val, key) && !t.backtrack && t.kp == t.wp == e && t.next == WildAt(key, run.end)
            && t.vp == found + |b.section| + |run.tokens|
            && t.values == Recorded(b.values, b.mvalue + val[b.vp..found - b.offset],
                                    val[found - b.offset..found] + CaughtAt(run.tokens, val, found + |b.section|))
            && Outcome(cmp, val, key, b) == if run.end < |key| then Landed(cmp, val, key, t) else t
  {
    hide Find, FoundAt, RunAt, FixedAt, Questions, AddChars, CaughtAt, Outcome, AfterSection, RunDone, Landed;
    var run := RunAt(key, b.wp + 1);
    var e := Behind(key, run.end);
    var q := Trail(found + |b.section|, b.wp + 1, b.wp + 1, Quest, val[found - b.offset..found], false);
    var c := b.(mvalue := b.mvalue + val[b.vp..found - b.offset]);
    QuestionsRun(cmp, val, key, q);
    TriedFits(cmp, val, key, b, c, q, found);
    t := c.(vp := q.vp + |run.tokens|, kp := e, wp := e, next := WildAt(key, run.end),
            values := Recorded(b.values, c.mvalue, q.chars + CaughtAt(run.tokens, val, q.vp)));
  }

  // A round of the long hunt.
  ghost predicate LongHunts(cmp: Comparator, val: seq<Byte>, key: seq<Byte>, b: State)
  {
    && Ready(b, val, key) && b.next == Quest && b.wp < |key| && b.section != []
    && var run := RunAt(key, b.wp + 1);
       && !Misses(cmp, b.section, b.offset, run, run.end == |key|)
       && if run.end < |key| then GoodTail(cmp, key, run.end + 1, false) else run.open
  }

  ghost function HuntPattern(key: seq<Byte>, b: State): seq<Token>
    requires b.wp < |key|
  {
    var run := RunAt(key, b.wp + 1);
    [AnyString] + (Piece(b.offset, b.section) + run.tokens + Pattern(key, run.end))
  }

  lemma {:induction false} LongHunt(cmp: Comparator, val: seq<Byte>, key: seq<Byte>, b: State)
    requires LongHunts(cmp, val, key, b)
    ensures Agrees(cmp, val, key, Outcome(cmp, val, key, b), HuntPattern(key, b), b.vp)
    decreases |key| - b.kp, 5, |val| - b.vp
  {
    hide Globs, FixedAt, FoundAt, Find, Pattern, Piece, GoodTail, Outcome, RunAt, Finish, Misses;
    var run, text, o := RunAt(key, b.wp + 1), b.section, b.offset;
    var tokens, rest := Piece(o, text) + run.tokens, Pattern(key, run.end);
    RunRest(key, b.wp + 1);
    PieceAt(cmp, val, b.vp, o, text);
    PieceFirst(cmp, val, b.vp, o, text, run.tokens);
    var r := Find(cmp, val, b.vp + o, text);
    FindNothing(cmp, val, b.vp + o, text);
    if b.vp + o >= |val| || r.None? {
      HuntFindsNothing(cmp, val, key, b);
      GlobsNowhere(cmp, tokens, rest, val, b.vp);
    } else {
      var found := r.value;
      if RunFits(cmp, val, key, found + |text|, run) {
        LongHuntEnds(cmp, val, key, b, found);
      } else {
        LongHuntGoesOn(cmp, val, key, b, found);
      }
      StretchAt(cmp, val, found - o, o, text, run);
      GlobsSkip(cmp, tokens, rest, val, b.vp, found - o);
    }
  }

  lemma {:induction false} LongHuntEnds(cmp: Comparator, val: seq<Byte>, key: seq<Byte>, b: State, found: nat)
    requires LongHunts(cmp, val, key, b) && FoundAt(cmp, val, found, b.section)
    requires b.vp + b.offset < |val| && Find(cmp, val, b.vp + b.offset, b.section) == Some(found)
    requires found + |b.section| <= |val| && b.vp + b.offset <= found
    requires RunFits(cmp, val, key, found + |b.section|, RunAt(key, b.wp + 1))
    ensures Agrees(cmp, val, key, Outcome(cmp, val, key, b), HuntPattern(key, b), found - b.offset)
    decreases |key| - b.kp, 3
  {
    hide Globs, FixedAt, FoundAt, Find, Agrees, HuntPattern, GoodTail, Outcome, RunAt, Misses, RunFits;
    if RunAt(key, b.wp + 1).end < |key| {
      LongHuntLands(cmp, val, key, b, found);
    } else {
      LongHuntIsLast(cmp, val, key, b, found);
    }
  }

  // A star follows the run.
  lemma {:induction false} LongHuntLands(cmp: Comparator, val: seq<Byte>, key: seq<Byte>, b: State, found: nat)
    requires LongHunts(cmp, val, key, b) && FoundAt(cmp, val, found, b.section)
    requires b.vp + b.offset < |val| && Find(cmp, val, b.vp + b.offset, b.section) == Some(found)
    requires found + |b.section| <= |val| && b.vp + b.offset <= found
    requires RunFits(cmp, val, key, found + |b.section|, RunAt(key, b.wp + 1))
    requires RunAt(key, b.wp + 1).end < |key|
    ensures Agrees(cmp, val, key, Outcome(cmp, val, key, b), HuntPattern(key, b), found - b.offset)
    decreases |key| - b.kp, 2
  {
    hide Globs, FixedAt, FoundAt, Find, Pattern, Piece, GoodTail, Outcome, RunAt, Misses, Landed, Finish, Fills;
    var run, at := RunAt(key, b.wp + 1), found - b.offset;
    var tokens := Piece(b.offset, b.section) + run.tokens;
    RunRest(key, b.wp + 1);
    StretchAt(cmp, val, at, b.offset, b.section, run);
    var t := LuckyTry(cmp, val, key, b, found);
    LandedDecides(cmp, val, key, t, false);
    GlobsHere(cmp, tokens, Pattern(key, run.end + 1), val, at);
  }

  // The run ends the key.
  lemma LongHuntIsLast(cmp: Comparator, val: seq<Byte>, key: seq<Byte>, b: State, found: nat)
    requires LongHunts(cmp, val, key, b) && FoundAt(cmp, val, found, b.section)
    requires b.vp + b.offset < |val| && Find(cmp, val, b.vp + b.offset, b.section) == Some(found)
    requires found + |b.section| <= |val| && b.vp + b.offset <= found
    requires RunFits(cmp, val, key, found + |b.section|, RunAt(key, b.wp + 1))
    requires RunAt(key, b.wp + 1).end == |key|
    ensures Agrees(cmp, val, key, Outcome(cmp, val, key, b), HuntPattern(key, b), found - b.offset)
  {
    hide Globs, FixedAt, FoundAt, Find, Pattern, Piece, GoodTail, Outcome, RunAt, SkipStars, Misses, Landed;
    var run, at := RunAt(key, b.wp + 1), found - b.offset;
    var tokens := Piece(b.offset, b.section) + run.tokens;
    RunRest(key, b.wp + 1);
    StretchAt(cmp, val, at, b.offset, b.section, run);
    var t := LuckyTry(cmp, val, key, b, found);
    SkipStarsEnds(key);
    assert tokens + [] == tokens;
    GlobsLast(cmp, tokens, val, at);
  }

  lemma {:induction false} LongHuntGoesOn(cmp: Comparator, val: seq<Byte>, key: seq<Byte>, b: State, found: nat)
    requires LongHunts(cmp, val, key, b) && FoundAt(cmp, val, found, b.section)
    requires b.vp + b.offset < |val| && Find(cmp, val, b.vp + b.offset, b.section) == Some(found)
    requires found + |b.section| <= |val| && b.vp + b.offset <= found
    requires !RunFits(cmp, val, key, found + |b.section|, RunAt(key, b.wp + 1))
    ensures Agrees(cmp, val, key, Outcome(cmp, val, key, b), HuntPattern(key, b), found - b.offset)
    decreases |key| - b.kp, 5, |val| - b.vp, 0
  {
    hide Globs, FixedAt, FoundAt, Find, Pattern, Piece, GoodTail, Outcome, RunAt, Finish, RunFits, Misses;
    var run, text, o, at := RunAt(key, b.wp + 1), b.section, b.offset, found - b.offset;
    var tokens, rest := Piece(o, text) + run.tokens, Pattern(key, run.end);
    RunRest(key, b.wp + 1);
    StretchAt(cmp, val, at, o, text, run);
    HopelessTry(cmp, val, key, b, found);
    forall j | at < j <= found ensures !FixedAt(cmp, val, j, tokens) {
      NeverMissed(cmp, val, key, o, text, run, found, j);
    }
    if found + 1 < |val| {
      if FixedAt(cmp, val, at, tokens) { FixedFits(cmp, val, at, tokens); }
      NotHere(cmp, val, key, run, at, tokens);
      GlobsLater(cmp, tokens, rest, val, at);
      GlobsSkip(cmp, tokens, rest, val, at + 1, found + 1);
      LongHunt(cmp, val, key, b.(vp := found + 1, mvalue := b.mvalue + val[b.vp..at] + [val[found]]));
    } else {
      HuntEnds(val, key, Outcome(cmp, val, key, b));
      forall j | at <= j <= |val| ensures !FixedAt(cmp, val, j, tokens) { NoRoom(cmp, val, j, tokens); }
      GlobsNowhere(cmp, tokens, rest, val, at);
    }
  }

  lemma {:induction false} LongHuntDecides(cmp: Comparator, val: seq<Byte>, key: seq<Byte>, b: State)
    requires LongHunts(cmp, val, key, b)
    ensures Decides(cmp, val, key, Outcome(cmp, val, key, b), HuntPattern(key, b), b.vp, b.vp, b.values, false)
    decreases |key| - b.kp, 6
  {
    hide Globs, Outcome, Finish, LongHunts, HuntPattern;
    LongHunt(cmp, val, key, b);
  }

  // ----- Behind a star -----

  lemma {:induction false} StarLoop(cmp: Comparator, val: seq<Byte>, key: seq<Byte>, s: State, kept: bool)
    requires BehindStar(s, val, key) && s.kp < |key| && GoodTail(cmp, key, s.kp, kept)
    ensures Decides(cmp, val, key, Loop(cmp, val, key, s), [AnyString] + Pattern(key, s.kp), s.vp, s.vp, s.values, kept)
    decreases |key| - s.kp, 8
  {
    hide Decides, Loop, Pattern, GoodTail, Outcome, Begin, Piece, Needle, RunAt, AllAnyChar, SkipStars, Misses;
    if s.vp == |val| {
      StarLoopAtEnd(cmp, val, key, s, kept);
    } else {
      LoopIsOutcome(cmp, val, key, s);
      BeginBehindStar(val, key, s);
      var b := Begin(key, s);
      match b.next {
        case NoWild =>
          PieceAtEnd(key, s.wp);
          LastNext(cmp, val, key, b, kept);
        case Star =>
          PieceAtStar(key, s.wp);
          TailAtStar(cmp, key, s.wp, kept);
          StarNext(cmp, val, key, b, kept);
        case Quest =>
          PieceAtRun(key, s.wp);
          TailAtRun(cmp, key, s.wp, kept);
          if b.offset == 0 {
            HuntDecides(cmp, val, key, b, b.vp, kept);
          } else if kept {
            PlainDecides(cmp, val, key, b, kept);
          } else {
            LongHuntDecides(cmp, val, key, b);
          }
      }
    }
  }

  lemma BeginBehindStar(val: seq<Byte>, key: seq<Byte>, s: State)
    requires BehindStar(s, val, key) && s.kp < |key| && s.vp < |val|
    ensures var n := Needle(key, s.wp, 0, Star);
            Ready(Begin(key, s), val, key)
            && Begin(key, s)
               == s.(wcard := Star, next := WildAt(key, n.1), section := n.0, wp := n.1, offset := n.2, mvalue := [])
  {
    hide Needle;
  }

  // What the round looks for, as a part of the pattern: at the end, in front of a star, and in
  // front of a '?'.
  lemma PieceAtEnd(key: seq<Byte>, p: nat)
    requires p < |key| && WildAt(key, Needle(key, p, 0, Star).1) == NoWild
    ensures var n := Needle(key, p, 0, Star);
            n.1 == |key| && SkipStars(key, p) == p && Pattern(key, p) == Piece(n.2, n.0)
  {
    hide Pattern, Needle, SkipStars, Lits, Anys;
    var n := Needle(key, p, 0, Star);
    NeedlePattern(key, p, 0);
    NeedleWild(key, p, 0);
    SomethingLeft(key, p);
    assert Anys(n.2) + (Lits(n.0) + []) == Piece(n.2, n.0);
  }

  lemma PieceAtStar(key: seq<Byte>, p: nat)
    requires p < |key| && WildAt(key, Needle(key, p, 0, Star).1) == Star
    ensures var n := Needle(key, p, 0, Star);
            && n.1 < |key| && (n.0 != [] || n.2 > 0 ==> SkipStars(key, p) == p)
            && Pattern(key, p) == Piece(n.2, n.0) + ([AnyString] + Pattern(key, n.1 + 1))
  {
    hide Pattern, Needle, SkipStars, Lits, Anys;
    var n := Needle(key, p, 0, Star);
    NeedlePattern(key, p, 0);
    NeedleWild(key, p, 0);
    assert Anys(n.2) + (Lits(n.0) + Pattern(key, n.1)) == Piece(n.2, n.0) + Pattern(key, n.1);
  }

  lemma TailAtStar(cmp: Comparator, key: seq<Byte>, p: nat, kept: bool)
    requires p <= |key| && WildAt(key, Needle(key, p, 0, Star).1) == Star
    ensures var n := Needle(key, p, 0, Star);
            && n.1 < |key|
            && (GoodTail(cmp, key, p, kept) <==>
                (n.0 != [] || n.2 == 0 || SkipStars(key, n.1) < |key|) && GoodTail(cmp, key, n.1 + 1, kept))
  {
    hide Needle, SkipStars, RunAt, Clear;
  }

  lemma TailAtRun(cmp: Comparator, key: seq<Byte>, p: nat, kept: bool)
    requires p <= |key| && WildAt(key, Needle(key, p, 0, Star).1) == Quest
    ensures Needle(key, p, 0, Star).1 < |key|
    ensures var n := Needle(key, p, 0, Star);
            var run := RunAt(key, n.1 + 1);
            GoodTail(cmp, key, p, kept) <==>
            && Clear(cmp, n.0, n.2, run, run.end == |key|, kept)
            && if run.end < |key| then GoodTail(cmp, key, run.end + 1, kept) else run.open
  {
    hide Needle, SkipStars, RunAt, Clear;
  }

  lemma PieceAtRun(key: seq<Byte>, p: nat)
    requires p < |key| && WildAt(key, Needle(key, p, 0, Star).1) == Quest
    ensures Needle(key, p, 0, Star).1 < |key| && Needle(key, p, 0, Star).0 != []
    ensures var n := Needle(key, p, 0, Star);
            var run := RunAt(key, n.1 + 1);
            Pattern(key, p) == Piece(n.2, n.0) + run.tokens + Pattern(key, run.end)
  {
    hide Pattern, Needle, SkipStars, Lits, Anys, RunAt;
    var n := Needle(key, p, 0, Star);
    NeedlePattern(key, p, 0);
    NeedleWild(key, p, 0);
    RunPattern(key, n.1 + 1);
    var run := RunAt(key, n.1 + 1);
    assert Anys(n.2) + (Lits(n.0) + (run.tokens + Pattern(key, run.end)))
        == Piece(n.2, n.0) + run.tokens + Pattern(key, run.end);
  }

  lemma SomethingLeft(key: seq<Byte>, p: nat)
    requires p < |key|
    ensures var n := Needle(key, p, 0, Star); n.1 == |key| ==> n.0 != [] || n.2 > 0
  {
    SectionIsLiteral(key, p);
    NeedleCounts(key, p, 0);
  }

  lemma {:induction false} NeedleCounts(key: seq<Byte>, p: nat, k: nat)
    requires p <= |key|
    ensures var n := Needle(key, p, k, Star);
            n.2 >= k && (n.2 == k ==> n.0 == Section(key, p).0 && n.1 == Section(key, p).1)
    decreases |key| - p
  {
    var r := Section(key, p);
    if !(r.0 != [] || WildAt(key, r.1) == Star || r.1 == |key|) { NeedleCounts(key, r.1 + 1, k + 1); }
  }

  lemma StarLoopAtEnd(cmp: Comparator, val: seq<Byte>, key: seq<Byte>, s: State, kept: bool)
    requires BehindStar(s, val, key) && s.vp == |val|
    ensures Decides(cmp, val, key, Loop(cmp, val, key, s), [AnyString] + Pattern(key, s.kp), s.vp, s.vp, s.values, kept)
  {
    hide Globs, Pattern, SkipStars, GoodTail, WildCount;
    var rest := Pattern(key, s.kp);
    SkipStarsPattern(key, s.kp);
    GlobsNothing(cmp, [AnyString] + rest, val);
    AllStarsMore(rest);
    if AllStars(rest) { FillsNothing(cmp, [AnyString] + rest, val); }
    assert s.values[|s.values|..] == [];
  }

  lemma AllStarsMore(rest: seq<Token>)
    ensures AllStars([AnyString] + rest) <==> AllStars(rest)
  {
    if AllStars([AnyString] + rest) {
      forall i | 0 <= i < |rest| ensures rest[i] == AnyString { assert ([AnyString] + rest)[i + 1] == AnyString; }
    }
  }

  // ----- From the start -----

  lemma StartAtEnd(cmp: Comparator, val: seq<Byte>, key: seq<Byte>, kept: bool)
    requires key == [] || val == []
    ensures Decides(cmp, val, key, Loop(cmp, val, key, START), Pattern(key, 0), 0, 0, [[]], kept)
  {
    hide Pattern, SkipStars, WildCount;
    SkipStarsPattern(key, 0);
    assert START.values[1..] == [];
    if val == [] {
      GlobsNothing(cmp, Pattern(key, 0), val);
      if AllStars(Pattern(key, 0)) { FillsNothing(cmp, Pattern(key, 0), val); }
    } else {
      SkipStarsEnds(key);
    }
  }

  // A stretch at the start of the value, in front of what is decided already.
  lemma PrependDecides(cmp: Comparator, val: seq<Byte>, key: seq<Byte>, end: State, tokens: seq<Token>,
                       tail: seq<Token>, kept: bool)
    requires NoStar(tokens) && |tokens| <= |val| && FixedAt(cmp, val, 0, tokens) && end.kp <= |key|
    requires Decides(cmp, val, key, end, tail, |tokens|, |tokens|, AddChars([[]], Caught(tokens, val, 0)), kept)
    ensures Decides(cmp, val, key, end, tokens + tail, 0, 0, [[]], kept)
  {
    hide Globs, Finish, FixedAt, Fills, WildCount, Caught, AddChars, Singles;
    GlobsFixed(cmp, tokens, tail, val, 0);
    WildCountParts(tokens, tail);
    CaughtCount(tokens, val, 0);
    var chars := Caught(tokens, val, 0);
    if kept && Finish(val, key, end) && 1 + WildCount(tokens) + WildCount(tail) <= MAX_MATCH_VALUES {
      AddCharsSingles([[]], chars);
      PrefixSplit(end.values, [[]], Singles(chars));
      FillsFixed(cmp, tokens, tail, val, 0, end.values[|[[]] + Singles(chars)|..]);
    }
  }

  lemma BeginStart(key: seq<Byte>)
    ensures var r := Section(key, 0); Begin(key, START) == START.(next := WildAt(key, r.1), section := r.0, wp := r.1)
  {
    hide Section;
  }

  // The end of a key without stars: nothing is left of the pattern.
  lemma EndDecides(cmp: Comparator, val: seq<Byte>, key: seq<Byte>, end: State, at: nat, kept: bool)
    requires end.kp == |key| && end.vp == at <= |val| && end.next == NoWild
    ensures Decides(cmp, val, key, end, [], at, at, end.values, kept)
  {
    hide WildCount;
    SkipStarsEnds(key);
    assert end.values[|end.values|..] == [];
  }

  lemma StartWhole(cmp: Comparator, val: seq<Byte>, key: seq<Byte>, b: State, kept: bool)
    requires val != [] && key != [] && b == START.(next := NoWild, section := b.section, wp := |key|)
    ensures Decides(cmp, val, key, Outcome(cmp, val, key, b), Lits(b.section), 0, 0, [[]], kept)
  {
    hide FoundAt, Fills, WildCount, Pattern, Lits, SkipStars, FixedAt, Globs, Caught, Finish;
    var text := b.section;
    var end := Outcome(cmp, val, key, b);
    LitsLength(text);
    assert Lits(text) + [] == Lits(text);
    FixedLits(cmp, val, 0, text);
    GlobsFixed(cmp, Lits(text), [], val, 0);
    FoundEmpty(cmp, val, 0, text);
    NothingButEnd(cmp, val, |text|);
    if |text| == |val| && FoundAt(cmp, val, 0, text) {
      CaughtLits(text, val, 0);
      EndDecides(cmp, val, key, end, |text|, kept);
      PrependDecides(cmp, val, key, end, Lits(text), [], kept);
    } else {
      ShortOfEnd(val, key, end);
      NotDecided(cmp, val, key, end, Lits(text), 0, 0, [[]], kept);
    }
  }

  lemma ShortOfEnd(val: seq<Byte>, key: seq<Byte>, end: State)
    requires end.kp <= |key| && end.vp < |val|
    ensures !Finish(val, key, end)
  {
  }

  lemma StartStar(cmp: Comparator, val: seq<Byte>, key: seq<Byte>, b: State, kept: bool)
    requires val != [] && b.wp < |key| && b == START.(next := Star, section := b.section, wp := b.wp)
    requires WildAt(key, b.wp) == Star && GoodTail(cmp, key, b.wp + 1, kept)
    ensures Decides(cmp, val, key, Outcome(cmp, val, key, b), Lits(b.section) + ([AnyString] + Pattern(key, b.wp + 1)),
                    0, 0, [[]], kept)
  {
    hide FoundAt, Fills, WildCount, Pattern, Lits, SkipStars, FixedAt, Globs, Caught, Finish, GoodTail, AfterSection,
      Outcome, Decides;
    var text, tail := b.section, [AnyString] + Pattern(key, b.wp + 1);
    var end := Outcome(cmp, val, key, b);
    LitsLength(text);
    FixedLits(cmp, val, 0, text);
    FoundEmpty(cmp, val, 0, text);
    if FoundAt(cmp, val, 0, text) {
      AfterSectionAtStar(cmp, val, key, b, |text|, None, []);
      CaughtLits(text, val, 0);
      var t := b.(vp := |text|, kp := b.wp + 1, wp := b.wp + 1, values := AddChars([[]], []));
      OutcomeLanded(cmp, val, key, b, t);
      LandedDecides(cmp, val, key, t, kept);
      PrependDecides(cmp, val, key, end, Lits(text), tail, kept);
    } else {
      GlobsFixed(cmp, Lits(text), tail, val, 0);
      OutcomeEnds(cmp, val, key, b, b);
      ShortOfEnd(val, key, end);
      NotDecided(cmp, val, key, end, Lits(text) + tail, 0, 0, [[]], kept);
    }
  }

  // The first text, and the run of '?' behind it.
  lemma StartRun(cmp: Comparator, val: seq<Byte>, key: seq<Byte>, b: State, kept: bool)
    requires val != [] && b.wp < |key| && b == START.(next := Quest, section := b.section, wp := b.wp)
    requires WildAt(key, b.wp) == Quest
    requires var run := RunAt(key, b.wp + 1); run.end < |key| ==> run.open && GoodTail(cmp, key, run.end + 1, kept)
    ensures var run := RunAt(key, b.wp + 1);
            Decides(cmp, val, key, Outcome(cmp, val, key, b), Lits(b.section) + run.tokens + Pattern(key, run.end), 0,
                    0, [[]], kept)
  {
    hide FoundAt, Fills, WildCount, Pattern, Lits, SkipStars, FixedAt, Globs, Caught, Finish, GoodTail, AfterSection,
      Outcome, Decides, RunAt, Questions, RunDone;
    var text, run := b.section, RunAt(key, b.wp + 1);
    var tokens, tail, end := Lits(text) + run.tokens, Pattern(key, run.end), Outcome(cmp, val, key, b);
    RunRest(key, b.wp + 1);
    LitsLength(text);
    FixedLits(cmp, val, 0, text);
    FixedParts(cmp, val, 0, Lits(text), run.tokens);
    FoundEmpty(cmp, val, 0, text);
    GlobsFixed(cmp, tokens, tail, val, 0);
    if !FoundAt(cmp, val, 0, text) {
      OutcomeEnds(cmp, val, key, b, b);
      ShortOfEnd(val, key, end);
      NotDecided(cmp, val, key, end, tokens + tail, 0, 0, [[]], kept);
    } else {
      var q := Trail(|text|, b.wp + 1, b.wp + 1, Quest, [], false);
      QuestionsRun(cmp, val, key, q);
      if RunFits(cmp, val, key, |text|, run) {
        FixedFits(cmp, val, |text|, run.tokens);
        CaughtParts(Lits(text), run.tokens, val, 0);
        CaughtLits(text, val, 0);
        StartRunFits(cmp, val, key, b, q, kept);
      } else {
        if FixedAt(cmp, val, 0, tokens) { FixedFits(cmp, val, 0, tokens); }
        NothingButEnd(cmp, val, |tokens|);
        StartRunFails(cmp, val, key, b, q);
        NotDecided(cmp, val, key, end, tokens + tail, 0, 0, [[]], kept);
      }
    }
  }

  lemma StartRunFits(cmp: Comparator, val: seq<Byte>, key: seq<Byte>, b: State, q: Trail, kept: bool)
    requires val != [] && b.wp < |key| && b == START.(next := Quest, section := b.section, wp := b.wp)
    requires WildAt(key, b.wp) == Quest && FoundAt(cmp, val, 0, b.section) && |b.section| <= |val|
    requires q == Trail(|b.section|, b.wp + 1, b.wp + 1, Quest, [], false)
    requires RunDone(cmp, val, key, q, RunAt(key, q.wp), Questions(cmp, val, key, q))
    requires RunFits(cmp, val, key, |b.section|, RunAt(key, q.wp))
    requires var run := RunAt(key, q.wp);
             && (run.end < |key| ==> GoodTail(cmp, key, run.end + 1, kept)) && NoStar(run.tokens)
             && NoStar(Lits(b.section) + run.tokens) && |Lits(b.section)| == |b.section|
             && FixedAt(cmp, val, 0, Lits(b.section) + run.tokens) && |b.section| + |run.tokens| <= |val|
             && Caught(Lits(b.section) + run.tokens, val, 0) == [] + Caught(run.tokens, val, |b.section|)
             && Pattern(key, run.end) == if run.end < |key| then [AnyString] + Pattern(key, run.end + 1) else []
    ensures var run := RunAt(key, q.wp);
            Decides(cmp, val, key, Outcome(cmp, val, key, b), Lits(b.section) + run.tokens + Pattern(key, run.end), 0,
                    0, [[]], kept)
  {
    hide FoundAt, Fills, WildCount, Pattern, Lits, SkipStars, FixedAt, Globs, Caught, Finish, GoodTail, Outcome,
      Decides, RunAt, Questions, AddChars, Landed;
    var run := RunAt(key, q.wp);
    var e, tokens, end := Behind(key, run.end), Lits(b.section) + run.tokens, Outcome(cmp, val, key, b);
    var chars := [] + CaughtAt(run.tokens, val, q.vp);
    var t := b.(vp := q.vp + |run.tokens|, kp := e, wp := e, next := WildAt(key, run.end),
                values := AddChars([[]], chars));
    assert MiddleSection(cmp, val, key, b) == (t, run.end < |key|);
    if run.end < |key| {
      OutcomeLanded(cmp, val, key, b, t);
      LandedDecides(cmp, val, key, t, kept);
      LandedIn(cmp, val, key, end, t, tokens, Pattern(key, run.end), kept);
    } else {
      OutcomeEnds(cmp, val, key, b, t);
      EndDecides(cmp, val, key, end, t.vp, kept);
      LandedIn(cmp, val, key, end, t, tokens, [], kept);
    }
  }

  lemma LandedIn(cmp: Comparator, val: seq<Byte>, key: seq<Byte>, end: State, t: State, tokens: seq<Token>,
                 tail: seq<Token>, kept: bool)
    requires NoStar(tokens) && |tokens| == t.vp <= |val| && FixedAt(cmp, val, 0, tokens) && end.kp <= |key|
    requires t.values == AddChars([[]], Caught(tokens, val, 0))
    requires Decides(cmp, val, key, end, tail, t.vp, t.vp, t.values, kept)
    ensures Decides(cmp, val, key, end, tokens + tail, 0, 0, [[]], kept)
  {
    hide Decides, FixedAt, Caught, AddChars;
    PrependDecides(cmp, val, key, end, tokens, tail, kept);
  }

  lemma StartRunFails(cmp: Comparator, val: seq<Byte>, key: seq<Byte>, b: State, q: Trail)
    requires val != [] && b.wp < |key| && b == START.(next := Quest, section := b.section, wp := b.wp)
    requires WildAt(key, b.wp) == Quest && FoundAt(cmp, val, 0, b.section) && |b.section| <= |val|
    requires q == Trail(|b.section|, b.wp + 1, b.wp + 1, Quest, [], false)
    requires RunDone(cmp, val, key, q, RunAt(key, q.wp), Questions(cmp, val, key, q))
    requires !RunFits(cmp, val, key, |b.section|, RunAt(key, q.wp))
    requires var run := RunAt(key, q.wp); run.end < |key| ==> run.open
    ensures !Finish(val, key, Outcome(cmp, val, key, b))
  {
    hide FoundAt, SkipStars, FixedAt, RunAt, Questions, AddChars;
  }

  lemma StartDecides(cmp: Comparator, val: seq<Byte>, key: seq<Byte>, kept: bool)
    requires GoodKey(cmp, key, kept)
    ensures Decides(cmp, val, key, Loop(cmp, val, key, START), Pattern(key, 0), 0, 0, [[]], kept)
  {
    hide Pattern, Lits, Decides, Loop, GoodTail, Section, Begin, Outcome, RunAt;
    if key == [] || val == [] {
      StartAtEnd(cmp, val, key, kept);
    } else {
      var r := Section(key, 0);
      SectionPattern(key, 0);
      BeginStart(key);
      LoopIsOutcome(cmp, val, key, START);
      var b := Begin(key, START);
      match WildAt(key, r.1) {
        case NoWild =>
          assert Lits(r.0) + [] == Lits(r.0);
          StartWhole(cmp, val, key, b, kept);
        case Star => StartStar(cmp, val, key, b, kept);
        case Quest =>
          StartRun(cmp, val, key, b, kept);
          RunPattern(key, r.1 + 1);
          var run := RunAt(key, r.1 + 1);
          assert Lits(r.0) + (run.tokens + Pattern(key, run.end)) == Lits(r.0) + run.tokens + Pattern(key, run.end);
      }
    }
  }

  // For every good key and every value, the matcher succeeds exactly on the instances of the key's
  // pattern. With at most 31 wildcards, the values it commits are the whole value, followed by what
  // each wildcard stands for.
  lemma MatcherIsExactOnGoodKeys(cmp: Comparator, val: seq<Byte>, key: seq<Byte>, kept: bool)
    requires GoodKey(cmp, key, kept)
    ensures var r := MatchResult(cmp, val, key);
            && (r.Some? <==> Globs(cmp, Pattern(key, 0), val, 0))
            && (kept && r.Some? && WildCount(Pattern(key, 0)) < MAX_MATCH_VALUES ==>
                  r.value != [] && r.value[0] == val && Fills(cmp, Pattern(key, 0), val, 0, r.value[1..]))
  {
    hide Globs, Fills, WildCount, Pattern, Loop, Finish, GoodKey;
    StartDecides(cmp, val, key, kept);
    var s := Loop(cmp, val, key, START);
    if s.values != [] { assert s.values[0 := val][1..] == s.values[1..]; }
  }
}
