// How the matcher cuts a key into texts and wildcards, and what that is of the key's pattern.
module Keys {
  import opened Bytes
  import opened Glob
  import opened Fixed
  import opened Matches

  lemma LitsStep(b: Byte, s: seq<Byte>, rest: seq<Token>)
    ensures [Lit(b)] + (Lits(s) + rest) == Lits([b] + s) + rest
  {
    assert ([b] + s)[1..] == s;
  }

  lemma NoLits(rest: seq<Token>)
    ensures Lits([]) + rest == rest
  {
  }

  // The section at `p` is the literal beginning of the pattern there.
  lemma {:induction false} SectionIsLiteral(key: seq<Byte>, p: nat)
    requires p <= |key|
    ensures var r := Section(key, p); Pattern(key, p) == Lits(r.0) + Pattern(key, r.1) && (r.0 == [] <==> r.1 == p)
    decreases |key| - p
  {
    hide Lits;
    if p == |key| || WildAt(key, p) != NoWild {
      NoLits(Pattern(key, p));
    } else {
      var q := if key[p] == BACKSLASH && p + 1 < |key| then p + 2 else p + 1;
      var rest := Section(key, q);
      SectionIsLiteral(key, q);
      LitsStep(if q == p + 2 then key[p + 1] else key[p], rest.0, Pattern(key, rest.1));
      assert [key[p]] + [] == [key[p]];
    }
  }

  lemma SectionPattern(key: seq<Byte>, p: nat)
    requires p <= |key|
    ensures var r := Section(key, p);
            && Pattern(key, p) == Lits(r.0) + Pattern(key, r.1)
            && (r.0 == [] <==> r.1 == p)
            && (WildAt(key, r.1) == Star ==> Pattern(key, r.1) == [AnyString] + Pattern(key, r.1 + 1))
            && (WildAt(key, r.1) == Quest ==> Pattern(key, r.1) == [AnyChar] + Pattern(key, r.1 + 1))
            && (WildAt(key, r.1) == NoWild ==> r.1 == |key| && Pattern(key, r.1) == [])
  {
    SectionIsLiteral(key, p);
    hide Section;
  }

  // Text, and '?', are not passed over as trailing stars.
  lemma NoStarsHere(key: seq<Byte>, p: nat)
    requires p <= |key|
    ensures Section(key, p).0 != [] || WildAt(key, p) == Quest ==> p < |key| && SkipStars(key, p) == p
  {
  }

  lemma {:induction false} SkipStarsPattern(key: seq<Byte>, p: nat)
    requires p <= |key|
    ensures SkipStars(key, p) == |key| <==> AllStars(Pattern(key, p))
    decreases |key| - p
  {
    if p < |key| {
      if key[p] == STAR {
        SkipStarsPattern(key, p + 1);
        assert Pattern(key, p)[1..] == Pattern(key, p + 1);
        if AllStars(Pattern(key, p + 1)) {
          forall i | 0 <= i < |Pattern(key, p)| ensures Pattern(key, p)[i] == AnyString {
            if i > 0 { assert Pattern(key, p + 1)[i - 1] == AnyString; }
          }
        } else {
          var i :| 0 <= i < |Pattern(key, p + 1)| && Pattern(key, p + 1)[i] != AnyString;
          assert Pattern(key, p)[i + 1] != AnyString;
        }
      } else {
        assert Pattern(key, p)[0] != AnyString;
      }
    }
  }

  lemma SkipStarsEnds(key: seq<Byte>)
    ensures SkipStars(key, |key|) == |key| && Pattern(key, |key|) == []
  {
  }

  // ----- '?' and the texts between them -----

  // The '?' in front of `p` and what follows it up to a star or the end: the tokens, where they
  // end, and whether the last of them is a '?'.
  datatype Run = Run(tokens: seq<Token>, end: nat, open: bool)

  function RunAt(key: seq<Byte>, p: nat): (r: Run)
    requires p <= |key|
    ensures p <= r.end <= |key| && (r.end < |key| ==> WildAt(key, r.end) == Star)
    decreases |key| - p
  {
    var sub := Section(key, p);
    if WildAt(key, sub.1) == Quest then
      var r := RunAt(key, sub.1 + 1);
      Run([AnyChar] + (Lits(sub.0) + r.tokens), r.end, r.open)
    else Run([AnyChar] + Lits(sub.0), sub.1, sub.0 == [])
  }

  lemma {:induction false} RunPattern(key: seq<Byte>, p: nat)
    requires p <= |key|
    ensures var r := RunAt(key, p); [AnyChar] + Pattern(key, p) == r.tokens + Pattern(key, r.end)
                                    && NoStar(r.tokens) && |r.tokens| >= 1
    decreases |key| - p
  {
    hide Pattern, Lits, Section;
    var sub := Section(key, p);
    SectionPattern(key, p);
    LitsLength(sub.0);
    if WildAt(key, sub.1) == Quest {
      var r := RunAt(key, sub.1 + 1);
      RunPattern(key, sub.1 + 1);
      assert [AnyChar] + (Lits(sub.0) + (r.tokens + Pattern(key, r.end)))
          == ([AnyChar] + (Lits(sub.0) + r.tokens)) + Pattern(key, r.end);
    } else {
      assert [AnyChar] + (Lits(sub.0) + Pattern(key, sub.1)) == ([AnyChar] + Lits(sub.0)) + Pattern(key, sub.1);
    }
  }

  predicate AllAnyChar(tokens: seq<Token>) { forall i | 0 <= i < |tokens| :: tokens[i] == AnyChar }

  lemma AnysStep(n: nat, rest: seq<Token>)
    ensures [AnyChar] + (Anys(n) + rest) == Anys(n + 1) + rest && Anys(0) + rest == rest
  {
  }

  // ----- What follows a star -----

  // '?' in front of the next text are its offset.
  lemma {:induction false} NeedlePattern(key: seq<Byte>, p: nat, k: nat)
    requires p <= |key|
    ensures var n := Needle(key, p, k, Star);
            && n.2 >= k && Pattern(key, p) == Anys(n.2 - k) + (Lits(n.0) + Pattern(key, n.1))
            && (n.0 == [] ==> WildAt(key, n.1) != Quest)
            && (n.0 != [] || n.2 > k ==> p < |key| && SkipStars(key, p) == p)
    decreases |key| - p
  {
    hide Pattern, Lits, SkipStars, Section, Anys;
    var r := Section(key, p);
    SectionPattern(key, p);
    NoStarsHere(key, p);
    if r.0 != [] || WildAt(key, r.1) == Star || r.1 == |key| {
      AnysStep(0, Lits(r.0) + Pattern(key, r.1));
    } else {
      NoLits(Pattern(key, r.1));
      NeedlePattern(key, r.1 + 1, k + 1);
      var n := Needle(key, r.1 + 1, k + 1, Star);
      AnysStep(n.2 - k - 1, Lits(n.0) + Pattern(key, n.1));
    }
  }

  lemma NeedleWild(key: seq<Byte>, p: nat, k: nat)
    requires p <= |key|
    ensures var n := Needle(key, p, k, Star);
            && (WildAt(key, n.1) == Star ==> n.1 < |key| && Pattern(key, n.1) == [AnyString] + Pattern(key, n.1 + 1))
            && (WildAt(key, n.1) == Quest ==> n.1 < |key| && Pattern(key, n.1) == [AnyChar] + Pattern(key, n.1 + 1))
            && (WildAt(key, n.1) == NoWild ==> n.1 == |key| && Pattern(key, n.1) == [])
  {
    hide Needle;
  }

  // ----- Keys the matcher is exact on -----

  // The text may begin again `d` bytes further on.
  predicate Overlaps(cmp: Comparator, text: seq<Byte>, d: nat)
  {
    forall i | d <= i < |text| :: Same(cmp, text[i], text[i - d])
  }

  // Token `i` need not fit, even if the same tokens fit `d` bytes further on.
  predicate Loose(cmp: Comparator, tokens: seq<Token>, i: nat, d: nat)
    requires i < |tokens|
  {
    tokens[i].Lit? && (i < d || !tokens[i - d].Lit? || !Same(cmp, tokens[i - d].b, tokens[i].b))
  }

  // The text may be found where the run behind it does not fit, while both fit `d` bytes further on.
  predicate MissesBy(cmp: Comparator, text: seq<Byte>, run: Run, last: bool, d: nat)
  {
    var tokens := Lits(text) + run.tokens;
    Overlaps(cmp, text, d) && (last || exists i | |text| <= i < |tokens| :: Loose(cmp, tokens, i, d))
  }

  // After such a failure, the '?' in front of the text make the matcher pass over that place.
  predicate Misses(cmp: Comparator, text: seq<Byte>, offset: nat, run: Run, last: bool)
  {
    exists d: nat | 1 <= d <= offset :: MissesBy(cmp, text, run, last, d)
  }

  // Text with '?' behind it does no harm. If the match values are to be right too, there must be no
  // going back at all with '?' in front of the text.
  predicate Clear(cmp: Comparator, text: seq<Byte>, offset: nat, run: Run, last: bool, kept: bool)
  {
    if kept then offset == 0 || (!last && AllAnyChar(run.tokens)) else !Misses(cmp, text, offset, run, last)
  }

  // Behind a star. Out are: '?' alone between stars when only stars follow; at the end of the key,
  // text behind a '?' behind text; and text with '?' on both sides that may be missed.
  predicate GoodTail(cmp: Comparator, key: seq<Byte>, p: nat, kept: bool)
    requires p <= |key|
    decreases |key| - p
  {
    var n := Needle(key, p, 0, Star);
    match WildAt(key, n.1)
    case NoWild => true
    case Star => (n.0 != [] || n.2 == 0 || SkipStars(key, n.1) < |key|) && GoodTail(cmp, key, n.1 + 1, kept)
    case Quest =>
      var run := RunAt(key, n.1 + 1);
      && Clear(cmp, n.0, n.2, run, run.end == |key|, kept)
      && if run.end < |key| then GoodTail(cmp, key, run.end + 1, kept) else run.open
  }

  // In front of the first star, a '?' must not be followed by text.
  predicate GoodKey(cmp: Comparator, key: seq<Byte>, kept: bool)
  {
    var s := Section(key, 0);
    match WildAt(key, s.1)
    case NoWild => true
    case Star => GoodTail(cmp, key, s.1 + 1, kept)
    case Quest =>
      var run := RunAt(key, s.1 + 1);
      run.end < |key| ==> run.open && GoodTail(cmp, key, run.end + 1, kept)
  }

  // A key that is good for its match values is good.
  lemma {:induction false} KeptTailsAreGood(cmp: Comparator, key: seq<Byte>, p: nat)
    requires p <= |key| && GoodTail(cmp, key, p, true)
    ensures GoodTail(cmp, key, p, false)
    decreases |key| - p
  {
    hide Needle, RunAt, SkipStars, Misses, AllAnyChar;
    var n := Needle(key, p, 0, Star);
    match WildAt(key, n.1)
    case NoWild =>
    case Star => KeptTailsAreGood(cmp, key, n.1 + 1);
    case Quest =>
      var run := RunAt(key, n.1 + 1);
      if n.2 > 0 { NoneLoose(cmp, n.0, n.2, run); } else { NothingMissed(cmp, n.0, run, run.end == |key|); }
      if run.end < |key| { KeptTailsAreGood(cmp, key, run.end + 1); }
  }

  lemma NothingMissed(cmp: Comparator, text: seq<Byte>, run: Run, last: bool)
    ensures !Misses(cmp, text, 0, run, last)
  {
  }

  lemma NoneLoose(cmp: Comparator, text: seq<Byte>, offset: nat, run: Run)
    requires AllAnyChar(run.tokens)
    ensures !Misses(cmp, text, offset, run, false)
  {
    hide Lits, Overlaps;
    LitsLength(text);
    var tokens := Lits(text) + run.tokens;
    forall d, i | 1 <= d <= offset && |text| <= i < |tokens| ensures !Loose(cmp, tokens, i, d) {
      assert tokens[i] == run.tokens[i - |text|];
    }
  }

  lemma KeptKeysAreGood(cmp: Comparator, key: seq<Byte>)
    requires GoodKey(cmp, key, true)
    ensures GoodKey(cmp, key, false)
  {
    hide Section, RunAt, GoodTail;
    var s := Section(key, 0);
    if WildAt(key, s.1) == Star {
      KeptTailsAreGood(cmp, key, s.1 + 1);
    } else if WildAt(key, s.1) == Quest {
      var run := RunAt(key, s.1 + 1);
      if run.end < |key| { KeptTailsAreGood(cmp, key, run.end + 1); }
    }
  }
}
