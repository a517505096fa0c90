// Stretches of a pattern between two stars: texts and '?', which take as many bytes as they have
// tokens.
module Fixed {
  import opened Bytes
  import opened Glob

  predicate Fits(cmp: Comparator, t: Token, b: Byte)
  {
    match t
    case Lit(l) => Same(cmp, b, l)
    case AnyChar => true
    case AnyString => false
  }

  predicate NoStar(tokens: seq<Token>) { AnyString !in tokens }

  // The stretch fits the value at `at`.
  predicate FixedAt(cmp: Comparator, val: seq<Byte>, at: nat, tokens: seq<Token>)
  {
    at + |tokens| <= |val| && forall i | 0 <= i < |tokens| :: Fits(cmp, tokens[i], val[at + i])
  }

  lemma FixedParts(cmp: Comparator, val: seq<Byte>, at: nat, a: seq<Token>, b: seq<Token>)
    ensures FixedAt(cmp, val, at, a + b) <==> FixedAt(cmp, val, at, a) && FixedAt(cmp, val, at + |a|, b)
  {
    hide Fits;
    if FixedAt(cmp, val, at, a + b) {
      forall i | 0 <= i < |a| ensures Fits(cmp, a[i], val[at + i]) { assert Fits(cmp, (a + b)[i], val[at + i]); }
      forall i | 0 <= i < |b| ensures Fits(cmp, b[i], val[at + |a| + i]) {
        assert Fits(cmp, (a + b)[|a| + i], val[at + (|a| + i)]);
      }
    }
    if FixedAt(cmp, val, at, a) && FixedAt(cmp, val, at + |a|, b) {
      forall i | 0 <= i < |a + b| ensures Fits(cmp, (a + b)[i], val[at + i]) {
        if i >= |a| { assert Fits(cmp, b[i - |a|], val[at + |a| + (i - |a|)]); }
      }
    }
  }

  lemma {:induction false} LitsAt(s: seq<Byte>, i: nat)
    requires i < |s|
    ensures |Lits(s)| == |s| && Lits(s)[i] == Lit(s[i])
    decreases |s|
  {
    LitsLength(s);
    if i > 0 { LitsAt(s[1..], i - 1); }
  }

  lemma {:induction false} LitsLength(s: seq<Byte>)
    ensures |Lits(s)| == |s| && NoStar(Lits(s))
    decreases |s|
  {
    if s != [] { LitsLength(s[1..]); }
  }

  lemma FixedLits(cmp: Comparator, val: seq<Byte>, at: nat, s: seq<Byte>)
    ensures FixedAt(cmp, val, at, Lits(s)) <==> FoundAt(cmp, val, at, s)
  {
    hide Same, Lits;
    LitsLength(s);
    forall i | 0 <= i < |s| ensures Lits(s)[i] == Lit(s[i]) { LitsAt(s, i); }
    if FixedAt(cmp, val, at, Lits(s)) {
      forall i | 0 <= i < |s| ensures Same(cmp, val[at + i], s[i]) { assert Fits(cmp, Lits(s)[i], val[at + i]); }
    }
    if FoundAt(cmp, val, at, s) {
      forall i | 0 <= i < |Lits(s)| ensures Fits(cmp, Lits(s)[i], val[at + i]) { assert Same(cmp, val[at + i], s[i]); }
    }
  }

  // A run of '?'.
  function Anys(n: nat): (r: seq<Token>)
    ensures |r| == n && NoStar(r) && forall i | 0 <= i < n :: r[i] == AnyChar
  {
    if n == 0 then [] else [AnyChar] + Anys(n - 1)
  }

  lemma FixedAnys(cmp: Comparator, val: seq<Byte>, at: nat, n: nat)
    ensures FixedAt(cmp, val, at, Anys(n)) <==> at + n <= |val|
  {
  }

  // ----- Stretches in patterns -----

  lemma {:induction false} GlobsFixed(cmp: Comparator, tokens: seq<Token>, rest: seq<Token>, val: seq<Byte>, at: nat)
    requires at <= |val| && NoStar(tokens)
    ensures Globs(cmp, tokens + rest, val, at)
            <==> FixedAt(cmp, val, at, tokens) && Globs(cmp, rest, val, at + |tokens|)
    decreases |tokens|
  {
    hide Same, FixedAt;
    if tokens == [] {
      assert tokens + rest == rest;
      FixedNothing(cmp, val, at);
    } else {
      var t, tail := tokens[0], tokens[1..];
      assert t in tokens;
      assert (tokens + rest)[1..] == tail + rest && tokens == [t] + tail;
      FixedParts(cmp, val, at, [t], tail);
      FixedOne(cmp, val, at, t);
      if at < |val| { GlobsFixed(cmp, tail, rest, val, at + 1); }
    }
  }

  lemma FixedNothing(cmp: Comparator, val: seq<Byte>, at: nat)
    ensures FixedAt(cmp, val, at, []) <==> at <= |val|
  {
  }

  lemma FixedOne(cmp: Comparator, val: seq<Byte>, at: nat, t: Token)
    ensures FixedAt(cmp, val, at, [t]) <==> at < |val| && Fits(cmp, t, val[at])
  {
    if FixedAt(cmp, val, at, [t]) { assert Fits(cmp, [t][0], val[at + 0]); }
  }

  lemma FixedFits(cmp: Comparator, val: seq<Byte>, at: nat, tokens: seq<Token>)
    requires FixedAt(cmp, val, at, tokens)
    ensures at + |tokens| <= |val|
  {
  }

  // Behind a star, a stretch that does not fit here fits further on.
  lemma GlobsLater(cmp: Comparator, tokens: seq<Token>, rest: seq<Token>, val: seq<Byte>, at: nat)
    requires at <= |val| && NoStar(tokens) && !(FixedAt(cmp, val, at, tokens) && Globs(cmp, rest, val, at + |tokens|))
    ensures Globs(cmp, [AnyString] + (tokens + rest), val, at)
            <==> at < |val| && Globs(cmp, [AnyString] + (tokens + rest), val, at + 1)
  {
    hide FixedAt, Fits;
    GlobsFixed(cmp, tokens, rest, val, at);
    assert ([AnyString] + (tokens + rest))[1..] == tokens + rest;
  }

  lemma {:induction false} GlobsSkip(cmp: Comparator, tokens: seq<Token>, rest: seq<Token>, val: seq<Byte>, at: nat,
                                     later: nat)
    requires at <= later <= |val| && NoStar(tokens)
    requires forall j | at <= j < later :: !FixedAt(cmp, val, j, tokens)
    ensures Globs(cmp, [AnyString] + (tokens + rest), val, at)
            <==> Globs(cmp, [AnyString] + (tokens + rest), val, later)
    decreases later - at
  {
    hide FixedAt, Globs;
    if at < later {
      GlobsLater(cmp, tokens, rest, val, at);
      GlobsSkip(cmp, tokens, rest, val, at + 1, later);
    }
  }

  // Between two stars a stretch may be taken where it first fits.
  lemma GlobsHere(cmp: Comparator, tokens: seq<Token>, tail: seq<Token>, val: seq<Byte>, at: nat)
    requires at <= |val| && NoStar(tokens) && FixedAt(cmp, val, at, tokens)
    ensures Globs(cmp, [AnyString] + (tokens + ([AnyString] + tail)), val, at)
            <==> Globs(cmp, [AnyString] + tail, val, at + |tokens|)
  {
    hide FixedAt, Globs, Fits;
    var rest := [AnyString] + tail;
    FixedFits(cmp, val, at, tokens);
    GlobsFixed(cmp, tokens, rest, val, at);
    if Globs(cmp, [AnyString] + (tokens + rest), val, at) {
      var start := GlobsStarWitness(cmp, tokens + rest, val, at);
      GlobsFixed(cmp, tokens, rest, val, start);
      FixedFits(cmp, val, start, tokens);
      GlobsStar(cmp, tail, val, at + |tokens|, start + |tokens|);
    }
    if Globs(cmp, rest, val, at + |tokens|) { GlobsStar(cmp, tokens + rest, val, at, at); }
  }

  // A stretch that fits nowhere.
  lemma GlobsNowhere(cmp: Comparator, tokens: seq<Token>, rest: seq<Token>, val: seq<Byte>, at: nat)
    requires at <= |val| && NoStar(tokens) && forall j | at <= j <= |val| :: !FixedAt(cmp, val, j, tokens)
    ensures !Globs(cmp, [AnyString] + (tokens + rest), val, at)
  {
    hide FixedAt, Globs, Fits;
    if Globs(cmp, [AnyString] + (tokens + rest), val, at) {
      var start := GlobsStarWitness(cmp, tokens + rest, val, at);
      GlobsFixed(cmp, tokens, rest, val, start);
    }
  }

  // Behind the last star a stretch must end the value.
  lemma GlobsLast(cmp: Comparator, tokens: seq<Token>, val: seq<Byte>, at: nat)
    requires at <= |val| && NoStar(tokens)
    ensures Globs(cmp, [AnyString] + tokens, val, at)
            <==> at + |tokens| <= |val| && FixedAt(cmp, val, |val| - |tokens|, tokens)
  {
    hide FixedAt, Fits;
    assert tokens + [] == tokens;
    if Globs(cmp, [AnyString] + tokens, val, at) {
      var start := GlobsStarWitness(cmp, tokens, val, at);
      GlobsFixed(cmp, tokens, [], val, start);
    }
    if at + |tokens| <= |val| && FixedAt(cmp, val, |val| - |tokens|, tokens) {
      GlobsFixed(cmp, tokens, [], val, |val| - |tokens|);
      GlobsStar(cmp, tokens, val, at, |val| - |tokens|);
    }
  }

  // ----- What wildcards stand for -----

  function WildCount(pattern: seq<Token>): nat
  {
    if pattern == [] then 0 else (if pattern[0].Lit? then 0 else 1) + WildCount(pattern[1..])
  }

  lemma {:induction false} WildCountParts(a: seq<Token>, b: seq<Token>)
    ensures WildCount(a + b) == WildCount(a) + WildCount(b)
    decreases |a|
  {
    if a == [] {
      assert a + b == b;
    } else {
      assert (a + b)[1..] == a[1..] + b;
      WildCountParts(a[1..], b);
    }
  }

  // The value from `at` on is the pattern with its wildcards replaced by the recorded values in
  // order; those not recorded are empty.
  predicate Fills(cmp: Comparator, pattern: seq<Token>, val: seq<Byte>, at: nat, values: seq<seq<Byte>>)
    requires at <= |val|
    decreases |pattern|
  {
    if pattern == [] then at == |val| && values == []
    else
      match pattern[0]
      case Lit(b) => at < |val| && Same(cmp, val[at], b) && Fills(cmp, pattern[1..], val, at + 1, values)
      case AnyChar => at < |val| && values != [] && values[0] == [val[at]]
        && Fills(cmp, pattern[1..], val, at + 1, values[1..])
      case AnyString =>
        var v := if values == [] then [] else values[0];
        && at + |v| <= |val| && val[at..at + |v|] == v
        && Fills(cmp, pattern[1..], val, at + |v|, if values == [] then [] else values[1..])
  }

  // The bytes taken by the '?' of a stretch.
  function Caught(tokens: seq<Token>, val: seq<Byte>, at: nat): seq<Byte>
    requires at + |tokens| <= |val|
    decreases |tokens|
  {
    if tokens == [] then []
    else (if tokens[0] == AnyChar then [val[at]] else []) + Caught(tokens[1..], val, at + 1)
  }

  lemma {:induction false} CaughtParts(a: seq<Token>, b: seq<Token>, val: seq<Byte>, at: nat)
    requires at + |a| + |b| <= |val|
    ensures Caught(a + b, val, at) == Caught(a, val, at) + Caught(b, val, at + |a|)
    decreases |a|
  {
    if a == [] {
      assert a + b == b;
    } else {
      assert (a + b)[1..] == a[1..] + b;
      CaughtParts(a[1..], b, val, at + 1);
    }
  }

  lemma {:induction false} CaughtAnys(n: nat, val: seq<Byte>, at: nat)
    requires at + n <= |val|
    ensures Caught(Anys(n), val, at) == val[at..at + n] && WildCount(Anys(n)) == n
    decreases n
  {
    if n > 0 {
      assert Anys(n)[1..] == Anys(n - 1);
      CaughtAnys(n - 1, val, at + 1);
      assert [val[at]] + val[at + 1..at + n] == val[at..at + n];
    }
  }

  lemma {:induction false} CaughtLits(s: seq<Byte>, val: seq<Byte>, at: nat)
    requires at + |s| <= |val|
    ensures |Lits(s)| == |s| && Caught(Lits(s), val, at) == [] && WildCount(Lits(s)) == 0
    decreases |s|
  {
    LitsLength(s);
    if s != [] {
      assert Lits(s)[1..] == Lits(s[1..]);
      CaughtLits(s[1..], val, at + 1);
    }
  }

  lemma {:induction false} CaughtCount(tokens: seq<Token>, val: seq<Byte>, at: nat)
    requires at + |tokens| <= |val| && NoStar(tokens)
    ensures |Caught(tokens, val, at)| == WildCount(tokens)
    decreases |tokens|
  {
    if tokens != [] {
      assert tokens[0] in tokens;
      CaughtCount(tokens[1..], val, at + 1);
    }
  }

  function Singles(chars: seq<Byte>): (r: seq<seq<Byte>>)
    ensures |r| == |chars|
  {
    if chars == [] then [] else [[chars[0]]] + Singles(chars[1..])
  }

  lemma {:induction false} SinglesParts(a: seq<Byte>, b: seq<Byte>)
    ensures Singles(a + b) == Singles(a) + Singles(b)
    decreases |a|
  {
    if a == [] {
      assert a + b == b;
    } else {
      assert (a + b)[1..] == a[1..] + b;
      SinglesParts(a[1..], b);
    }
  }

  lemma FillsOne(cmp: Comparator, t: Token, rest: seq<Token>, val: seq<Byte>, at: nat, values: seq<seq<Byte>>)
    requires t != AnyString && at < |val| && Fits(cmp, t, val[at]) && Fills(cmp, rest, val, at + 1, values)
    ensures Fills(cmp, [t] + rest, val, at, (if t == AnyChar then [[val[at]]] else []) + values)
  {
    assert ([t] + rest)[1..] == rest;
    assert ([[val[at]]] + values)[1..] == values && [] + values == values;
  }

  lemma {:induction false} CaughtStep(t: Token, tail: seq<Token>, val: seq<Byte>, at: nat, values: seq<seq<Byte>>)
    requires at + 1 + |tail| <= |val|
    ensures Singles(Caught([t] + tail, val, at)) + values
            == (if t == AnyChar then [[val[at]]] else []) + (Singles(Caught(tail, val, at + 1)) + values)
  {
    assert ([t] + tail)[1..] == tail;
    var more := Caught(tail, val, at + 1);
    if t == AnyChar {
      assert ([val[at]] + more)[1..] == more;
      assert [[val[at]]] + Singles(more) + values == [[val[at]]] + (Singles(more) + values);
    } else {
      assert [] + more == more;
    }
  }

  lemma {:induction false} FillsFixed(cmp: Comparator, tokens: seq<Token>, rest: seq<Token>, val: seq<Byte>, at: nat,
                                      values: seq<seq<Byte>>)
    requires NoStar(tokens) && at + |tokens| <= |val| && FixedAt(cmp, val, at, tokens)
    requires Fills(cmp, rest, val, at + |tokens|, values)
    ensures Fills(cmp, tokens + rest, val, at, Singles(Caught(tokens, val, at)) + values)
    decreases |tokens|
  {
    hide FixedAt, Fits, Fills;
    if tokens == [] {
      assert tokens + rest == rest && [] + values == values;
    } else {
      var t, tail := tokens[0], tokens[1..];
      assert t in tokens;
      assert tokens == [t] + tail && tokens + rest == [t] + (tail + rest);
      FixedParts(cmp, val, at, [t], tail);
      FixedOne(cmp, val, at, t);
      FillsFixed(cmp, tail, rest, val, at + 1, values);
      FillsOne(cmp, t, tail + rest, val, at, Singles(Caught(tail, val, at + 1)) + values);
      CaughtStep(t, tail, val, at, values);
    }
  }

  lemma FillsStar(cmp: Comparator, rest: seq<Token>, val: seq<Byte>, at: nat, found: nat, values: seq<seq<Byte>>)
    requires at <= found <= |val| && Fills(cmp, rest, val, found, values)
    ensures Fills(cmp, [AnyString] + rest, val, at, [val[at..found]] + values)
  {
    assert ([AnyString] + rest)[1..] == rest && ([val[at..found]] + values)[1..] == values;
  }

  lemma {:induction false} FillsNothing(cmp: Comparator, pattern: seq<Token>, val: seq<Byte>)
    requires AllStars(pattern)
    ensures Fills(cmp, pattern, val, |val|, [])
    decreases |pattern|
  {
    if pattern != [] { FillsNothing(cmp, pattern[1..], val); }
  }

  // A filled pattern is matched.
  lemma {:induction false} FillsGlobs(cmp: Comparator, pattern: seq<Token>, val: seq<Byte>, at: nat,
                                      values: seq<seq<Byte>>)
    requires at <= |val| && Fills(cmp, pattern, val, at, values)
    ensures Globs(cmp, pattern, val, at)
    decreases |pattern|
  {
    hide Same;
    if pattern != [] {
      match pattern[0]
      case Lit(_) => FillsGlobs(cmp, pattern[1..], val, at + 1, values);
      case AnyChar => FillsGlobs(cmp, pattern[1..], val, at + 1, values[1..]);
      case AnyString =>
        var v := if values == [] then [] else values[0];
        FillsGlobs(cmp, pattern[1..], val, at + |v|, if values == [] then [] else values[1..]);
        GlobsStar(cmp, pattern[1..], val, at, at + |v|);
        assert pattern == [AnyString] + pattern[1..];
    }
  }
}
