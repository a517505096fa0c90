// `:contains` and `:matches` agree: a value contains a key exactly when it matches the escaped key
// between two stars.
module Contains {
  import opened Bytes
  import opened Glob
  import opened Fixed
  import opened Matches
  import opened Keys
  import opened MatchesCorrect
  import opened MatchesWrong

  function EscapedByte(b: Byte): seq<Byte>
  {
    if b == STAR || b == QUESTION || b == BACKSLASH then [BACKSLASH, b] else [b]
  }

  function Escaped(k: seq<Byte>): seq<Byte>
  {
    if k == [] then [] else EscapedByte(k[0]) + Escaped(k[1..])
  }

  lemma EscapedByteIsLiteral(key: seq<Byte>, p: nat, b: Byte)
    requires Has(key, p, EscapedByte(b))
    ensures Pattern(key, p) == [Lit(b)] + Pattern(key, p + |EscapedByte(b)|)
  {
    hide Has;
    HasByte(key, p, EscapedByte(b), 0);
    if |EscapedByte(b)| == 2 { HasByte(key, p, EscapedByte(b), 1); }
  }

  // Escaped text in a key stands for itself.
  lemma {:induction false} EscapedIsLiteral(key: seq<Byte>, p: nat, k: seq<Byte>)
    requires Has(key, p, Escaped(k))
    ensures Pattern(key, p) == Lits(k) + Pattern(key, p + |Escaped(k)|)
    decreases |k|
  {
    hide Has, Pattern, Lits;
    if k == [] {
      NoLits(Pattern(key, p));
    } else {
      var head, tail := EscapedByte(k[0]), Escaped(k[1..]);
      HasParts(key, p, head, tail);
      EscapedByteIsLiteral(key, p, k[0]);
      EscapedIsLiteral(key, p + |head|, k[1..]);
      LitsStep(k[0], k[1..], Pattern(key, p + |head| + |tail|));
      assert [k[0]] + k[1..] == k;
    }
  }

  lemma {:induction false} LitsHaveNoAnyChar(k: seq<Byte>)
    ensures AnyChar !in Lits(k)
    decreases |k|
  {
    if k != [] { LitsHaveNoAnyChar(k[1..]); }
  }

  lemma StarredPattern(k: seq<Byte>)
    ensures var pattern := Pattern([STAR] + Escaped(k) + [STAR], 0);
            pattern == [AnyString] + (Lits(k) + ([AnyString] + [])) && AnyChar !in pattern
  {
    hide Lits, Escaped;
    var key := [STAR] + Escaped(k) + [STAR];
    var n := |Escaped(k)|;
    assert key[1..1 + n] == Escaped(k);
    EscapedIsLiteral(key, 1, k);
    assert Pattern(key, n + 2) == [] && Pattern(key, n + 1) == [AnyString] + [];
    assert Pattern(key, 0) == [AnyString] + Pattern(key, 1);
    LitsHaveNoAnyChar(k);
  }

  lemma ContainsIsStarredMatch(cmp: Comparator, val: seq<Byte>, k: seq<Byte>)
    ensures Find(cmp, val, 0, k).Some? <==> MatchResult(cmp, val, [STAR] + Escaped(k) + [STAR]).Some?
  {
    hide Globs, Find, Pattern, Lits, MatchResult, Fills, Escaped, GoodKey, FixedAt, FoundAt;
    StarredPattern(k);
    StarKeysAreGood(cmp, [STAR] + Escaped(k) + [STAR], false);
    MatcherIsExactOnGoodKeys(cmp, val, [STAR] + Escaped(k) + [STAR], false);
    var tokens, found := Lits(k), Find(cmp, val, 0, k);
    LitsLength(k);
    forall j: nat ensures FixedAt(cmp, val, j, tokens) <==> FoundAt(cmp, val, j, k) { FixedLits(cmp, val, j, k); }
    if found.None? {
      GlobsNowhere(cmp, tokens, [AnyString] + [], val, 0);
    } else {
      FixedFits(cmp, val, found.value, tokens);
      GlobsSkip(cmp, tokens, [AnyString] + [], val, 0, found.value);
      GlobsHere(cmp, tokens, [], val, found.value);
      GlobsLast(cmp, [], val, found.value + |k|);
      FixedNothing(cmp, val, |val|);
    }
  }
}
