// What :matches and :contains mean (section 2.7.1 of RFC 5228), over the byte comparators
// i;octet and i;ascii-casemap (src/lib-sieve/cmp-i-octet.c, cmp-i-ascii-casemap.c).
module Glob {
  import opened Bytes

  const STAR: Byte := 42
  const QUESTION: Byte := 63

  datatype Comparator = Octet | AsciiCasemap

  function Lower(b: int): int { if 65 <= b <= 90 then b + 32 else b }

  predicate Same(cmp: Comparator, a: Byte, b: Byte)
  {
    if cmp == Octet then a == b else Lower(a) == Lower(b)
  }

  // `needle` is found at `at`.
  predicate FoundAt(cmp: Comparator, val: seq<Byte>, at: nat, needle: seq<Byte>)
  {
    at + |needle| <= |val| && forall i | 0 <= i < |needle| :: Same(cmp, val[at + i], needle[i])
  }

  // The first place at or after `at` where `needle` is found.
  function Find(cmp: Comparator, val: seq<Byte>, at: nat, needle: seq<Byte>): (r: Option<nat>)
    ensures r.Some? ==> at <= r.value && FoundAt(cmp, val, r.value, needle)
                        && forall j | at <= j < r.value :: !FoundAt(cmp, val, j, needle)
    ensures r.None? ==> forall j | at <= j :: !FoundAt(cmp, val, j, needle)
    decreases |val| - at
  {
    if FoundAt(cmp, val, at, needle) then Some(at)
    else if at < |val| then Find(cmp, val, at + 1, needle)
    else None
  }

  // ----- Patterns -----

  datatype Token = Lit(b: Byte) | AnyString | AnyChar

  // A key as a pattern: a backslash makes the next byte literal, and at the end stands for itself.
  function Pattern(key: seq<Byte>, p: nat): seq<Token>
    decreases |key| - p
  {
    if p >= |key| then []
    else if key[p] == STAR then [AnyString] + Pattern(key, p + 1)
    else if key[p] == QUESTION then [AnyChar] + Pattern(key, p + 1)
    else if key[p] == BACKSLASH && p + 1 < |key| then [Lit(key[p + 1])] + Pattern(key, p + 2)
    else [Lit(key[p])] + Pattern(key, p + 1)
  }

  // The value from `at` on is an instance of the pattern.
  predicate Globs(cmp: Comparator, pattern: seq<Token>, val: seq<Byte>, at: nat)
    requires at <= |val|
    decreases |pattern|, |val| - at
  {
    if pattern == [] then at == |val|
    else
      match pattern[0]
      case Lit(b) => at < |val| && Same(cmp, val[at], b) && Globs(cmp, pattern[1..], val, at + 1)
      case AnyChar => at < |val| && Globs(cmp, pattern[1..], val, at + 1)
      case AnyString => Globs(cmp, pattern[1..], val, at) || (at < |val| && Globs(cmp, pattern, val, at + 1))
  }

  function Lits(s: seq<Byte>): seq<Token>
  {
    if s == [] then [] else [Lit(s[0])] + Lits(s[1..])
  }

  // ----- How stars match -----

  // A star lets its pattern start at any later place.
  lemma {:induction false} GlobsStar(cmp: Comparator, rest: seq<Token>, val: seq<Byte>, at: nat, later: nat)
    requires at <= later <= |val|
    ensures Globs(cmp, rest, val, later) ==> Globs(cmp, [AnyString] + rest, val, at)
    ensures Globs(cmp, [AnyString] + rest, val, later) ==> Globs(cmp, [AnyString] + rest, val, at)
    decreases later - at
  {
    assert ([AnyString] + rest)[1..] == rest;
    if at < later { GlobsStar(cmp, rest, val, at + 1, later); }
  }

  lemma {:induction false} GlobsStarWitness(cmp: Comparator, rest: seq<Token>, val: seq<Byte>, at: nat)
    returns (start: nat)
    requires at <= |val| && Globs(cmp, [AnyString] + rest, val, at)
    ensures at <= start <= |val| && Globs(cmp, rest, val, start)
    decreases |val| - at
  {
    assert ([AnyString] + rest)[1..] == rest;
    if Globs(cmp, rest, val, at) { start := at; } else { start := GlobsStarWitness(cmp, rest, val, at + 1); }
  }

  predicate AllStars(pattern: seq<Token>) { forall i | 0 <= i < |pattern| :: pattern[i] == AnyString }

  // At the end of the value only stars match.
  lemma {:induction false} GlobsNothing(cmp: Comparator, pattern: seq<Token>, val: seq<Byte>)
    ensures Globs(cmp, pattern, val, |val|) <==> AllStars(pattern)
    decreases |pattern|
  {
    if pattern != [] {
      GlobsNothing(cmp, pattern[1..], val);
      if AllStars(pattern[1..]) && pattern[0] == AnyString {
        forall i | 0 <= i < |pattern| ensures pattern[i] == AnyString {
          if i > 0 { assert pattern[1..][i - 1] == AnyString; }
        }
      }
    }
  }
}
