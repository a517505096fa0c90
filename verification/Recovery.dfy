// Where error recovery ends: at the end of the failed structure, past everything nested in it.
module Recovery {
  import opened Grammar
  import opened Parser

  // What may be left of a failed structure: single tokens, and structures of the same kind within.
  datatype Filler = Single(t: Token) | Group(inner: seq<Filler>)

  function OpenOf(end: Token): Token
  {
    match end
    case RSquare => LSquare
    case RBracket => LBracket
    case _ => LCurly
  }

  // A single token neither opens nor closes the structure, nor belongs to one around it.
  ghost predicate Fits(f: Filler, end: Token)
  {
    match f
    case Single(t) => t != end && !Opens(t, end) && !Surrounds(t, end)
    case Group(inner) => !end.Semicolon? && forall i | 0 <= i < |inner| :: Fits(inner[i], end)
  }

  function FillerTokens(f: Filler, end: Token): seq<Token>
  {
    match f
    case Single(t) => [t]
    case Group(inner) => [OpenOf(end)] + AllTokens(inner, end) + [end]
  }

  function AllTokens(fs: seq<Filler>, end: Token): seq<Token>
  {
    if fs == [] then [] else FillerTokens(fs[0], end) + AllTokens(fs[1..], end)
  }

  ghost predicate HasTokens(tokens: seq<Token>, at: nat, part: seq<Token>)
  {
    at + |part| <= |tokens| && tokens[at..at + |part|] == part
  }

  lemma HasTokensParts(tokens: seq<Token>, at: nat, a: seq<Token>, b: seq<Token>)
    requires HasTokens(tokens, at, a + b)
    ensures HasTokens(tokens, at, a) && HasTokens(tokens, at + |a|, b)
  {
    assert (a + b)[..|a|] == a && (a + b)[|a|..] == b;
    assert tokens[at..at + |a|] == tokens[at..at + |a + b|][..|a|];
    assert tokens[at + |a|..at + |a| + |b|] == tokens[at..at + |a + b|][|a|..];
  }

  // Recovery from `from` goes past the tokens from `at` to `to`, and is as deep as before.
  ghost predicate GoesPast(tokens: seq<Token>, from: nat, at: nat, to: nat, end: Token)
  {
    && from <= at <= to <= |tokens| && Nesting(tokens, from, to, end) == Nesting(tokens, from, at, end)
    && forall p | at <= p < to :: !Stops(tokens, from, p, end)
  }

  lemma Deeper(tokens: seq<Token>, from: nat, at: nat, end: Token)
    requires IsEnd(end) && !end.Semicolon? && from <= at < |tokens| && tokens[at] == OpenOf(end)
    ensures Nesting(tokens, from, at + 1, end) == Nesting(tokens, from, at, end) + 1
    ensures !Stops(tokens, from, at, end)
  {
  }

  lemma Shallower(tokens: seq<Token>, from: nat, at: nat, end: Token)
    requires IsEnd(end) && from <= at < |tokens| && tokens[at] == end && Nesting(tokens, from, at, end) > 1
    ensures Nesting(tokens, from, at + 1, end) == Nesting(tokens, from, at, end) - 1
    ensures !Stops(tokens, from, at, end)
  {
  }

  lemma PastSingle(tokens: seq<Token>, from: nat, at: nat, t: Token, end: Token)
    requires from <= at && Fits(Single(t), end) && HasTokens(tokens, at, [t])
    ensures GoesPast(tokens, from, at, at + 1, end)
  {
    assert tokens[at] == tokens[at..at + 1][0];
  }

  lemma {:induction false} PastFiller(tokens: seq<Token>, from: nat, at: nat, f: Filler, end: Token)
    requires IsEnd(end) && from <= at && Fits(f, end) && HasTokens(tokens, at, FillerTokens(f, end))
    requires Nesting(tokens, from, at, end) >= 1
    ensures GoesPast(tokens, from, at, at + |FillerTokens(f, end)|, end)
    decreases f
  {
    hide Nesting, Stops, OpenOf;
    match f
    case Single(t) => PastSingle(tokens, from, at, t, end);
    case Group(inner) =>
      var all := AllTokens(inner, end);
      HasTokensParts(tokens, at, [OpenOf(end)] + all, [end]);
      HasTokensParts(tokens, at, [OpenOf(end)], all);
      var last := at + 1 + |all|;
      assert tokens[at..at + 1] == [OpenOf(end)] && tokens[last..last + 1] == [end];
      assert tokens[at] == OpenOf(end) && tokens[last] == end;
      Deeper(tokens, from, at, end);
      PastFillers(tokens, from, at + 1, inner, end);
      Shallower(tokens, from, last, end);
  }

  lemma {:induction false} PastFillers(tokens: seq<Token>, from: nat, at: nat, fs: seq<Filler>, end: Token)
    requires IsEnd(end) && from <= at && (forall i | 0 <= i < |fs| :: Fits(fs[i], end))
    requires HasTokens(tokens, at, AllTokens(fs, end)) && Nesting(tokens, from, at, end) >= 1
    ensures GoesPast(tokens, from, at, at + |AllTokens(fs, end)|, end)
    decreases fs
  {
    hide Fits, FillerTokens, Stops, Nesting;
    if fs != [] {
      HasTokensParts(tokens, at, FillerTokens(fs[0], end), AllTokens(fs[1..], end));
      PastFiller(tokens, from, at, fs[0], end);
      PastFillers(tokens, from, at + |FillerTokens(fs[0], end)|, fs[1..], end);
    }
  }

  // Recovery stops at the end of the structure that failed, wherever in it that was, and not before.
  lemma RecoversAtItsOwnEnd(tokens: seq<Token>, from: nat, fs: seq<Filler>, end: Token)
    requires IsEnd(end) && (forall i | 0 <= i < |fs| :: Fits(fs[i], end))
    requires HasTokens(tokens, from, AllTokens(fs, end) + [end])
    ensures var p := from + |AllTokens(fs, end)|;
            && p < |tokens| && tokens[p] == end && Stops(tokens, from, p, end)
            && forall q | from <= q < p :: !Stops(tokens, from, q, end)
  {
    hide Fits, AllTokens;
    HasTokensParts(tokens, from, AllTokens(fs, end), [end]);
    var p := from + |AllTokens(fs, end)|;
    assert tokens[p..p + 1] == [end];
    assert tokens[p] == end;
    PastFillers(tokens, from, from, fs, end);
  }

  // Where a structure is cut short, recovery stops at the first token of the structure around it.
  lemma RecoversAtTheNextOneUp(tokens: seq<Token>, from: nat, fs: seq<Filler>, end: Token, next: Token)
    requires IsEnd(end) && (forall i | 0 <= i < |fs| :: Fits(fs[i], end)) && Surrounds(next, end)
    requires HasTokens(tokens, from, AllTokens(fs, end) + [next])
    ensures var p := from + |AllTokens(fs, end)|;
            && p < |tokens| && tokens[p] == next && Stops(tokens, from, p, end)
            && forall q | from <= q < p :: !Stops(tokens, from, q, end)
  {
    hide Fits, AllTokens;
    HasTokensParts(tokens, from, AllTokens(fs, end), [next]);
    var p := from + |AllTokens(fs, end)|;
    assert tokens[p..p + 1] == [next];
    assert tokens[p] == next;
    PastFillers(tokens, from, from, fs, end);
  }
}
