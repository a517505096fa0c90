// Values made to measure for a pattern.
module Instances {
  import opened Bytes
  import opened Glob
  import opened Fixed
  import opened Keys

  // ----- The least a pattern takes -----

  function Size(pattern: seq<Token>): nat
  {
    if pattern == [] then 0 else (if pattern[0] == AnyString then 0 else 1) + Size(pattern[1..])
  }

  lemma {:induction false} SizeParts(a: seq<Token>, b: seq<Token>)
    ensures Size(a + b) == Size(a) + Size(b)
    decreases |a|
  {
    if a == [] {
      assert a + b == b;
    } else {
      assert (a + b)[1..] == a[1..] + b;
      SizeParts(a[1..], b);
    }
  }

  lemma {:induction false} SizeFixed(tokens: seq<Token>)
    requires NoStar(tokens)
    ensures Size(tokens) == |tokens|
    decreases |tokens|
  {
    if tokens != [] {
      assert tokens[0] in tokens;
      SizeFixed(tokens[1..]);
    }
  }

  lemma {:induction false} SizeStars(pattern: seq<Token>)
    requires AllStars(pattern)
    ensures Size(pattern) == 0
    decreases |pattern|
  {
    if pattern != [] { SizeStars(pattern[1..]); }
  }

  lemma SizeStar(rest: seq<Token>)
    ensures Size([AnyString] + rest) == Size(rest)
  {
    assert ([AnyString] + rest)[1..] == rest;
  }

  function Sample(t: Token): Byte { if t.Lit? then t.b else 0 }

  // The bytes of the texts, and zero for every '?'.
  function Samples(tokens: seq<Token>): (v: seq<Byte>)
    ensures |v| == |tokens|
  {
    seq(|tokens|, i requires 0 <= i < |tokens| => Sample(tokens[i]))
  }

  lemma SamplesAt(tokens: seq<Token>, i: nat)
    requires i < |tokens|
    ensures Samples(tokens)[i] == Sample(tokens[i])
  {
  }

  lemma SampleFits(cmp: Comparator, t: Token)
    requires t != AnyString
    ensures Fits(cmp, t, Sample(t))
  {
  }

  lemma SamplesFit(cmp: Comparator, val: seq<Byte>, at: nat, tokens: seq<Token>)
    requires Has(val, at, Samples(tokens)) && NoStar(tokens)
    ensures FixedAt(cmp, val, at, tokens)
  {
    hide Has, Samples, Sample, Fits;
    HasFits(val, at, Samples(tokens));
    forall i | 0 <= i < |tokens| ensures Fits(cmp, tokens[i], val[at + i]) {
      HasByte(val, at, Samples(tokens), i);
      SamplesAt(tokens, i);
      assert tokens[i] in tokens;
      SampleFits(cmp, tokens[i]);
    }
  }

  // The same of a whole pattern, with nothing for the stars.
  function Least(pattern: seq<Token>): (v: seq<Byte>)
    ensures |v| == Size(pattern)
  {
    if pattern == [] then []
    else (if pattern[0] == AnyString then [] else [Sample(pattern[0])]) + Least(pattern[1..])
  }

  lemma {:induction false} LeastGlobs(cmp: Comparator, pattern: seq<Token>, val: seq<Byte>, at: nat)
    requires Has(val, at, Least(pattern)) && at + |Least(pattern)| == |val|
    ensures Globs(cmp, pattern, val, at)
    decreases |pattern|
  {
    hide Has;
    if pattern != [] {
      var t, rest := pattern[0], pattern[1..];
      if t == AnyString {
        assert [] + Least(rest) == Least(rest);
        LeastGlobs(cmp, rest, val, at);
      } else {
        HasParts(val, at, [Sample(t)], Least(rest));
        HasByte(val, at, [Sample(t)], 0);
        LeastGlobs(cmp, rest, val, at + 1);
        SampleFits(cmp, t);
      }
    }
  }

  // ----- Bytes that differ -----

  // A byte that is the same as neither of two.
  function Other(cmp: Comparator, a: Byte, b: Byte): (r: Byte)
    ensures !Same(cmp, r, a) && !Same(cmp, r, b)
  {
    if !Same(cmp, 0, a) && !Same(cmp, 0, b) then 0 else if !Same(cmp, 1, a) && !Same(cmp, 1, b) then 1 else 2
  }

  // ----- A text that begins twice -----

  // Byte `j` of a value that has the text at its start and the tokens, which begin with the text,
  // `d` bytes further on; apart from that it does not fit the tokens at its start.
  function TwiceByte(cmp: Comparator, text: seq<Byte>, tokens: seq<Token>, d: nat, j: nat): Byte
    requires j < d + |tokens|
  {
    if j < |text| then text[j]
    else if j >= d && tokens[j - d].Lit? then tokens[j - d].b
    else if j < |tokens| && tokens[j].Lit? then Other(cmp, tokens[j].b, tokens[j].b)
    else 0
  }

  function Twice(cmp: Comparator, text: seq<Byte>, tokens: seq<Token>, d: nat): (v: seq<Byte>)
    ensures |v| == d + |tokens|
  {
    seq(d + |tokens|, j requires 0 <= j < d + |tokens| => TwiceByte(cmp, text, tokens, d, j))
  }

  lemma TwiceAt(cmp: Comparator, val: seq<Byte>, at: nat, text: seq<Byte>, tokens: seq<Token>, d: nat, j: nat)
    requires Has(val, at, Twice(cmp, text, tokens, d)) && j < d + |tokens|
    ensures at + j < |val| && val[at + j] == TwiceByte(cmp, text, tokens, d, j)
  {
    hide Has, TwiceByte;
    HasByte(val, at, Twice(cmp, text, tokens, d), j);
  }

  lemma TwiceHasText(cmp: Comparator, val: seq<Byte>, at: nat, text: seq<Byte>, tokens: seq<Token>, d: nat)
    requires Has(val, at, Twice(cmp, text, tokens, d)) && |text| <= |tokens|
    ensures FoundAt(cmp, val, at, text)
  {
    hide Has, Twice;
    HasFits(val, at, Twice(cmp, text, tokens, d));
    forall i | 0 <= i < |text| ensures Same(cmp, val[at + i], text[i]) {
      TwiceAt(cmp, val, at, text, tokens, d, i);
    }
  }

  lemma TwiceHasTokens(cmp: Comparator, val: seq<Byte>, at: nat, text: seq<Byte>, run: seq<Token>, d: nat)
    requires Has(val, at, Twice(cmp, text, Lits(text) + run, d)) && NoStar(run) && Overlaps(cmp, text, d)
    ensures FixedAt(cmp, val, at + d, Lits(text) + run)
  {
    hide Has, Twice, Lits;
    var tokens := Lits(text) + run;
    LitsLength(text);
    HasFits(val, at, Twice(cmp, text, tokens, d));
    forall i | 0 <= i < |tokens| ensures Fits(cmp, tokens[i], val[at + d + i]) {
      TwiceAt(cmp, val, at, text, tokens, d, d + i);
      assert tokens[i] in tokens;
      if i < |text| { LitsAt(text, i); }
      if d + i < |text| { assert Same(cmp, text[d + i], text[d + i - d]); }
    }
  }

  lemma TwiceFitsOnce(cmp: Comparator, val: seq<Byte>, at: nat, text: seq<Byte>, run: seq<Token>, d: nat)
    requires var tokens := Lits(text) + run;
             && Has(val, at, Twice(cmp, text, tokens, d)) && |Lits(text)| == |text|
             && exists i | |text| <= i < |tokens| :: Loose(cmp, tokens, i, d)
    ensures !FixedAt(cmp, val, at + |text|, run)
  {
    hide Has, Twice, Lits;
    var tokens := Lits(text) + run;
    var i :| |text| <= i < |tokens| && Loose(cmp, tokens, i, d);
    TwiceAt(cmp, val, at, text, tokens, d, i);
    var k := i - |text|;
    assert tokens[i] == run[k] && !Fits(cmp, run[k], val[at + |text| + k]);
  }
}
