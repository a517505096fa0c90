// What the readers of the binary accept, byte for byte: every code they read and every code they refuse
// (src/lib-sieve/sieve-binary-code.c).
module CodeReading {
  import opened Bytes
  import opened BinaryCode

  // ----- Offsets -----

  // An offset is read exactly when its four bytes are there.
  lemma OffsetReadsExactly(code: seq<Byte>, at: nat, n: nat, next: nat)
    ensures OffsetAt(code, at) == Got(n, next) <==> n < OFFSET_LIMIT && next == at + 4 && Has(code, at, OffsetBytes(n))
  {
    if at + 4 <= |code| {
      if Has(code, at, OffsetBytes(n)) { OffsetRoundTrip(code, at, n); }
      if OffsetAt(code, at) == Got(n, next) { BytesOfOffset(code, at, n); }
    }
  }

  lemma BytesOfOffset(code: seq<Byte>, at: nat, n: nat)
    requires OffsetAt(code, at) == Got(n, at + 4)
    ensures n < OFFSET_LIMIT && Has(code, at, OffsetBytes(n))
  {
    var a, b, c, d := code[at], code[at + 1], code[at + 2], code[at + 3];
    SplitJoin(Join(Join(a, b), c), d);
    SplitJoin(Join(a, b), c);
    SplitJoin(a, b);
    assert code[at..at + 4] == [a, b, c, d];
  }

  lemma SplitJoin(high: nat, low: Byte)
    ensures Join(high, low) / 256 == high && Join(high, low) % 256 == low
  {
  }

  // ----- Integers -----

  // Groups of seven bits, the most significant first.
  function Groups(bytes: seq<Byte>): nat
  {
    if bytes == [] then 0 else Groups(bytes[..|bytes| - 1]) * 128 + bytes[|bytes| - 1] % 128
  }

  // `k` marked bytes and then one that is not marked.
  ghost predicate RunOf(code: seq<Byte>, at: nat, k: nat)
  {
    at + k < |code| && code[at + k] < 128 && forall i | at <= i < at + k :: code[i] >= 128
  }

  lemma SameRest(x: nat, m: nat)
    ensures (x + m * NUMBER_LIMIT) % NUMBER_LIMIT == x % NUMBER_LIMIT
  {
  }

  lemma ShiftedRest(x: nat, g: nat)
    ensures (x % NUMBER_LIMIT + g) * 128 % NUMBER_LIMIT == (x + g) * 128 % NUMBER_LIMIT
  {
    var q, r := x / NUMBER_LIMIT, x % NUMBER_LIMIT;
    assert (x + g) * 128 == (r + g) * 128 + q * 128 * NUMBER_LIMIT;
    SameRest((r + g) * 128, q * 128);
  }

  lemma LastGroup(x: nat, g: nat)
    requires g < 128
    ensures x * 128 % NUMBER_LIMIT + g == (x * 128 + g) % NUMBER_LIMIT
  {
    var q, r := x * 128 / NUMBER_LIMIT, x * 128 % NUMBER_LIMIT;
    assert r == 128 * (x - q * (NUMBER_LIMIT / 128));
    assert r + g < NUMBER_LIMIT;
    SameRest(r + g, q);
  }

  lemma GroupsGrow(code: seq<Byte>, at: nat, k: nat)
    requires at + k < |code|
    ensures Groups(code[at..at + k + 1]) == Groups(code[at..at + k]) * 128 + code[at + k] % 128
  {
    assert code[at..at + k + 1][..k] == code[at..at + k];
  }

  lemma MarkedByte(code: seq<Byte>, at: nat, x: nat, bits: int)
    requires at < |code| && code[at] >= 128 && bits > 0
    ensures IntegerFrom(code, at, x * 128 % NUMBER_LIMIT, bits)
            == IntegerFrom(code, at + 1, (x * 128 + code[at] % 128) * 128 % NUMBER_LIMIT, bits - 7)
  {
    assert code[at] % 128 == code[at] - 128;
    ShiftedRest(x * 128, code[at] - 128);
  }

  // After `j` of the marked bytes.
  lemma {:induction false} MarkedBytes(code: seq<Byte>, at: nat, j: nat)
    requires at + j < |code| && j <= 10 && forall i | at <= i < at + j :: code[i] >= 128
    ensures IntegerAt(code, at)
            == IntegerFrom(code, at + j, Groups(code[at..at + j]) * 128 % NUMBER_LIMIT, 64 - 7 * j)
  {
    hide IntegerFrom;
    if j == 0 {
      assert Groups(code[at..at]) == 0;
    } else {
      hide Groups;
      MarkedBytes(code, at, j - 1);
      GroupsGrow(code, at, j - 1);
      MarkedByte(code, at + j - 1, Groups(code[at..at + j - 1]), 64 - 7 * (j - 1));
    }
  }

  // An integer is read from at most eleven bytes, and is what their groups make modulo 2^64.
  lemma IntegerReadsExactly(code: seq<Byte>, at: nat, k: nat)
    requires RunOf(code, at, k)
    ensures IntegerAt(code, at)
            == if k <= 10 then Got(Groups(code[at..at + k + 1]) % NUMBER_LIMIT, at + k + 1) else Corrupt
  {
    hide IntegerAt, Groups;
    MarkedBytes(code, at, if k <= 10 then k else 10);
    if k <= 10 {
      GroupsGrow(code, at, k);
      LastGroup(Groups(code[at..at + k]), code[at + k]);
    }
  }

  // Without an unmarked byte there is no integer.
  lemma {:induction false} NoIntegerWithoutEnd(code: seq<Byte>, at: nat, acc: nat, bits: int)
    requires forall i | at <= i < |code| :: code[i] >= 128
    ensures IntegerFrom(code, at, acc, bits) == Corrupt
    decreases |code| - at
  {
    if at < |code| && bits > 0 {
      NoIntegerWithoutEnd(code, at + 1, (acc + code[at] - 128) * 128 % NUMBER_LIMIT, bits - 7);
    }
  }

  lemma {:induction false} RunOrNone(code: seq<Byte>, at: nat) returns (k: nat)
    ensures RunOf(code, at, k) || forall i | at <= i < |code| :: code[i] >= 128
    decreases |code| - at
  {
    k := 0;
    if at < |code| && code[at] >= 128 {
      var more := RunOrNone(code, at + 1);
      k := more + 1;
    }
  }

  // What is read, whatever the code: the run that is there, if it is not too long.
  lemma IntegerIsReadOrRefused(code: seq<Byte>, at: nat)
    ensures IntegerAt(code, at).Got? <==> exists k: nat | k <= 10 :: RunOf(code, at, k)
  {
    hide RunOf, IntegerFrom;
    var k := RunOrNone(code, at);
    if RunOf(code, at, k) {
      IntegerReadsExactly(code, at, k);
      forall j: nat | RunOf(code, at, j) ensures j == k { OneRun(code, at, j, k); }
    } else {
      NoIntegerWithoutEnd(code, at, 0, 64);
      forall j: nat ensures !RunOf(code, at, j) { NoRun(code, at, j); }
    }
  }

  lemma OneRun(code: seq<Byte>, at: nat, j: nat, k: nat)
    requires RunOf(code, at, j) && RunOf(code, at, k)
    ensures j == k
  {
  }

  lemma NoRun(code: seq<Byte>, at: nat, j: nat)
    requires forall i | at <= i < |code| :: code[i] >= 128
    ensures !RunOf(code, at, j)
  {
  }

  // ----- Strings -----

  // A string is read exactly when its bytes and the closing zero byte follow its length.
  lemma StringReadsExactly(code: seq<Byte>, at: nat, s: seq<Byte>, next: nat)
    ensures StringAt(code, at) == Got(s, next)
            <==> exists start: nat :: UnsignedAt(code, at) == Got(|s|, start) && Has(code, start, s + [0])
                                      && next == start + |s| + 1
  {
    hide IntegerAt;
    var r := UnsignedAt(code, at);
    if r.Got? && |s| == r.value {
      var start: nat := r.next;
      if Has(code, start, s + [0]) {
        HasParts(code, start, s, [0]);
        HasByte(code, start + |s|, [0], 0);
      }
      if StringAt(code, at) == Got(s, next) { assert code[start..start + |s| + 1] == s + [0]; }
    }
  }

  // ----- Truncated code -----

  // The code ends within the part that should be at `at`.
  ghost predicate CutOff(code: seq<Byte>, at: nat, part: seq<Byte>)
  {
    at <= |code| < at + |part| && code[at..] == part[..|code| - at]
  }

  lemma CutParts(code: seq<Byte>, at: nat, a: seq<Byte>, b: seq<Byte>)
    requires CutOff(code, at, a + b)
    ensures CutOff(code, at, a) || (Has(code, at, a) && CutOff(code, at + |a|, b))
  {
    var k := |code| - at;
    if k < |a| {
      assert (a + b)[..k] == a[..k];
    } else {
      assert (a + b)[..k] == a + b[..k - |a|];
      assert code[at..at + |a|] == code[at..][..|a|] && code[at + |a|..] == code[at..][|a|..];
    }
  }

  lemma {:induction false} LeadingMarked(n: nat)
    ensures forall i | 0 <= i < |LeadingBytes(n)| :: LeadingBytes(n)[i] >= 128
  {
    if n != 0 { LeadingMarked(n / 128); }
  }

  lemma IntegerCut(code: seq<Byte>, at: nat, n: nat)
    requires CutOff(code, at, IntegerBytes(n))
    ensures IntegerAt(code, at) == Corrupt
  {
    LeadingMarked(n / 128);
    var k := |code| - at;
    assert forall i | at <= i < |code| :: code[i] == code[at..][i - at] == LeadingBytes(n / 128)[i - at];
    NoIntegerWithoutEnd(code, at, 0, 64);
  }

  lemma StringCut(code: seq<Byte>, at: nat, s: seq<Byte>)
    requires |s| < OFFSET_LIMIT && CutOff(code, at, StringBytes(s))
    ensures StringAt(code, at) == Corrupt
  {
    hide CutOff, IntegerBytes, IntegerAt, Has;
    CutParts(code, at, IntegerBytes(|s|) + s, [0]);
    Assoc(IntegerBytes(|s|), s, [0]);
    CutParts(code, at, IntegerBytes(|s|), s + [0]);
    if CutOff(code, at, IntegerBytes(|s|)) {
      IntegerCut(code, at, |s|);
    } else {
      IntegerRoundTrip(code, at, |s|);
      CutShort(code, at + |IntegerBytes(|s|)|, s + [0]);
    }
  }

  lemma CutShort(code: seq<Byte>, at: nat, part: seq<Byte>)
    requires CutOff(code, at, part)
    ensures at <= |code| < at + |part|
  {
  }

  lemma OffsetCut(code: seq<Byte>, at: nat, n: nat)
    requires CutOff(code, at, OffsetBytes(n))
    ensures OffsetAt(code, at) == Corrupt
  {
  }

  // Of one byte nothing can be cut off when there is more code.
  lemma HeadThere(code: seq<Byte>, at: nat, head: seq<Byte>)
    requires |head| == 1 && at < |code|
    ensures !CutOff(code, at, head)
  {
  }
}
