// The byte buffer of a compiled Sieve block: 32-bit jump offsets, variable-length
// integers and counted strings (src/lib-sieve/sieve-binary-code.c).
module BinaryCode {

  import opened Bytes

  // One past the largest offset and the largest number the binary can hold.
  const OFFSET_LIMIT := 0x1_0000_0000
  const NUMBER_LIMIT := 0x1_0000_0000_0000_0000

  // The writer keeps at most nine groups of seven bits.
  const EMIT_LIMIT := 0x8000_0000_0000_0000

  datatype Read<+T> = Got(value: T, next: nat) | Corrupt

  // ----- Offsets: four bytes, most significant first -----

  function OffsetBytes(n: int): (r: seq<Byte>)
    ensures |r| == 4
  {
    [n / 256 / 256 / 256 % 256, n / 256 / 256 % 256, n / 256 % 256, n % 256]
  }

  function Join(high: nat, low: nat): nat
  {
    high * 256 + low
  }

  function OffsetAt(code: seq<Byte>, at: nat): Read<nat>
  {
    if at + 4 <= |code| then
      Got(Join(Join(Join(code[at], code[at + 1]), code[at + 2]), code[at + 3]), at + 4)
    else
      Corrupt
  }

  lemma OffsetRoundTrip(code: seq<Byte>, at: nat, n: nat)
    requires Has(code, at, OffsetBytes(n))
    ensures OffsetAt(code, at) == Got(n % OFFSET_LIMIT, at + 4)
  {
    var b := code[at..at + 4];
    assert code[at] == b[0] && code[at + 1] == b[1] && code[at + 2] == b[2] && code[at + 3] == b[3];
    DigitsOfOffset(n);
  }

  lemma DigitsOfOffset(n: nat)
    ensures Join(Join(Join(n / 256 / 256 / 256 % 256, n / 256 / 256 % 256), n / 256 % 256), n % 256)
            == n % OFFSET_LIMIT
  {
    var a, b, c := n / 256, n / 256 / 256, n / 256 / 256 / 256;
    var d := c / 256;
    assert n == 256 * a + n % 256 && a == 256 * b + a % 256 && b == 256 * c + b % 256 && c == 256 * d + c % 256;
    var v := Join(Join(Join(c % 256, b % 256), a % 256), n % 256);
    assert 0 <= v < OFFSET_LIMIT && n == d * OFFSET_LIMIT + v;
  }

  // Overwrites the slot at `at` with the distance from it to `target`.
  function WithOffset(code: seq<Byte>, at: nat, target: nat): (r: seq<Byte>)
    requires at + 4 <= |code|
    ensures |r| == |code|
  {
    code[..at] + OffsetBytes(target - at) + code[at + 4..]
  }

  lemma PatchSlot(before: seq<Byte>, slot: seq<Byte>, after: seq<Byte>, target: nat)
    requires |slot| == 4
    ensures WithOffset(before + slot + after, |before|, target) == before + OffsetBytes(target - |before|) + after
  {
    var code := before + slot + after;
    assert code[..|before|] == before && code[|before| + 4..] == after;
  }

  // ----- Integers: groups of seven bits, all but the last marked with the high bit -----

  function LeadingBytes(n: nat): seq<Byte>
  {
    if n == 0 then [] else LeadingBytes(n / 128) + [n % 128 + 128]
  }

  function IntegerBytes(n: nat): (r: seq<Byte>)
    ensures |r| >= 1
  {
    LeadingBytes(n / 128) + [n % 128]
  }

  function IntegerFrom(code: seq<Byte>, at: nat, acc: nat, bits: int): Read<nat>
    decreases |code| - at
  {
    if at >= |code| then Corrupt
    else if code[at] < 128 then Got(acc + code[at], at + 1)
    else if bits > 0 then
      IntegerFrom(code, at + 1, (acc + code[at] - 128) * 128 % NUMBER_LIMIT, bits - 7)
    else Corrupt
  }

  function IntegerAt(code: seq<Byte>, at: nat): Read<nat>
  {
    IntegerFrom(code, at, 0, 64)
  }

  // sieve_binary_read_unsigned assigns the number to an unsigned int.
  function UnsignedAt(code: seq<Byte>, at: nat): Read<nat>
  {
    match IntegerAt(code, at)
    case Corrupt => Corrupt
    case Got(n, next) => Got(n % OFFSET_LIMIT, next)
  }

  function Power128(k: nat): nat
  {
    if k == 0 then 1 else 128 * Power128(k - 1)
  }

  lemma {:induction false} LeadingLength(n: nat, k: nat)
    requires n < Power128(k)
    ensures |LeadingBytes(n)| <= k
  {
    if n != 0 { LeadingLength(n / 128, k - 1); }
  }

  lemma LeadingByteReads(code: seq<Byte>, at: nat, acc: nat, bits: int)
    requires at < |code| && code[at] >= 128 && bits > 0
    requires (acc + code[at] - 128) * 128 < NUMBER_LIMIT
    ensures IntegerFrom(code, at, acc, bits) == IntegerFrom(code, at + 1, (acc + code[at] - 128) * 128, bits - 7)
  {
    var next: nat := (acc + code[at] - 128) * 128;
    assert next % NUMBER_LIMIT == next;
  }

  // Reading the leading groups of `n` leaves `n`, shifted, in the accumulator.
  lemma {:induction false} LeadingReads(code: seq<Byte>, at: nat, n: nat, k: nat)
    requires k == |LeadingBytes(n)| <= 9 && n < NUMBER_LIMIT / 128
    requires Has(code, at, LeadingBytes(n))
    ensures IntegerAt(code, at) == IntegerFrom(code, at + k, n * 128, 64 - 7 * k)
  {
    hide Has, IntegerFrom;
    if n != 0 {
      HasParts(code, at, LeadingBytes(n / 128), [n % 128 + 128]);
      HasByte(code, at + k - 1, [n % 128 + 128], 0);
      LeadingReads(code, at, n / 128, k - 1);
      LeadingByteReads(code, at + k - 1, n / 128 * 128, 64 - 7 * (k - 1));
    }
  }

  lemma IntegerRoundTrip(code: seq<Byte>, at: nat, n: nat)
    requires n < EMIT_LIMIT
    requires Has(code, at, IntegerBytes(n))
    ensures IntegerAt(code, at) == Got(n, at + |IntegerBytes(n)|)
  {
    var k := |LeadingBytes(n / 128)|;
    assert Power128(8) == EMIT_LIMIT / 128 by {
      assert Power128(4) == 128 * 128 * 128 * 128;
    }
    LeadingLength(n / 128, 8);
    HasParts(code, at, LeadingBytes(n / 128), [n % 128]);
    HasByte(code, at + k, [n % 128], 0);
    LeadingReads(code, at, n / 128, k);
  }

  lemma {:induction false} IntegerAdvances(code: seq<Byte>, at: nat, acc: nat, bits: int)
    ensures var r := IntegerFrom(code, at, acc, bits); r.Got? ==> at < r.next <= |code|
    decreases |code| - at
  {
    if at < |code| && code[at] >= 128 && bits > 0 {
      IntegerAdvances(code, at + 1, (acc + code[at] - 128) * 128 % NUMBER_LIMIT, bits - 7);
    }
  }

  // ----- Strings: length, bytes, and a closing zero byte -----

  function StringBytes(s: seq<Byte>): (r: seq<Byte>)
    ensures |r| >= 2
  {
    IntegerBytes(|s|) + s + [0]
  }

  function StringAt(code: seq<Byte>, at: nat): Read<seq<Byte>>
  {
    match UnsignedAt(code, at)
    case Corrupt => Corrupt
    case Got(n, start) =>
      if start + n >= |code| || code[start + n] != 0 then Corrupt
      else Got(code[start..start + n], start + n + 1)
  }

  lemma StringRoundTrip(code: seq<Byte>, at: nat, s: seq<Byte>)
    requires |s| < OFFSET_LIMIT
    requires Has(code, at, StringBytes(s))
    ensures StringAt(code, at) == Got(s, at + |StringBytes(s)|)
  {
    hide IntegerFrom, IntegerBytes;
    var k := |IntegerBytes(|s|)|;
    HasParts(code, at, IntegerBytes(|s|) + s, [0]);
    HasParts(code, at, IntegerBytes(|s|), s);
    HasByte(code, at + k + |s|, [0], 0);
    IntegerRoundTrip(code, at, |s|);
  }

  lemma StringAdvances(code: seq<Byte>, at: nat)
    ensures var r := StringAt(code, at); r.Got? ==> at < r.next <= |code|
  {
    IntegerAdvances(code, at, 0, 64);
  }

  // The growing buffer the generator writes to and the interpreter reads from.
  class BinaryBlock {
    var data: seq<Byte>

    constructor ()
      ensures data == []
    {
      data := [];
    }

    method EmitByte(b: Byte) returns (at: nat)
      modifies this
      ensures at == |old(data)| && data == old(data) + [b]
    {
      at := |data|;
      data := data + [b];
    }

    // Encodes from the least significant byte down.
    method EncodeOffset(offset: nat) returns (encoded: seq<Byte>)
      ensures encoded == OffsetBytes(offset)
    {
      encoded := [];
      var left := offset;
      var i := 3;
      while i >= 0
        invariant -1 <= i <= 3 && |encoded| == 3 - i
        invariant left == if i == 3 then offset else if i == 2 then offset / 256 else if i == 1 then offset / 256 / 256
                          else offset / 256 / 256 / 256 / (if i == 0 then 1 else 256)
        invariant encoded == OffsetBytes(offset)[i + 1..]
      {
        encoded := [left % 256] + encoded;
        left := left / 256;
        i := i - 1;
      }
    }

    method EmitOffset(offset: nat) returns (at: nat)
      modifies this
      ensures at == |old(data)| && data == old(data) + OffsetBytes(offset)
    {
      at := |data|;
      var encoded := EncodeOffset(offset);
      data := data + encoded;
    }

    // Points the slot at the current end of the code.
    method ResolveOffset(at: nat)
      requires at + 4 <= |data| && |data| - at < OFFSET_LIMIT
      modifies this
      ensures data == WithOffset(old(data), at, |old(data)|)
    {
      var encoded := EncodeOffset(|data| - at);
      data := data[..at] + encoded + data[at + 4..];
    }

    method EmitInteger(n: nat) returns (at: nat)
      requires n < EMIT_LIMIT
      modifies this
      ensures at == |old(data)| && data == old(data) + IntegerBytes(n)
    {
      at := |data|;
      var buffer: seq<Byte> := [n % 128];
      var left: nat := n / 128;
      while left > 0
        invariant IntegerBytes(n) == LeadingBytes(left) + buffer
      {
        buffer := [left % 128 + 128] + buffer;
        left := left / 128;
      }
      data := data + buffer;
    }

    method EmitString(s: seq<Byte>) returns (at: nat)
      requires |s| < EMIT_LIMIT
      modifies this
      ensures at == |old(data)| && data == old(data) + StringBytes(s)
    {
      at := EmitInteger(|s|);
      data := data + s;
      data := data + [0];
    }

    method ReadOffset(at: nat) returns (r: Read<nat>)
      ensures r == OffsetAt(data, at)
    {
      if at > |data| || |data| - at < 4 { return Corrupt; }
      var offset: nat := 0;
      var address := at;
      for i := 0 to 4
        invariant address == at + i && (i == 0 ==> offset == 0)
        invariant i == 1 ==> offset == data[at]
        invariant i == 2 ==> offset == Join(data[at], data[at + 1])
        invariant i == 3 ==> offset == Join(Join(data[at], data[at + 1]), data[at + 2])
        invariant i == 4 ==> Got(offset, at + 4) == OffsetAt(data, at)
      {
        offset := Join(offset, data[address]);
        address := address + 1;
      }
      r := Got(offset, address);
    }

    method ReadInteger(at: nat) returns (r: Read<nat>)
      ensures r == IntegerAt(data, at)
    {
      var address: nat, integer: nat, bits := at, 0, 64;
      while address < |data| && data[address] >= 128
        invariant at <= address
        invariant IntegerAt(data, at) == IntegerFrom(data, address, integer, bits)
      {
        if bits <= 0 { return Corrupt; }
        integer := (integer + data[address] - 128) * 128 % NUMBER_LIMIT;
        address := address + 1;
        bits := bits - 7;
      }
      if address >= |data| { return Corrupt; }
      r := Got(integer + data[address], address + 1);
    }
  }
}
