// Bytes, and sequences of bytes found within others.
module Bytes {

  type Byte = b: int | 0 <= b < 256

  const TAB: Byte := 9
  const LF: Byte := 10
  const CR: Byte := 13
  const QUOTE: Byte := 34
  const BACKSLASH: Byte := 92

  datatype Option<+T> = None | Some(value: T)

  ghost predicate Has(code: seq<Byte>, at: nat, bytes: seq<Byte>)
  {
    at + |bytes| <= |code| && code[at..at + |bytes|] == bytes
  }

  lemma HasByte(code: seq<Byte>, at: nat, bytes: seq<Byte>, i: nat)
    requires Has(code, at, bytes) && i < |bytes|
    ensures at + i < |code| && code[at + i] == bytes[i]
  {
    assert code[at..at + |bytes|][i] == bytes[i];
  }

  lemma HasParts(code: seq<Byte>, at: nat, a: seq<Byte>, b: seq<Byte>)
    requires Has(code, at, a + b)
    ensures Has(code, at, a) && Has(code, at + |a|, b)
  {
    assert (a + b)[..|a|] == a && (a + b)[|a|..] == b;
    assert code[at..at + |a|] == code[at..at + |a + b|][..|a|];
    assert code[at + |a|..at + |a| + |b|] == code[at..at + |a + b|][|a|..];
  }

  lemma Assoc(a: seq<Byte>, b: seq<Byte>, c: seq<Byte>)
    ensures a + b + c == a + (b + c)
  {
  }

  lemma HasFits(code: seq<Byte>, at: nat, bytes: seq<Byte>)
    requires Has(code, at, bytes)
    ensures at + |bytes| <= |code|
  {
  }

  // Input that arrived in pieces.
  function Joined(pieces: seq<seq<Byte>>): seq<Byte>
  {
    if pieces == [] then [] else pieces[0] + Joined(pieces[1..])
  }
}
