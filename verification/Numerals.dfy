// Numbers as they are written.
module Numerals {
  import opened Bytes

  function Decimal(n: nat): seq<Byte>
  {
    if n < 10 then [48 + n] else Decimal(n / 10) + [48 + n % 10]
  }
}
