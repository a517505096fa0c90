// Numbers written in a script, with leading zeros and a quantifier, and what the lexer reads.
module LexerNumbers {
  import opened Bytes
  import opened Lexer
  import opened Numerals

  datatype Quantifier = One | Kilo | Mega | Giga

  function Factor(q: Quantifier): int
  {
    match q
    case One => 1
    case Kilo => 1024
    case Mega => 1024 * 1024
    case Giga => 1024 * 1024 * 1024
  }

  // The letter of a quantifier, in either case.
  predicate Writes(q: Quantifier, letter: seq<Byte>)
  {
    match q
    case One => letter == []
    case Kilo => letter == ['K' as int] || letter == ['k' as int]
    case Mega => letter == ['M' as int] || letter == ['m' as int]
    case Giga => letter == ['G' as int] || letter == ['g' as int]
  }

  // A byte that goes on a number which has no quantifier yet.
  predicate GoesOn(c: Byte)
  {
    '0' as int <= c <= '9' as int
    || c == 'K' as int || c == 'k' as int || c == 'M' as int || c == 'm' as int || c == 'G' as int || c == 'g' as int
  }

  function Zeros(n: nat): (s: seq<Byte>)
    ensures |s| == n
  {
    seq(n, _ => '0' as int)
  }

  // The number with its quantifier stands at `at`, and ends there.
  ghost predicate NumberAt(input: seq<Byte>, at: nat, zeros: nat, n: nat, q: Quantifier, letter: seq<Byte>)
  {
    && Writes(q, letter) && Has(input, at, Zeros(zeros) + Decimal(n) + letter)
    && var end := at + zeros + |Decimal(n)|;
       q == One && end < |input| ==> !GoesOn(input[end])
  }

  predicate AllDigits(s: seq<Byte>)
  {
    forall i | 0 <= i < |s| :: IsDigit(s[i])
  }

  lemma {:induction false} DecimalIsDigits(n: nat)
    ensures AllDigits(Decimal(n)) && Decimal(n) != []
  {
    if n >= 10 { DecimalIsDigits(n / 10); }
  }

  lemma {:induction false} DecimalReads(zeros: nat, n: nat)
    ensures DecimalValue(Zeros(zeros) + Decimal(n)) == n
    decreases n
  {
    if n < 10 {
      assert (Zeros(zeros) + Decimal(n))[..zeros] == Zeros(zeros);
      ZerosRead(zeros);
    } else {
      var front, last := Decimal(n / 10), [48 + n % 10];
      assert Zeros(zeros) + (front + last) == Zeros(zeros) + front + last;
      LastDigit(Zeros(zeros) + front, 48 + n % 10);
      DecimalReads(zeros, n / 10);
    }
  }

  lemma LastDigit(front: seq<Byte>, c: Byte)
    ensures DecimalValue(front + [c]) == DecimalValue(front) * 10 + c - 48
  {
    assert (front + [c])[..|front|] == front;
  }

  lemma {:induction false} ZerosRead(zeros: nat)
    ensures DecimalValue(Zeros(zeros)) == 0
  {
    if zeros > 0 {
      assert Zeros(zeros) == Zeros(zeros - 1) + [48];
      LastDigit(Zeros(zeros - 1), 48);
      ZerosRead(zeros - 1);
    }
  }

  lemma {:induction false} DigitsRun(input: seq<Byte>, at: nat, digits: seq<Byte>)
    requires Has(input, at, digits) && AllDigits(digits)
    ensures at + |digits| <= |input| && DigitsEnd(input, at) == DigitsEnd(input, at + |digits|)
    decreases |digits|
  {
    if digits != [] {
      HasByte(input, at, digits, 0);
      assert digits == digits[..1] + digits[1..];
      HasParts(input, at, digits[..1], digits[1..]);
      DigitsRun(input, at + 1, digits[1..]);
    }
  }

  // The lexer finds the digits, the number they stand for and the factor of the quantifier.
  lemma NumberIsFound(input: seq<Byte>, at: nat, zeros: nat, n: nat, q: Quantifier, letter: seq<Byte>)
    requires NumberAt(input, at, zeros, n, q, letter)
    ensures at < |input| && IsDigit(input[at])
    ensures var end := DigitsEnd(input, at);
            && end == at + zeros + |Decimal(n)| && DecimalValue(input[at..end]) == n
            && Unit(Peek(input, end)) == Factor(q)
  {
    hide Decimal, DecimalValue, Unit, Factor, Writes, GoesOn, Has;
    var digits := Zeros(zeros) + Decimal(n);
    DecimalIsDigits(n);
    HasParts(input, at, digits, letter);
    DigitsRun(input, at, digits);
    DecimalReads(zeros, n);
    HasByte(input, at, digits, 0);
    UnitIsFactor(input, at + |digits|, q, letter);
  }

  lemma UnitIsFactor(input: seq<Byte>, end: nat, q: Quantifier, letter: seq<Byte>)
    requires Writes(q, letter) && Has(input, end, letter) && (q == One && end < |input| ==> !GoesOn(input[end]))
    ensures Unit(Peek(input, end)) == Factor(q) && !IsDigit(Peek(input, end))
  {
    if letter != [] { HasByte(input, end, letter, 0); }
  }

  // Every run of digits is some number behind some zeros.
  lemma {:induction false} EveryRunIsANumber(digits: seq<Byte>) returns (zeros: nat, n: nat)
    requires AllDigits(digits) && digits != []
    ensures digits == Zeros(zeros) + Decimal(n)
    decreases |digits|
  {
    var k := |digits| - 1;
    var front, d := digits[..k], digits[k] - 48;
    assert digits == front + [48 + d];
    if k == 0 {
      zeros, n := 0, d;
    } else {
      zeros, n := EveryRunIsANumber(front);
      if n == 0 {
        assert Zeros(zeros) + [48] == Zeros(zeros + 1);
        zeros, n := zeros + 1, d;
      } else {
        assert front + [48 + d] == Zeros(zeros) + (Decimal(n) + [48 + d]);
        n := n * 10 + d;
        assert n / 10 == (n - d) / 10 && n % 10 == d;
      }
    }
  }

  // A number is read as what is written, exactly when it is less than 2^64; and reading goes on behind it.
  method LexNumber(chunks: seq<seq<Byte>>, ghost zeros: nat, ghost n: nat, ghost q: Quantifier,
                   ghost letter: seq<Byte>)
    returns (ok: bool, value: int, next: int)
    requires forall i | 0 <= i < |chunks| :: chunks[i] != []
    requires NumberAt(Joined(chunks), 0, zeros, n, q, letter)
    ensures ok <==> n * Factor(q) < 0x1_0000_0000_0000_0000
    ensures ok ==> value == n * Factor(q) && next == Peek(Joined(chunks), zeros + |Decimal(n)| + |letter|)
  {
    hide Decimal, DecimalValue, DigitsEnd;
    var scanner := new Scanner(chunks);
    NumberIsFound(scanner.input, 0, zeros, n, q, letter);
    ok, value := scanner.ScanNumber();
    next := scanner.CurChar();
  }
}
