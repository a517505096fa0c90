// The lines the argument parser takes, as a grammar: what is accepted and with which arguments, what is
// refused, and what is still open.
module ManageSieveGrammar {
  import opened Bytes
  import opened ManageSieve

  // ----- Arguments as they are written -----

  datatype Unit = Unit(escaped: bool, c: Byte)

  datatype Word =
    | WAtom(text: seq<Byte>)
    | WString(units: seq<Unit>)
    | WLiteral(digits: seq<Byte>, plus: bool, cr: bool, data: seq<Byte>)

  predicate AtomByte(c: Byte)
  {
    c == 33 || 35 <= c <= 39 || 42 <= c <= 91 || 93 <= c <= 122 || 124 <= c <= 126
  }

  // What may stand behind an atom: a space, a closing parenthesis or the end of the line.
  predicate AfterAtom(c: Byte) { c == 32 || c == 41 || c == 13 || c == 10 }

  predicate UnitFits(u: Unit)
  {
    if u.escaped then u.c == 34 || u.c == 92 else u.c != 0 && u.c != 10 && u.c != 13 && u.c != 34 && u.c != 92
  }

  function Written(u: Unit): seq<Byte> { if u.escaped then [BACKSLASH, u.c] else [u.c] }

  function Raw(units: seq<Unit>): seq<Byte>
  {
    if units == [] then [] else Written(units[0]) + Raw(units[1..])
  }

  function Chars(units: seq<Unit>): (r: seq<Byte>)
    ensures |r| == |units| && forall i | 0 <= i < |r| :: r[i] == units[i].c
  {
    seq(|units|, i requires 0 <= i < |units| => units[i].c)
  }

  predicate IsDigit(c: Byte) { '0' as int <= c <= '9' as int }

  function DigitValue(c: Byte): nat
    requires IsDigit(c)
  {
    c - '0' as int
  }

  // The decimal number of digits behind the number `n`.
  function Number(n: nat, digits: seq<Byte>): (r: nat)
    requires forall i | 0 <= i < |digits| :: IsDigit(digits[i])
    ensures r >= n
    decreases |digits|
  {
    if digits == [] then n else Number(n * 10 + DigitValue(digits[0]), digits[1..])
  }

  predicate SizeFits(digits: seq<Byte>)
  {
    (forall i | 0 <= i < |digits| :: IsDigit(digits[i])) && Number(0, digits) < 0x1_0000_0000_0000_0000
  }

  function Plus(plus: bool): seq<Byte> { if plus then [PLUS] else [] }

  function Break(cr: bool): seq<Byte> { if cr then [CR, LF] else [LF] }

  function Header(digits: seq<Byte>, plus: bool): seq<Byte> { [LBRACE] + digits + Plus(plus) + [RBRACE] }

  function Spelled(word: Word): (r: seq<Byte>)
  {
    match word
    case WAtom(text) => text
    case WString(units) => [QUOTE] + Raw(units) + [QUOTE]
    case WLiteral(digits, plus, cr, data) => Header(digits, plus) + Break(cr) + data
  }

  // Where on the line a literal may begin, and how large it may be.
  predicate Room(cfg: Config, at: nat, size: nat) { at < cfg.maxLine && at + size <= cfg.maxLine }

  ghost predicate WordFits(cfg: Config, at: nat, word: Word)
  {
    match word
    case WAtom(text) => text != [] && forall i | 0 <= i < |text| :: AtomByte(text[i])
    case WString(units) => (forall i | 0 <= i < |units| :: UnitFits(units[i])) && cfg.utf8(Raw(units))
    case WLiteral(digits, plus, cr, data) =>
      && SizeFits(digits) && Number(0, digits) == |data| && cfg.utf8(data)
      && Room(cfg, at + |Header(digits, plus)|, |data|)
  }

  // A literal given as text ends at its first NUL.
  ghost predicate CutAtNul(data: seq<Byte>, text: seq<Byte>)
  {
    text <= data && 0 !in text && (text == data || data[|text|] == 0)
  }

  // The argument a word stands for.
  ghost predicate Means(cfg: Config, word: Word, arg: Arg)
  {
    match word
    case WAtom(text) => arg == Atom(text)
    case WString(units) => arg == (if cfg.noUnescape then String(Raw(units), |Raw(units)|)
                                   else String(Chars(units), |units|))
    case WLiteral(digits, plus, cr, data) =>
      (if cfg.literalType then arg.Literal? else arg.String?) && arg.len == |data| && CutAtNul(data, arg.text)
  }

  // The word stands in front of the input `w`, which is at `at` of the line.
  ghost predicate WordAt(cfg: Config, at: nat, w: seq<Byte>, word: Word)
  {
    && WordFits(cfg, at, word) && Spelled(word) <= w
    && (word.WAtom? ==> |word.text| < |w| && AfterAtom(w[|word.text|]))
  }

  // How long the line is taken to be when the word has been read.
  function LineSize(at: nat, word: Word): nat
  {
    if word.WLiteral? then at + |Header(word.digits, word.plus)| + |Break(word.cr)| else at
  }

  // ----- Words that were only begun -----

  datatype Stump =
    | HalfAtom(text: seq<Byte>)
    | HalfString(units: seq<Unit>)
    | HalfHeader(digits: seq<Byte>, plus: bool)
    | Headed(digits: seq<Byte>, plus: bool)
    | HeadedLine(digits: seq<Byte>, plus: bool, cr: bool)

  function Begun(stump: Stump): seq<Byte>
  {
    match stump
    case HalfAtom(text) => text
    case HalfString(units) => [QUOTE] + Raw(units)
    case HalfHeader(digits, plus) => [LBRACE] + digits + Plus(plus)
    case Headed(digits, plus) => Header(digits, plus)
    case HeadedLine(digits, plus, cr) => Header(digits, plus) + Break(cr)
  }

  ghost predicate StumpFits(cfg: Config, at: nat, stump: Stump)
  {
    match stump
    case HalfAtom(text) => forall i | 0 <= i < |text| :: AtomByte(text[i])
    case HalfString(units) => forall i | 0 <= i < |units| :: UnitFits(units[i])
    case HalfHeader(digits, plus) => SizeFits(digits)
    case Headed(digits, plus) => SizeFits(digits)
    case HeadedLine(digits, plus, cr) =>
      SizeFits(digits) && Room(cfg, at + |Header(digits, plus)|, Number(0, digits))
  }

  // What follows the begun word cannot go on.
  ghost predicate Spoils(cfg: Config, at: nat, stump: Stump, rest: seq<Byte>)
    requires StumpFits(cfg, at, stump)
  {
    match stump
    case HalfAtom(text) =>
      && rest != [] && !AtomByte(rest[0])
      && if text == [] then rest[0] !in [SPACE, CR, LF, QUOTE, LBRACE] else !AfterAtom(rest[0])
    case HalfString(units) =>
      && rest != []
      && (rest[0] == 0 || rest[0] == CR || rest[0] == LF || (rest[0] == QUOTE && !cfg.utf8(Raw(units)))
          || (rest[0] == BACKSLASH && |rest| > 1 && rest[1] != QUOTE && rest[1] != BACKSLASH))
    case HalfHeader(digits, plus) =>
      && rest != [] && rest[0] != RBRACE
      && (plus || (rest[0] != PLUS && !(IsDigit(rest[0]) && SizeFits(digits + [rest[0]]))))
    case Headed(digits, plus) =>
      || !Room(cfg, at + |Begun(stump)|, Number(0, digits))
      || (rest != [] && rest[0] != LF && (rest[0] == CR ==> |rest| > 1 && rest[1] != LF))
    case HeadedLine(digits, plus, cr) =>
      var n := Number(0, digits);
      |rest| >= n && !cfg.utf8(rest[..n])
  }

  // More input is needed to tell.
  ghost predicate LeavesOpen(cfg: Config, at: nat, stump: Stump, rest: seq<Byte>)
    requires StumpFits(cfg, at, stump)
  {
    match stump
    case HalfAtom(text) => rest == []
    case HalfString(units) => rest == [] || rest == [BACKSLASH]
    case HalfHeader(digits, plus) => rest == []
    case Headed(digits, plus) =>
      Room(cfg, at + |Begun(stump)|, Number(0, digits)) && (rest == [] || rest == [CR])
    case HeadedLine(digits, plus, cr) => |rest| < Number(0, digits)
  }

  ghost predicate SpoiltAt(cfg: Config, at: nat, w: seq<Byte>, stump: Stump)
  {
    StumpFits(cfg, at, stump) && Begun(stump) <= w && Spoils(cfg, at, stump, w[|Begun(stump)|..])
  }

  ghost predicate OpenAt(cfg: Config, at: nat, w: seq<Byte>, stump: Stump)
  {
    StumpFits(cfg, at, stump) && Begun(stump) <= w && LeavesOpen(cfg, at, stump, w[|Begun(stump)|..])
  }

  // ----- Runs of the three loops -----

  lemma BytesAgree(c: Byte)
    ensures IsAtomChar(c) <==> AtomByte(c)
    ensures EndsAtom(c) <==> AfterAtom(c)
    ensures AfterAtom(c) ==> !AtomByte(c)
  {
  }

  lemma {:induction false} AtomRun(w: seq<Byte>, i: nat, j: nat)
    requires i <= j <= |w| && forall k | i <= k < j :: AtomByte(w[k])
    ensures AtomEnd(w, i) == AtomEnd(w, j)
    decreases j - i
  {
    if i < j {
      BytesAgree(w[i]);
      AtomRun(w, i + 1, j);
    }
  }

  lemma {:induction false} AtomShape(w: seq<Byte>, i: nat) returns (j: nat)
    requires i <= |w|
    ensures i <= j <= |w| && (forall k | i <= k < j :: AtomByte(w[k])) && (j < |w| ==> !AtomByte(w[j]))
    decreases |w| - i
  {
    if i < |w| && AtomByte(w[i]) { j := AtomShape(w, i + 1); } else { j := i; }
  }

  function FirstEscape(i: nat, escape: int, units: seq<Unit>): int
    decreases |units|
  {
    if units == [] then escape
    else if units[0].escaped then FirstEscape(i + 2, if escape < 0 then i else escape, units[1..])
    else FirstEscape(i + 1, escape, units[1..])
  }

  lemma {:induction false} UnitsRun(w: seq<Byte>, i: nat, escape: int, units: seq<Unit>)
    requires Has(w, i, Raw(units)) && forall k | 0 <= k < |units| :: UnitFits(units[k])
    ensures StringEnd(w, i, escape) == StringEnd(w, i + |Raw(units)|, FirstEscape(i, escape, units))
    decreases |units|
  {
    if units != [] {
      var u := units[0];
      var head := Written(u);
      HasParts(w, i, head, Raw(units[1..]));
      HasByte(w, i, head, 0);
      if u.escaped { HasByte(w, i, head, 1); }
      assert UnitFits(u);
      UnitsRun(w, i + |head|, if u.escaped && escape < 0 then i else escape, units[1..]);
    }
  }

  lemma {:induction false} UnitsShape(w: seq<Byte>, i: nat) returns (units: seq<Unit>)
    requires i <= |w|
    ensures forall k | 0 <= k < |units| :: UnitFits(units[k])
    ensures Has(w, i, Raw(units))
    ensures var e := i + |Raw(units)|;
            e == |w| || w[e] in [0, CR, LF, QUOTE]
            || (w[e] == BACKSLASH && (e + 1 == |w| || w[e + 1] !in [QUOTE, BACKSLASH]))
    decreases |w| - i
  {
    units := [];
    if i < |w| {
      var u := if w[i] == BACKSLASH && i + 1 < |w| then Unit(true, w[i + 1]) else Unit(false, w[i]);
      if UnitFits(u) {
        var n := |Written(u)|;
        var more := UnitsShape(w, i + n);
        units := [u] + more;
        RawAhead(w, i, u, more);
      }
    }
  }

  lemma RawAhead(w: seq<Byte>, i: nat, u: Unit, more: seq<Unit>)
    requires i + |Written(u)| <= |w| && w[i] == Written(u)[0] && (u.escaped ==> w[i + 1] == u.c)
    requires Has(w, i + |Written(u)|, Raw(more))
    ensures Has(w, i, Raw([u] + more)) && Raw([u] + more) == Written(u) + Raw(more)
  {
    HasAhead(w, i, Written(u), Raw(more));
    assert ([u] + more)[1..] == more;
  }

  lemma HasAhead(w: seq<Byte>, i: nat, a: seq<Byte>, b: seq<Byte>)
    requires i + |a| <= |w| && (forall k | 0 <= k < |a| :: w[i + k] == a[k]) && Has(w, i + |a|, b)
    ensures Has(w, i, a + b)
  {
    assert w[i..i + |a|] == a;
    assert w[i..i + |a + b|] == w[i..i + |a|] + w[i + |a|..i + |a| + |b|];
  }

  lemma {:induction false} DigitsRun(w: seq<Byte>, i: nat, n: nat, digits: seq<Byte>)
    requires Has(w, i, digits) && (forall k | 0 <= k < |digits| :: IsDigit(digits[k])) && Number(n, digits) < SIZE_LIMIT
    ensures HeaderEnd(w, i, n, false) == HeaderEnd(w, i + |digits|, Number(n, digits), false)
    decreases |digits|
  {
    if digits != [] {
      HasByte(w, i, digits, 0);
      assert digits == digits[..1] + digits[1..];
      HasParts(w, i, digits[..1], digits[1..]);
      DigitsRun(w, i + 1, n * 10 + DigitValue(digits[0]), digits[1..]);
    }
  }

  lemma {:induction false} NumberGrows(n: nat, digits: seq<Byte>, c: Byte)
    requires (forall k | 0 <= k < |digits| :: IsDigit(digits[k])) && IsDigit(c)
    ensures Number(n, digits + [c]) == Number(n, digits) * 10 + DigitValue(c)
    decreases |digits|
  {
    if digits == [] {
      assert digits + [c] == [c] && [c][1..] == [];
    } else {
      assert (digits + [c])[1..] == digits[1..] + [c];
      NumberGrows(n * 10 + DigitValue(digits[0]), digits[1..], c);
    }
  }

  lemma {:induction false} DigitsShape(w: seq<Byte>, i: nat, n: nat) returns (digits: seq<Byte>)
    requires i <= |w| && n < SIZE_LIMIT
    ensures (forall k | 0 <= k < |digits| :: IsDigit(digits[k])) && Has(w, i, digits) && Number(n, digits) < SIZE_LIMIT
    ensures var e := i + |digits|;
            e < |w| && IsDigit(w[e]) ==> Number(n, digits) * 10 + DigitValue(w[e]) >= SIZE_LIMIT
    decreases |w| - i
  {
    digits := [];
    if i < |w| && IsDigit(w[i]) && n * 10 + DigitValue(w[i]) < SIZE_LIMIT {
      var more := DigitsShape(w, i + 1, n * 10 + DigitValue(w[i]));
      digits := [w[i]] + more;
      HasAhead(w, i, [w[i]], more);
      assert digits[1..] == more;
    }
  }
}
