// Quoting a value for the ManageSieve protocol (src/lib-managesieve/managesieve-quote.c).
module Quote {
  import opened Bytes
  import opened ManageSieve
  import opened Numerals

  // The UTF-8 functions of the base library: the check, and the valid part of other data.
  datatype Utf8 = Utf8(valid: seq<Byte> -> bool, sanitized: seq<Byte> -> seq<Byte>)

  predicate IsLwsp(c: Byte) { c == SPACE || c == TAB }

  // ----- What the first loop counts -----

  predicate HasLinebreak(v: seq<Byte>) { exists i | 0 <= i < |v| :: IsLinebreak(v[i]) }

  function Escapes(v: seq<Byte>): nat
  {
    if v == [] then 0 else (if IsQuotedSpecial(v[0]) then 1 else 0) + Escapes(v[1..])
  }

  // White space behind white space, a line break or the start of the value; `last` is whether such
  // is in front of `v`.
  function Surplus(v: seq<Byte>, last: bool): nat
  {
    if v == [] then 0
    else (if IsLwsp(v[0]) && last then 1 else 0) + Surplus(v[1..], IsLwsp(v[0]) || IsLinebreak(v[0]))
  }

  // ----- What is written -----

  // The bytes written for one byte of the value.
  function CopyByte(c: Byte, last: bool, compress: bool, literal: bool): seq<Byte>
  {
    if IsQuotedSpecial(c) && !literal then [BACKSLASH, c]
    else if IsLwsp(c) then (if last && compress then [] else [SPACE])
    else [c]
  }

  function Copy(v: seq<Byte>, last: bool, compress: bool, literal: bool): seq<Byte>
  {
    if v == [] then []
    else
      CopyByte(v[0], last, compress, literal) + Copy(v[1..], IsLwsp(v[0]) || IsLinebreak(v[0]), compress, literal)
  }

  function Dropped(v: seq<Byte>, compress: bool): nat
  {
    if compress then Surplus(v, true) else 0
  }

  // The value as is when nothing must change, and the copy otherwise.
  function Payload(v: seq<Byte>, compress: bool): seq<Byte>
  {
    if Dropped(v, compress) == 0 && (HasLinebreak(v) || Escapes(v) == 0) then v
    else Copy(v, true, compress, HasLinebreak(v))
  }

  function Sanitized(utf8: Utf8, s: seq<Byte>): seq<Byte>
  {
    if utf8.valid(s) then s else utf8.sanitized(s)
  }

  function Header(n: nat): seq<Byte>
  {
    [LBRACE] + Decimal(n) + [RBRACE, CR, LF]
  }

  function Quoted(utf8: Utf8, v: seq<Byte>, compress: bool): seq<Byte>
  {
    var text := Sanitized(utf8, Payload(v, compress));
    if HasLinebreak(v) then Header(if Dropped(v, compress) <= |v| then |v| - Dropped(v, compress) else 0) + text
    else [QUOTE] + text + [QUOTE]
  }

  // ----- The quoter -----

  method QuoteAppend(utf8: Utf8, str: seq<Byte>, value: seq<Byte>, compress: bool) returns (r: seq<Byte>)
    ensures r == str + Quoted(utf8, value, compress)
  {
    hide Copy, Surplus, Escapes, HasLinebreak, Header, Sanitized;
    var extra, escape, literal := Count(value, compress);
    SurplusFits(value, true);
    var header := if literal then Header(|value| - extra) else [QUOTE];
    r := str + header;
    var tmp;
    if extra == 0 && (literal || escape == 0) {
      tmp := value;
    } else {
      tmp := CopyValue(value, compress, literal);
    }
    assert tmp == Payload(value, compress);
    hide Payload;
    Assoc(str, header, Sanitized(utf8, tmp));
    r := r + Sanitized(utf8, tmp);
    if !literal {
      Assoc(str, header + Sanitized(utf8, tmp), [QUOTE]);
      r := r + [QUOTE];
    }
  }

  method Count(value: seq<Byte>, compress: bool) returns (extra: nat, escape: nat, literal: bool)
    ensures extra == Dropped(value, compress) && escape == Escapes(value) && literal == HasLinebreak(value)
  {
    var last := true;
    extra, escape, literal := 0, 0, false;
    for i := 0 to |value|
      invariant Escapes(value) == escape + Escapes(value[i..])
      invariant compress ==> Surplus(value, true) == extra + Surplus(value[i..], last)
      invariant !compress ==> extra == 0
      invariant literal <==> exists j | 0 <= j < i :: IsLinebreak(value[j])
    {
      var c := value[i];
      assert value[i..][0] == c && value[i..][1..] == value[i + 1..];
      if IsLwsp(c) {
        if last && compress { extra := extra + 1; }
        last := true;
      } else if IsQuotedSpecial(c) {
        escape := escape + 1;
        last := false;
      } else if IsLinebreak(c) {
        literal := true;
        last := true;
      } else {
        last := false;
      }
    }
  }

  method CopyValue(value: seq<Byte>, compress: bool, literal: bool) returns (tmp: seq<Byte>)
    ensures tmp == Copy(value, true, compress, literal)
  {
    var last := true;
    tmp := [];
    for i := 0 to |value|
      invariant Copy(value, true, compress, literal) == tmp + Copy(value[i..], last, compress, literal)
    {
      var c := value[i];
      assert value[i..][0] == c && value[i..][1..] == value[i + 1..];
      Assoc(tmp, CopyByte(c, last, compress, literal),
            Copy(value[i + 1..], IsLwsp(c) || IsLinebreak(c), compress, literal));
      if IsQuotedSpecial(c) {
        last := false;
        if !literal { tmp := tmp + [BACKSLASH, c]; } else { tmp := tmp + [c]; }
      } else if IsLwsp(c) {
        if !last || !compress { tmp := tmp + [SPACE]; }
        last := true;
      } else if IsLinebreak(c) {
        last := true;
        tmp := tmp + [c];
      } else {
        last := false;
        tmp := tmp + [c];
      }
    }
  }

  lemma {:induction false} SurplusFits(v: seq<Byte>, last: bool)
    ensures Surplus(v, last) <= |v|
    decreases |v|
  {
    if v != [] { SurplusFits(v[1..], IsLwsp(v[0]) || IsLinebreak(v[0])); }
  }

  // ----- The announced length -----

  lemma {:induction false} CopyLength(v: seq<Byte>, last: bool, compress: bool)
    ensures |Copy(v, last, compress, true)| + (if compress then Surplus(v, last) else 0) == |v|
    decreases |v|
  {
    if v != [] { CopyLength(v[1..], IsLwsp(v[0]) || IsLinebreak(v[0]), compress); }
  }

  // The length a literal announces is the length of its payload, exactly when cleaning up invalid
  // UTF-8 does not change that length.
  lemma LiteralLength(utf8: Utf8, v: seq<Byte>, compress: bool)
    requires HasLinebreak(v)
    ensures var n := |v| - Dropped(v, compress); var payload := Payload(v, compress);
            n == |payload| && Quoted(utf8, v, compress) == Header(n) + Sanitized(utf8, payload)
            && (n == |Sanitized(utf8, payload)| <==> utf8.valid(payload) || |utf8.sanitized(payload)| == |payload|)
  {
    SurplusFits(v, true);
    CopyLength(v, true, compress);
  }
}
