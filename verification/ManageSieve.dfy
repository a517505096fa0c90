// The argument parser of the ManageSieve protocol (section 4 of RFC 5804), which goes on where it
// stopped when more input has arrived (src/lib-managesieve/managesieve-parser.c).
module ManageSieve {
  import opened Bytes

  const SPACE: Byte := 32
  const PLUS: Byte := 43
  const LBRACE: Byte := 123
  const RBRACE: Byte := 125

  predicate IsLinebreak(c: Byte) { c == CR || c == LF }

  predicate IsQuotedSpecial(c: Byte) { c == QUOTE || c == BACKSLASH }

  predicate IsAtomChar(c: Byte)
  {
    !(c == 40 || c == 41 || c == LBRACE || c <= 32 || c >= 0x7f || IsQuotedSpecial(c))
  }

  // A byte of a quoted string that needs no escape.
  predicate IsSafe(c: Byte)
  {
    c >= 0x80 || !(IsLinebreak(c) || IsQuotedSpecial(c))
  }

  // `len` is the announced length; the text itself ends at a NUL.
  datatype Arg =
    | Atom(text: seq<Byte>)
    | String(text: seq<Byte>, len: nat)
    | Literal(text: seq<Byte>, len: nat)
    | Nil
    | Eol

  datatype Kind = Idle | InAtom | InString | InLiteral | InLiteralData

  // `consumed` is the offset in the input stream, and the line size of the source; `pos` is the
  // position behind it.
  datatype State = State(consumed: nat, pos: nat, kind: Kind, escape: int, literalSize: nat, skipCrlf: bool,
                         nonsync: bool, eol: bool, error: bool, args: seq<Arg>)

  const RESET := State(0, 0, Idle, 0, 0, false, false, false, false, [])

  // What the caller chooses: the number of arguments (0: all of the line), the longest line, two of
  // the flags; and the UTF-8 check of the base library. `loose` is not of the parser: with it, any
  // number of CRs may stand in front of the LF behind a literal header.
  datatype Config = Config(count: nat, maxLine: nat, noUnescape: bool, literalType: bool, utf8: seq<Byte> -> bool,
                           loose: bool)

  // ----- Text of arguments -----

  function UpToNul(s: seq<Byte>): seq<Byte>
  {
    if s == [] || s[0] == 0 then [] else [s[0]] + UpToNul(s[1..])
  }

  function Unescape(s: seq<Byte>): seq<Byte>
    decreases |s|
  {
    if s == [] then []
    else if s[0] == BACKSLASH && |s| > 1 then [s[1]] + Unescape(s[2..])
    else [s[0]] + Unescape(s[1..])
  }

  function StringArg(cfg: Config, text: seq<Byte>, escape: int): Arg
  {
    var s := if escape >= 0 && !cfg.noUnescape then Unescape(text) else text;
    String(s, |s|)
  }

  function LiteralArg(cfg: Config, text: seq<Byte>): Arg
  {
    if cfg.literalType then Literal(UpToNul(text), |text|) else String(UpToNul(text), |text|)
  }

  // ----- Scanning one argument in the unread input `w` -----

  function SkipSpaces(w: seq<Byte>, i: nat): (r: nat)
    requires i <= |w|
    ensures i <= r <= |w| && (r < |w| ==> w[r] != SPACE)
    decreases |w| - i
  {
    if i < |w| && w[i] == SPACE then SkipSpaces(w, i + 1) else i
  }

  // `Found` where the argument ends, `Bad` at a byte it cannot hold, `More` when the input ends first.
  datatype Scan = Found(at: nat) | Bad | More(at: nat)

  predicate EndsAtom(c: Byte) { c == SPACE || c == 41 || IsLinebreak(c) }

  function AtomEnd(w: seq<Byte>, i: nat): (r: Scan)
    requires i <= |w|
    ensures r.Found? ==> i <= r.at < |w|
    ensures r.More? ==> r.at == |w|
    decreases |w| - i
  {
    if i == |w| then More(i)
    else if EndsAtom(w[i]) then Found(i)
    else if !IsAtomChar(w[i]) then Bad
    else AtomEnd(w, i + 1)
  }

  // The closing quote, and where the first escape is (-1: none).
  function StringEnd(w: seq<Byte>, i: nat, escape: int): (r: (Scan, int))
    requires i <= |w|
    ensures r.0.Found? ==> i <= r.0.at < |w|
    ensures r.0.More? ==> i <= r.0.at <= |w|
    decreases |w| - i
  {
    if i == |w| then (More(i), escape)
    else if w[i] == QUOTE then (Found(i), escape)
    else if w[i] == 0 then (Bad, escape)
    else if w[i] == BACKSLASH then
      if i + 1 == |w| then (More(i), escape)
      else if !IsQuotedSpecial(w[i + 1]) then (Bad, escape)
      else StringEnd(w, i + 2, if escape < 0 then i else escape)
    else if !IsSafe(w[i]) then (Bad, escape)
    else StringEnd(w, i + 1, escape)
  }

  const SIZE_LIMIT := 0x1_0000_0000_0000_0000

  function Digit(c: int): int { c - 48 }

  // The closing brace of a literal header, the size in front of it and whether a '+' was seen.
  function HeaderEnd(w: seq<Byte>, i: nat, size: nat, nonsync: bool): (r: (Scan, nat, bool))
    requires i <= |w|
    ensures r.0.Found? ==> i <= r.0.at < |w|
    ensures r.0.More? ==> r.0.at == |w|
    decreases |w| - i
  {
    if i == |w| then (More(i), size, nonsync)
    else if w[i] == RBRACE then (Found(i), size, nonsync)
    else if nonsync then (Bad, size, nonsync)
    else if w[i] == PLUS then HeaderEnd(w, i + 1, size, true)
    else if !(48 <= w[i] <= 57) || size * 10 + Digit(w[i]) >= SIZE_LIMIT then (Bad, size, nonsync)
    else HeaderEnd(w, i + 1, size * 10 + Digit(w[i]), nonsync)
  }

  // ----- One step of the parser on the input `data` delivered so far -----

  predicate Within(data: seq<Byte>, s: State)
  {
    && s.consumed + s.pos <= |data|
    && (s.kind == InLiteralData ==> s.pos == 0)
    && (s.kind == InString || s.kind == InAtom || s.kind == InLiteral ==> s.pos >= 1)
  }

  // What one step keeps, and that a completed argument brings the parser on.
  predicate Steps(data: seq<Byte>, s: State, done: bool, t: State)
  {
    && t.consumed + t.pos <= |data|
    && (Within(data, t) || t.error)
    && (done ==> t.kind == Idle && !t.error && Left(data, t) < Left(data, s))
    && (!done ==> t.args == s.args)
  }

  // What is left to do: the input, and the argument under way.
  function Left(data: seq<Byte>, s: State): int
  {
    |data| - s.consumed - s.pos + if s.kind == Idle then 0 else 1
  }

  function Save(s: State, pos: nat, arg: Arg): State
  {
    s.(pos := pos, kind := Idle, args := s.args + [arg])
  }

  function ReadAtom(data: seq<Byte>, s: State): (r: (bool, State))
    requires Within(data, s) && !s.error && s.kind == InAtom
    ensures Steps(data, s, r.0, r.1)
  {
    var w := data[s.consumed..];
    match AtomEnd(w, s.pos)
    case Bad => (false, s.(error := true))
    case More(i) => (false, s.(pos := i))
    case Found(i) => (true, Save(s, i, Atom(w[..i])))
  }

  function ReadString(cfg: Config, data: seq<Byte>, s: State): (r: (bool, State))
    requires Within(data, s) && !s.error && s.kind == InString
    ensures Steps(data, s, r.0, r.1)
  {
    var w := data[s.consumed..];
    var r := StringEnd(w, s.pos, s.escape);
    match r.0
    case Bad => (false, s.(error := true))
    case More(i) => (false, s.(pos := i, escape := r.1))
    case Found(i) =>
      if !cfg.utf8(w[1..i]) then (false, s.(error := true))
      else (true, Save(s.(escape := r.1), i + 1, StringArg(cfg, w[1..i], r.1)))
  }

  // The CRs a line break begins with: at most one, unless the reader is loose.
  function Crs(w: seq<Byte>, loose: bool): (k: nat)
    ensures k <= |w|
  {
    if w == [] || w[0] != CR then 0 else if loose then 1 + Crs(w[1..], loose) else 1
  }

  // The line break behind a literal header, if it is still due: how long it is.
  function Linebreak(w: seq<Byte>, due: bool, loose: bool): (r: Scan)
    ensures r.Found? ==> r.at <= |w|
    ensures r.More? ==> r.at == |w|
  {
    if !due then Found(0)
    else
      var k := Crs(w, loose);
      if k == |w| then More(k) else if w[k] == LF then Found(k + 1) else Bad
  }

  function ReadData(cfg: Config, data: seq<Byte>, s: State): (r: (bool, State))
    requires Within(data, s) && !s.error && s.kind == InLiteralData
    ensures Steps(data, s, r.0, r.1)
  {
    var v := data[s.consumed..];
    match Linebreak(v, s.skipCrlf, cfg.loose)
    case Bad => (false, s.(error := true, consumed := s.consumed + Crs(v, cfg.loose)))
    case More(i) => (false, s.(consumed := s.consumed + i))
    case Found(i) =>
      var t := s.(consumed := s.consumed + i, skipCrlf := false);
      var w := data[t.consumed..];
      if |w| < s.literalSize then (false, t)
      else if !cfg.utf8(w[..s.literalSize]) then (false, t.(error := true))
      else (true, Save(t, s.literalSize, LiteralArg(cfg, w[..s.literalSize])))
  }

  // The header is complete: does the literal fit the line?
  function ReadSized(cfg: Config, data: seq<Byte>, s: State): (r: (bool, State))
    requires s.consumed <= |data| && !s.error && s.kind == InLiteral && s.pos == 0
    ensures Steps(data, s, r.0, r.1)
  {
    if s.consumed >= cfg.maxLine || s.literalSize > cfg.maxLine - s.consumed then (false, s.(error := true))
    else ReadData(cfg, data, s.(kind := InLiteralData, skipCrlf := true))
  }

  function ReadLiteral(cfg: Config, data: seq<Byte>, s: State): (r: (bool, State))
    requires Within(data, s) && !s.error && s.kind == InLiteral
    ensures Steps(data, s, r.0, r.1)
  {
    var w := data[s.consumed..];
    var r := HeaderEnd(w, s.pos, s.literalSize, s.nonsync);
    match r.0
    case Bad => (false, s.(error := true))
    case More(i) => (false, s.(pos := i, literalSize := r.1, nonsync := r.2))
    case Found(i) =>
      ReadSized(cfg, data, s.(consumed := s.consumed + i + 1, pos := 0, literalSize := r.1, nonsync := r.2))
  }

  function GoOn(cfg: Config, data: seq<Byte>, s: State): (r: (bool, State))
    requires Within(data, s) && !s.error && s.kind != Idle
    ensures Steps(data, s, r.0, r.1)
  {
    match s.kind
    case InAtom => ReadAtom(data, s)
    case InString => ReadString(cfg, data, s)
    case InLiteral => ReadLiteral(cfg, data, s)
    case InLiteralData => ReadData(cfg, data, s)
  }

  // Between two arguments: what the next byte begins.
  function Begin(data: seq<Byte>, s: State): (t: State)
    requires Within(data, s) && s.kind == Idle
    ensures Within(data, t) && t.args == s.args
            && (t.kind != Idle ==> t.error == s.error && Left(data, t) <= Left(data, s))
  {
    var w := data[s.consumed..];
    var i := SkipSpaces(w, s.pos);
    var t := s.(consumed := s.consumed + i, pos := 0);
    if i == |w| then t else BeginWith(t, w[i])
  }

  function BeginWith(s: State, c: Byte): State
  {
    if IsLinebreak(c) then s.(eol := true)
    else if c == QUOTE then s.(kind := InString, escape := -1, pos := 1)
    else if c == LBRACE then s.(kind := InLiteral, literalSize := 0, nonsync := false, pos := 1)
    else if !IsAtomChar(c) then s.(error := true)
    else s.(kind := InAtom, pos := 1)
  }

  // Whether an argument was completed, and the state then.
  function ReadArg(cfg: Config, data: seq<Byte>, s: State): (r: (bool, State))
    requires Within(data, s) && !s.error
    ensures Steps(data, s, r.0, r.1)
  {
    if s.consumed == |data| then (false, s)
    else if s.kind != Idle then GoOn(cfg, data, s)
    else
      var t := Begin(data, s);
      if t.kind == Idle then (false, t) else GoOn(cfg, data, t)
  }

  datatype Outcome = Accepted | NeedMore | Failed

  function Padding(n: nat): seq<Arg>
  {
    if n == 0 then [] else [Nil] + Padding(n - 1)
  }

  function FinishLine(cfg: Config, s: State): State
  {
    var missing := if cfg.count > |s.args| then cfg.count - |s.args| else 0;
    s.(consumed := s.consumed + s.pos, pos := 0, args := s.args + Padding(missing) + [Eol])
  }

  function Conclude(cfg: Config, s: State): (Outcome, State)
  {
    if s.error then (Failed, s.(consumed := s.consumed + s.pos, pos := 0))
    else if (s.kind == Idle && cfg.count > 0 && |s.args| >= cfg.count) || s.eol then (Accepted, FinishLine(cfg, s))
    else (NeedMore, s)
  }

  predicate Wants(cfg: Config, s: State)
  {
    !s.eol && (cfg.count == 0 || s.kind != Idle || |s.args| < cfg.count)
  }

  // managesieve_parser_read_args
  function ReadArgs(cfg: Config, data: seq<Byte>, s: State): (r: (Outcome, State))
    requires Within(data, s) && !s.error
    ensures r.0.NeedMore? ==> Within(data, r.1) && !r.1.error
    decreases Left(data, s)
  {
    if !Wants(cfg, s) then Conclude(cfg, s)
    else
      var r := ReadArg(cfg, data, s);
      if !r.0 then Conclude(cfg, r.1)
      else if r.1.consumed > cfg.maxLine then Conclude(cfg, r.1.(error := true))
      else ReadArgs(cfg, data, r.1)
  }

  // ----- The parser -----

  // The input stream: what has been delivered so far, and the offset of what was not yet skipped.
  class InputStream {
    var delivered: seq<Byte>
    var offset: nat

    constructor ()
      ensures delivered == [] && offset == 0
    {
      delivered, offset := [], 0;
    }

    ghost predicate Valid()
      reads this
    {
      offset <= |delivered|
    }

    function Data(): seq<Byte>
      requires Valid()
      reads this
    {
      delivered[offset..]
    }

    method Deliver(bytes: seq<Byte>)
      requires Valid()
      modifies this`delivered
      ensures Valid() && delivered == old(delivered) + bytes
    {
      delivered := delivered + bytes;
    }

    method Skip(n: nat)
      requires offset + n <= |delivered|
      modifies this`offset
      ensures Valid() && offset == old(offset) + n
    {
      offset := offset + n;
    }
  }

  // The loops over the unread input.
  method ScanAtom(data: seq<Byte>, start: nat) returns (r: Scan)
    requires start <= |data|
    ensures r == AtomEnd(data, start)
  {
    var i := start;
    while i < |data|
      invariant start <= i <= |data| && AtomEnd(data, start) == AtomEnd(data, i)
    {
      if EndsAtom(data[i]) { return Found(i); }
      if !IsAtomChar(data[i]) { return Bad; }
      i := i + 1;
    }
    r := More(i);
  }

  method ScanString(data: seq<Byte>, start: nat, first: int) returns (r: Scan, escape: int)
    requires start <= |data|
    ensures (r, escape) == StringEnd(data, start, first)
  {
    var i := start;
    escape := first;
    while i < |data|
      invariant start <= i <= |data| && StringEnd(data, start, first) == StringEnd(data, i, escape)
    {
      if data[i] == QUOTE { return Found(i), escape; }
      if data[i] == 0 { return Bad, escape; }
      if data[i] == BACKSLASH {
        if i + 1 == |data| { return More(i), escape; }
        if !IsQuotedSpecial(data[i + 1]) { return Bad, escape; }
        if escape < 0 { escape := i; }
        i := i + 1;
      } else if !IsSafe(data[i]) {
        return Bad, escape;
      }
      i := i + 1;
    }
    r := More(i);
  }

  method ScanHeader(data: seq<Byte>, start: nat, size: nat, plus: bool)
    returns (r: Scan, literalSize: nat, nonsync: bool)
    requires start <= |data|
    ensures (r, literalSize, nonsync) == HeaderEnd(data, start, size, plus)
  {
    var i := start;
    literalSize, nonsync := size, plus;
    while i < |data|
      invariant start <= i <= |data| && HeaderEnd(data, start, size, plus) == HeaderEnd(data, i, literalSize, nonsync)
    {
      if data[i] == RBRACE { return Found(i), literalSize, nonsync; }
      if nonsync { return Bad, literalSize, nonsync; }
      if data[i] == PLUS {
        nonsync := true;
      } else {
        if !(48 <= data[i] <= 57) { return Bad, literalSize, nonsync; }
        var digit := Digit(data[i]);
        // No 64-bit size is this large.
        if literalSize >= (SIZE_LIMIT - 1) / 10
          && (literalSize > (SIZE_LIMIT - 1) / 10 || digit > (SIZE_LIMIT - 1) % 10) {
          return Bad, literalSize, nonsync;
        }
        literalSize := literalSize * 10 + digit;
      }
      i := i + 1;
    }
    r := More(i);
  }

  class ArgParser {
    const input: InputStream
    const cfg: Config
    var lineSize: nat
    var kind: Kind
    var pos: nat
    var escape: int
    var literalSize: nat
    var skipCrlf: bool
    var nonsync: bool
    var eol: bool
    var error: bool
    var args: seq<Arg>

    constructor (input: InputStream, cfg: Config)
      requires input.Valid() && input.offset == 0 && !cfg.loose
      ensures this.input == input && this.cfg == cfg
      ensures Valid() && Registers() == RESET
    {
      this.input, this.cfg := input, cfg;
      lineSize, kind, pos, escape, literalSize := 0, Idle, 0, 0, 0;
      skipCrlf, nonsync, eol, error, args := false, false, false, false, [];
    }

    ghost function Registers(): State
      reads this, input
    {
      State(input.offset, pos, kind, escape, literalSize, skipCrlf, nonsync, eol, error, args)
    }

    // The line is as long as what was skipped.
    ghost predicate Valid()
      reads this, input
    {
      input.Valid() && lineSize == input.offset && !cfg.loose
    }

    method SkipInput(n: nat)
      requires Valid() && input.offset + n <= |input.delivered|
      modifies this`lineSize, input`offset
      ensures Valid() && Registers() == old(Registers()).(consumed := old(input.offset) + n)
    {
      lineSize := lineSize + n;
      input.Skip(n);
    }

    method SkipToNext() returns (any: bool)
      requires Valid() && Within(input.delivered, Registers()) && kind == Idle
      modifies this, input`offset
      ensures Valid() && any == (input.offset < |input.delivered|)
      ensures Registers()
              == old(Registers()).(consumed := old(input.offset) + SkipSpaces(old(input.Data()), old(pos)), pos := 0)
    {
      var data := input.Data();
      var i := pos;
      while i < |data| && data[i] == SPACE
        invariant pos <= i <= |data| && SkipSpaces(data, pos) == SkipSpaces(data, i)
      {
        i := i + 1;
      }
      SkipInput(i);
      pos := 0;
      any := input.offset < |input.delivered|;
    }

    method ReadAtomText() returns (done: bool)
      requires Valid() && Within(input.delivered, Registers()) && kind == InAtom && !error
      modifies this
      ensures Valid() && (done, Registers()) == ReadAtom(input.delivered, old(Registers()))
    {
      hide AtomEnd;
      var data := input.Data();
      var r := ScanAtom(data, pos);
      match r {
        case Bad => error, done := true, false;
        case More(i) => pos, done := i, false;
        case Found(i) => args, kind, pos, done := args + [Atom(data[..i])], Idle, i, true;
      }
    }

    method ReadStringText() returns (done: bool)
      requires Valid() && Within(input.delivered, Registers()) && kind == InString && !error
      modifies this
      ensures Valid() && (done, Registers()) == ReadString(cfg, input.delivered, old(Registers()))
    {
      hide StringEnd;
      var data := input.Data();
      var r, firstEscape := ScanString(data, pos, escape);
      match r {
        case Bad => error, done := true, false;
        case More(i) => pos, escape, done := i, firstEscape, false;
        case Found(i) =>
          if !cfg.utf8(data[1..i]) {
            error := true;
            return false;
          }
          args, kind := args + [StringArg(cfg, data[1..i], firstEscape)], Idle;
          pos, escape, done := i + 1, firstEscape, true;
      }
    }

    // The line break behind a literal header.
    method SkipLinebreak() returns (done: bool)
      requires Valid() && !error
      modifies this, input`offset
      ensures Valid()
      ensures var r := Linebreak(old(input.Data()), old(skipCrlf), false); var s := old(Registers());
              done == r.Found? && Registers()
              == match r
                 case Found(i) => s.(consumed := s.consumed + i, skipCrlf := false)
                 case More(i) => s.(consumed := s.consumed + i)
                 case Bad => s.(error := true, consumed := s.consumed + Crs(old(input.Data()), false))
    {
      if !skipCrlf { return true; }
      var n := |input.delivered| - input.offset;
      if n == 0 { return false; }
      var skip := 0;
      if input.Data()[0] == CR {
        if n == 1 {
          SkipInput(1);
          return false;
        }
        skip := 1;
      }
      if input.Data()[skip] != LF {
        SkipInput(skip);
        error := true;
        return false;
      }
      SkipInput(skip + 1);
      skipCrlf := false;
      done := true;
    }

    method ReadLiteralData() returns (done: bool)
      requires Valid() && Within(input.delivered, Registers()) && kind == InLiteralData && !error
      modifies this, input`offset
      ensures Valid() && (done, Registers()) == ReadData(cfg, input.delivered, old(Registers()))
    {
      hide Linebreak, Crs;
      done := SkipLinebreak();
      if !done { return; }
      var data := input.Data();
      if |data| < literalSize { return false; }
      if !cfg.utf8(data[..literalSize]) {
        error := true;
        return false;
      }
      args, kind := args + [LiteralArg(cfg, data[..literalSize])], Idle;
      pos := literalSize;
    }

    // Whether the header is complete and the literal fits the line.
    method ReadLiteralHeader() returns (done: bool)
      requires Valid() && Within(input.delivered, Registers()) && kind == InLiteral && !error
      modifies this, input`offset
      ensures Valid() && (done ==> kind == InLiteralData && Within(input.delivered, Registers()) && !error)
      ensures ReadLiteral(cfg, input.delivered, old(Registers()))
              == if done then ReadData(cfg, input.delivered, Registers()) else (false, Registers())
    {
      hide ReadData, HeaderEnd, Steps;
      var r, size, plus := ScanHeader(input.Data(), pos, literalSize, nonsync);
      match r {
        case Bad => error, done := true, false;
        case More(i) => pos, literalSize, nonsync, done := i, size, plus, false;
        case Found(i) =>
          SkipHeader(i + 1, size, plus);
          done := LiteralEnd();
      }
    }

    method SkipHeader(n: nat, size: nat, plus: bool)
      requires Valid() && input.offset + n <= |input.delivered|
      modifies this, input`offset
      ensures Valid() && Registers()
              == old(Registers()).(consumed := old(input.offset) + n, pos := 0, literalSize := size, nonsync := plus)
    {
      literalSize, nonsync := size, plus;
      SkipInput(n);
      pos := 0;
    }

    method LiteralEnd() returns (done: bool)
      requires Valid() && !error
      modifies this
      ensures Valid() && done == (lineSize < cfg.maxLine && lineSize + literalSize <= cfg.maxLine)
      ensures Registers() == if done then old(Registers()).(kind := InLiteralData, skipCrlf := true, pos := 0)
                             else old(Registers()).(error := true)
    {
      if lineSize >= cfg.maxLine || literalSize > cfg.maxLine - lineSize {
        error := true;
        return false;
      }
      kind, skipCrlf, pos := InLiteralData, true, 0;
      done := true;
    }

    method BeginArg()
      requires Valid() && Within(input.delivered, Registers()) && kind == Idle && !error
      modifies this, input`offset
      ensures Valid() && Registers() == Begin(input.delivered, old(Registers()))
    {
      var any := SkipToNext();
      if !any { return; }
      var c := input.delivered[input.offset];
      if IsLinebreak(c) {
        eol := true;
      } else if c == QUOTE {
        kind, escape, pos := InString, -1, 1;
      } else if c == LBRACE {
        kind, literalSize, nonsync, pos := InLiteral, 0, false, 1;
      } else if !IsAtomChar(c) {
        error := true;
      } else {
        kind, pos := InAtom, 1;
      }
    }

    method ReadOne() returns (done: bool)
      requires Valid() && Within(input.delivered, Registers()) && !error
      modifies this, input`offset
      ensures Valid() && (done, Registers()) == ReadArg(cfg, input.delivered, old(Registers()))
    {
      hide Begin, GoOn;
      if input.offset == |input.delivered| { return false; }
      if kind == Idle {
        BeginArg();
        if kind == Idle { return false; }
      }
      done := ReadRest();
    }

    method ReadRest() returns (done: bool)
      requires Valid() && Within(input.delivered, Registers()) && kind != Idle && !error
      modifies this, input`offset
      ensures Valid() && (done, Registers()) == GoOn(cfg, input.delivered, old(Registers()))
    {
      hide ReadAtom, ReadString, ReadLiteral, ReadData;
      match kind {
        case InAtom => done := ReadAtomText();
        case InString => done := ReadStringText();
        case InLiteral =>
          done := ReadLiteralHeader();
          if done { done := ReadLiteralData(); }
        case InLiteralData => done := ReadLiteralData();
      }
    }

    method FinishArgs()
      requires Valid() && Within(input.delivered, Registers())
      modifies this, input`offset
      ensures Valid() && Registers() == FinishLine(cfg, old(Registers()))
    {
      SkipInput(pos);
      pos := 0;
      ghost var before := args;
      ghost var added := 0;
      PaddingGrows(0);
      while cfg.count > |args|
        invariant args == before + Padding(added) && |args| == |before| + added && (added > 0 ==> |args| <= cfg.count)
        decreases cfg.count - |args|
        modifies this`args
      {
        PaddingGrows(added);
        PaddingGrows(added + 1);
        assert args + [Nil] == before + (Padding(added) + [Nil]);
        args := args + [Nil];
        added := added + 1;
      }
      args := args + [Eol];
    }

    method ReadArguments() returns (outcome: Outcome)
      requires Valid() && Within(input.delivered, Registers()) && !error
      modifies this, input`offset
      ensures Valid() && (outcome, Registers()) == ReadArgs(cfg, input.delivered, old(Registers()))
    {
      hide ReadArg, FinishLine;
      ghost var goal := ReadArgs(cfg, input.delivered, Registers());
      var going := true;
      while going && !eol && (cfg.count == 0 || kind != Idle || |args| < cfg.count)
        invariant Valid() && input.offset + pos <= |input.delivered| && (Within(input.delivered, Registers()) || error)
        invariant going ==> !error && goal == ReadArgs(cfg, input.delivered, Registers())
        invariant !going ==> goal == Conclude(cfg, Registers())
        decreases going, Left(input.delivered, Registers())
      {
        var done := ReadOne();
        if !done {
          going := false;
        } else if lineSize > cfg.maxLine {
          error := true;
          going := false;
        }
      }
      if error {
        SkipInput(pos);
        pos := 0;
        outcome := Failed;
      } else if (kind == Idle && cfg.count > 0 && |args| >= cfg.count) || eol {
        FinishArgs();
        outcome := Accepted;
      } else {
        outcome := NeedMore;
      }
    }
  }

  lemma {:induction false} PaddingGrows(n: nat)
    ensures Padding(n + 1) == Padding(n) + [Nil] && |Padding(n)| == n
  {
    if n > 0 { PaddingGrows(n - 1); }
  }
}
