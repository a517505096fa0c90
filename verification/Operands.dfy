// Operand coding of the core operations: tagged optional operands, numbers, strings and
// string lists that carry the address of their end (src/lib-sieve/sieve-code.c).
module Operands {
  import opened BinaryCode
  import opened Bytes

  // Operand codes of the binary.
  const OPERAND_OPTIONAL: Byte := 0
  const OPERAND_NUMBER: Byte := 1
  const OPERAND_STRING: Byte := 2
  const OPERAND_STRING_LIST: Byte := 3
  const OPERAND_COMPARATOR: Byte := 4
  const OPERAND_MATCH_TYPE: Byte := 5
  const OPERAND_ADDRESS_PART: Byte := 6

  // Codes of the optional operands that the core tests accept.
  const OPT_COMPARATOR := 1
  const OPT_MATCH_TYPE := 2
  const OPT_ADDRESS_PART := 3

  // Operation codes of the binary.
  const JMP: Byte := 1
  const JMPTRUE: Byte := 2
  const JMPFALSE: Byte := 3
  const STOP: Byte := 4
  const KEEP: Byte := 5
  const DISCARD: Byte := 6
  const REDIRECT: Byte := 7
  const ADDRESS: Byte := 8
  const HEADER: Byte := 9
  const EXISTS: Byte := 10
  const SIZE_OVER: Byte := 11
  const SIZE_UNDER: Byte := 12

  datatype Arg = Num(n: nat) | Str(s: seq<Byte>) | List(items: seq<seq<Byte>>)

  // An optional operand: its code and the comparator, match type or address part it names.
  datatype Tag = Tag(id: int, obj: Byte)

  // A command or test as it sits in the binary.
  datatype Op = Op(code: Byte, tags: seq<Tag>, args: seq<Arg>)

  datatype Kind = KNum | KStr | KList

  // What executing an operation reads: whether it looks for an optional block, the codes it
  // knows there, and the operands that follow.
  datatype Signature = Signature(optional: bool, known: set<int>, kinds: seq<Kind>)

  predicate IsAction(code: Byte) { KEEP <= code <= REDIRECT }
  predicate IsTest(code: Byte) { ADDRESS <= code <= SIZE_UNDER }

  function SignatureOf(code: Byte): Signature
    requires IsAction(code) || IsTest(code)
  {
    if code == KEEP then Signature(true, {}, [])
    else if code == DISCARD then Signature(false, {}, [])
    else if code == REDIRECT then Signature(true, {}, [KStr])
    else if code == ADDRESS then Signature(true, {OPT_COMPARATOR, OPT_MATCH_TYPE, OPT_ADDRESS_PART}, [KList, KList])
    else if code == HEADER then Signature(true, {OPT_COMPARATOR, OPT_MATCH_TYPE}, [KList, KList])
    else if code == EXISTS then Signature(true, {}, [KList])
    else Signature(false, {}, [KNum])
  }

  // The operand class each optional code must carry.
  function TagClass(id: int): Byte
  {
    if id == OPT_COMPARATOR then OPERAND_COMPARATOR
    else if id == OPT_MATCH_TYPE then OPERAND_MATCH_TYPE
    else OPERAND_ADDRESS_PART
  }

  // ----- Layout -----

  function TagBytes(tag: Tag): seq<Byte>
  {
    [tag.id % 256, TagClass(tag.id), tag.obj]
  }

  function TagsBytes(tags: seq<Tag>): seq<Byte>
  {
    if tags == [] then [] else TagBytes(tags[0]) + TagsBytes(tags[1..])
  }

  function OptionalBytes(tags: seq<Tag>): seq<Byte>
  {
    if tags == [] then [] else [OPERAND_OPTIONAL] + TagsBytes(tags) + [0]
  }

  function ItemBytes(s: seq<Byte>): seq<Byte>
  {
    [OPERAND_STRING] + StringBytes(s)
  }

  function ItemsBytes(items: seq<seq<Byte>>): seq<Byte>
  {
    if items == [] then [] else ItemBytes(items[0]) + ItemsBytes(items[1..])
  }

  function ListBody(items: seq<seq<Byte>>): seq<Byte>
  {
    IntegerBytes(|items|) + ItemsBytes(items)
  }

  // A list of one string is written as that string.
  function ArgBytes(arg: Arg): (r: seq<Byte>)
    ensures r != [] && r[0] != 0
  {
    match arg
    case Num(n) => [OPERAND_NUMBER] + IntegerBytes(n)
    case Str(s) => ItemBytes(s)
    case List(items) =>
      if |items| == 1 then ItemBytes(items[0])
      else [OPERAND_STRING_LIST] + (OffsetBytes(4 + |ListBody(items)|) + ListBody(items))
  }

  function ArgsBytes(args: seq<Arg>): seq<Byte>
  {
    if args == [] then [] else ArgBytes(args[0]) + ArgsBytes(args[1..])
  }

  function OpBytes(op: Op): (r: seq<Byte>)
    ensures r != [] && r[0] == op.code
  {
    [op.code] + (OptionalBytes(op.tags) + ArgsBytes(op.args))
  }

  predicate ArgFits(arg: Arg)
  {
    match arg
    case Num(n) => n < EMIT_LIMIT
    case Str(s) => |s| < OFFSET_LIMIT
    case List(items) =>
      && |items| < OFFSET_LIMIT && (forall s | s in items :: |s| < OFFSET_LIMIT)
      && (|items| != 1 ==> 4 + |ListBody(items)| < OFFSET_LIMIT)
  }

  predicate KindFits(arg: Arg, kind: Kind)
  {
    match kind
    case KNum => arg.Num?
    case KStr => arg.Str?
    case KList => arg.List?
  }

  predicate ArgsFit(args: seq<Arg>, kinds: seq<Kind>)
  {
    |args| == |kinds| && forall i | 0 <= i < |args| :: ArgFits(args[i]) && KindFits(args[i], kinds[i])
  }

  predicate TagsFit(tags: seq<Tag>, known: set<int>)
  {
    forall i | 0 <= i < |tags| :: tags[i].id in known && -128 <= tags[i].id < 128 && tags[i].id != 0
  }

  // What validation leaves of a core command or test.
  predicate OpFits(op: Op)
  {
    && (IsAction(op.code) || IsTest(op.code))
    && var sig := SignatureOf(op.code);
       TagsFit(op.tags, sig.known) && ArgsFit(op.args, sig.kinds)
  }

  // ----- Reading -----

  function Signed(b: int): int
  {
    if b < 128 then b else b - 256
  }

  function TagsAt(code: seq<Byte>, at: nat, known: set<int>): Read<seq<Tag>>
    decreases |code| - at
  {
    if at >= |code| then Corrupt
    else
      var id := Signed(code[at]);
      if id == 0 then Got([], at + 1)
      else if id !in known || at + 2 >= |code| || code[at + 1] != TagClass(id) then Corrupt
      else
        match TagsAt(code, at + 3, known)
        case Corrupt => Corrupt
        case Got(rest, next) => Got([Tag(id, code[at + 2])] + rest, next)
  }

  // The optional block is there exactly when the next byte is the optional marker.
  function OptionalAt(code: seq<Byte>, at: nat, known: set<int>): Read<seq<Tag>>
  {
    if at < |code| && code[at] == OPERAND_OPTIONAL then TagsAt(code, at + 1, known) else Got([], at)
  }

  function ItemAt(code: seq<Byte>, at: nat): Read<seq<Byte>>
  {
    if at < |code| && code[at] == OPERAND_STRING then StringAt(code, at + 1) else Corrupt
  }

  // The iterator over a string list: item after item, from the first.
  function ItemsAt(code: seq<Byte>, at: nat, count: nat): Read<seq<seq<Byte>>>
    decreases count
  {
    if count == 0 then Got([], at)
    else
      match ItemAt(code, at)
      case Corrupt => Corrupt
      case Got(s, next) =>
        match ItemsAt(code, next, count - 1)
        case Corrupt => Corrupt
        case Got(rest, end) => Got([s] + rest, end)
  }

  // Reading continues at the recorded end of the list, wherever its items stop.
  function ListAt(code: seq<Byte>, at: nat): Read<seq<seq<Byte>>>
  {
    match OffsetAt(code, at)
    case Corrupt => Corrupt
    case Got(offset, lengthAt) =>
      match UnsignedAt(code, lengthAt)
      case Corrupt => Corrupt
      case Got(count, start) =>
        if at + offset > |code| then Corrupt
        else
          match ItemsAt(code, start, count)
          case Corrupt => Corrupt
          case Got(items, _) => Got(items, at + offset)
  }

  // A string is accepted where a list is expected.
  function ArgAt(code: seq<Byte>, at: nat, kind: Kind): Read<Arg>
  {
    if at >= |code| then Corrupt
    else if kind == KNum && code[at] == OPERAND_NUMBER then
      match IntegerAt(code, at + 1)
      case Corrupt => Corrupt
      case Got(n, next) => Got(Num(n), next)
    else if kind != KNum && code[at] == OPERAND_STRING then
      match StringAt(code, at + 1)
      case Corrupt => Corrupt
      case Got(s, next) => Got(if kind == KStr then Str(s) else List([s]), next)
    else if kind == KList && code[at] == OPERAND_STRING_LIST then
      match ListAt(code, at + 1)
      case Corrupt => Corrupt
      case Got(items, next) => Got(List(items), next)
    else Corrupt
  }

  function ArgsAt(code: seq<Byte>, at: nat, kinds: seq<Kind>): Read<seq<Arg>>
    decreases |kinds|
  {
    if kinds == [] then Got([], at)
    else
      match ArgAt(code, at, kinds[0])
      case Corrupt => Corrupt
      case Got(arg, next) =>
        match ArgsAt(code, next, kinds[1..])
        case Corrupt => Corrupt
        case Got(rest, end) => Got([arg] + rest, end)
  }

  // The operands of the operation whose code precedes `at`.
  function OperandsAt(code: seq<Byte>, at: nat, op: Byte): Read<Op>
    requires IsAction(op) || IsTest(op)
  {
    var sig := SignatureOf(op);
    match (if sig.optional then OptionalAt(code, at, sig.known) else Got([], at))
    case Corrupt => Corrupt
    case Got(tags, next) =>
      match ArgsAt(code, next, sig.kinds)
      case Corrupt => Corrupt
      case Got(args, end) => Got(Op(op, tags, args), end)
  }

  // ----- Round trips -----

  lemma {:induction false} TagsRoundTrip(code: seq<Byte>, at: nat, tags: seq<Tag>, known: set<int>)
    requires TagsFit(tags, known) && Has(code, at, TagsBytes(tags) + [0])
    ensures TagsAt(code, at, known) == Got(tags, at + |TagsBytes(tags)| + 1)
    decreases |tags|
  {
    hide Has;
    if tags == [] {
      assert TagsBytes(tags) + [0] == [0];
      HasByte(code, at, [0], 0);
    } else {
      var head := TagBytes(tags[0]);
      assert TagsBytes(tags) + [0] == head + (TagsBytes(tags[1..]) + [0]);
      HasParts(code, at, head, TagsBytes(tags[1..]) + [0]);
      HasByte(code, at, head, 0);
      HasByte(code, at, head, 1);
      HasByte(code, at, head, 2);
      TagsRoundTrip(code, at + 3, tags[1..], known);
      assert tags == [tags[0]] + tags[1..];
    }
  }

  lemma ItemRoundTrip(code: seq<Byte>, at: nat, s: seq<Byte>)
    requires |s| < OFFSET_LIMIT && Has(code, at, ItemBytes(s))
    ensures ItemAt(code, at) == Got(s, at + |ItemBytes(s)|)
  {
    HasParts(code, at, [OPERAND_STRING], StringBytes(s));
    HasByte(code, at, [OPERAND_STRING], 0);
    StringRoundTrip(code, at + 1, s);
  }

  lemma {:induction false} ItemsRoundTrip(code: seq<Byte>, at: nat, items: seq<seq<Byte>>)
    requires (forall s | s in items :: |s| < OFFSET_LIMIT) && Has(code, at, ItemsBytes(items))
    ensures ItemsAt(code, at, |items|) == Got(items, at + |ItemsBytes(items)|)
    decreases |items|
  {
    hide Has, ItemBytes, ItemAt;
    if items != [] {
      HasParts(code, at, ItemBytes(items[0]), ItemsBytes(items[1..]));
      ItemRoundTrip(code, at, items[0]);
      ItemsRoundTrip(code, at + |ItemBytes(items[0])|, items[1..]);
      assert items == [items[0]] + items[1..];
    }
  }

  // A list reads back whole, and the address it skips to is the one after its last item.
  lemma ListRoundTrip(code: seq<Byte>, at: nat, items: seq<seq<Byte>>)
    requires ArgFits(List(items)) && |items| != 1
    requires Has(code, at, OffsetBytes(4 + |ListBody(items)|) + ListBody(items))
    ensures ListAt(code, at) == Got(items, at + 4 + |ListBody(items)|)
    ensures UnsignedAt(code, at + 4).Got?
    ensures ItemsAt(code, UnsignedAt(code, at + 4).next, |items|) == ListAt(code, at)
  {
    hide Has, ItemsBytes, IntegerBytes, ItemsAt, IntegerAt, OffsetBytes, OffsetAt;
    var offset := OffsetBytes(4 + |ListBody(items)|);
    HasParts(code, at, offset, ListBody(items));
    OffsetRoundTrip(code, at, 4 + |ListBody(items)|);
    HasParts(code, at + 4, IntegerBytes(|items|), ItemsBytes(items));
    IntegerRoundTrip(code, at + 4, |items|);
    ItemsRoundTrip(code, at + 4 + |IntegerBytes(|items|)|, items);
  }

  lemma ArgRoundTrip(code: seq<Byte>, at: nat, arg: Arg, kind: Kind)
    requires ArgFits(arg) && KindFits(arg, kind) && Has(code, at, ArgBytes(arg))
    ensures ArgAt(code, at, kind) == Got(arg, at + |ArgBytes(arg)|)
  {
    hide Has, ListBody, IntegerBytes, IntegerAt, OffsetBytes, ListAt, StringBytes, StringAt;
    HasByte(code, at, ArgBytes(arg), 0);
    match arg
    case Num(n) =>
      HasParts(code, at, [OPERAND_NUMBER], IntegerBytes(n));
      IntegerRoundTrip(code, at + 1, n);
    case Str(s) =>
      ItemRoundTrip(code, at, s);
    case List(items) =>
      if |items| == 1 {
        assert items == [items[0]];
        ItemRoundTrip(code, at, items[0]);
      } else {
        HasParts(code, at, [OPERAND_STRING_LIST], OffsetBytes(4 + |ListBody(items)|) + ListBody(items));
        ListRoundTrip(code, at + 1, items);
      }
  }

  lemma {:induction false} ArgsRoundTrip(code: seq<Byte>, at: nat, args: seq<Arg>, kinds: seq<Kind>)
    requires ArgsFit(args, kinds) && Has(code, at, ArgsBytes(args))
    ensures ArgsAt(code, at, kinds) == Got(args, at + |ArgsBytes(args)|)
    decreases |args|
  {
    hide Has, ArgBytes, ArgAt, ArgFits;
    if args != [] {
      HasParts(code, at, ArgBytes(args[0]), ArgsBytes(args[1..]));
      ArgRoundTrip(code, at, args[0], kinds[0]);
      ArgsRoundTrip(code, at + |ArgBytes(args[0])|, args[1..], kinds[1..]);
      assert args == [args[0]] + args[1..];
    }
  }

  // An operation that may carry an optional block but was written without any operand.
  predicate Bare(op: Op)
    requires IsAction(op.code) || IsTest(op.code)
  {
    SignatureOf(op.code).optional && op.tags == [] && op.args == []
  }

  lemma TaggedRoundTrip(code: seq<Byte>, at: nat, tags: seq<Tag>, known: set<int>)
    requires TagsFit(tags, known) && tags != [] && Has(code, at, OptionalBytes(tags))
    ensures OptionalAt(code, at, known) == Got(tags, at + |OptionalBytes(tags)|)
  {
    hide Has, TagsFit, TagsBytes, TagsAt;
    Assoc([OPERAND_OPTIONAL], TagsBytes(tags), [0]);
    HasParts(code, at, [OPERAND_OPTIONAL], TagsBytes(tags) + [0]);
    HasByte(code, at, [OPERAND_OPTIONAL], 0);
    TagsRoundTrip(code, at + 1, tags, known);
  }

  lemma UntaggedRoundTrip(code: seq<Byte>, at: nat, args: seq<Arg>, known: set<int>)
    requires Has(code, at, ArgsBytes(args)) && (args == [] && at < |code| ==> code[at] != 0)
    ensures OptionalAt(code, at, known) == Got([], at)
  {
    hide Has, TagsAt, ArgBytes;
    if args != [] { HasByte(code, at, ArgsBytes(args), 0); }
  }

  lemma OnlyOptionalOpsHaveTags(op: Op)
    requires OpFits(op)
    ensures !SignatureOf(op.code).optional ==> op.tags == []
    ensures op.tags == [] ==> OptionalBytes(op.tags) == []
  {
    if op.tags != [] { assert op.tags[0].id in SignatureOf(op.code).known; }
  }

  // Every operation reads back as it was emitted. Without any operand that needs one thing of
  // what follows: no code begins with the optional marker.
  lemma OpRoundTrip(code: seq<Byte>, at: nat, op: Op)
    requires OpFits(op) && Has(code, at, OpBytes(op))
    requires Bare(op) && at + 1 < |code| ==> code[at + 1] != 0
    ensures OperandsAt(code, at + 1, op.code) == Got(op, at + |OpBytes(op)|)
  {
    hide Has, ArgsBytes, OptionalBytes, OptionalAt, ArgsAt, ArgsFit, TagsFit, SignatureOf;
    var sig := SignatureOf(op.code);
    OnlyOptionalOpsHaveTags(op);
    HasParts(code, at, [op.code], OptionalBytes(op.tags) + ArgsBytes(op.args));
    HasParts(code, at + 1, OptionalBytes(op.tags), ArgsBytes(op.args));
    if op.tags != [] {
      TaggedRoundTrip(code, at + 1, op.tags, sig.known);
    } else if sig.optional {
      UntaggedRoundTrip(code, at + 1, op.args, sig.known);
    }
    ArgsRoundTrip(code, at + 1 + |OptionalBytes(op.tags)|, op.args, sig.kinds);
  }

  // The condition is exact: a bare operation before a zero byte is never read back in place.
  lemma BareOpReadsBackExactlyBeforeNonZero(code: seq<Byte>, at: nat, op: Op)
    requires OpFits(op) && Bare(op) && Has(code, at, OpBytes(op))
    ensures OperandsAt(code, at + 1, op.code) == Got(op, at + |OpBytes(op)|)
            <==> (at + 1 < |code| ==> code[at + 1] != 0)
  {
    if at + 1 < |code| ==> code[at + 1] != 0 {
      OpRoundTrip(code, at, op);
    } else {
      TagsAdvance(code, at + 2, SignatureOf(op.code).known);
      assert |OpBytes(op)| == 1;
      var r := OptionalAt(code, at + 1, SignatureOf(op.code).known);
      assert r.Got? ==> r.next > at + 1;
      assert SignatureOf(op.code).kinds == [];
    }
  }

  // ----- Every read moves forward and stays in the block, on any bytes -----

  lemma {:induction false} TagsAdvance(code: seq<Byte>, at: nat, known: set<int>)
    ensures var r := TagsAt(code, at, known); r.Got? ==> at < r.next <= |code|
    decreases |code| - at
  {
    if at + 2 < |code| { TagsAdvance(code, at + 3, known); }
  }

  lemma ArgAdvances(code: seq<Byte>, at: nat, kind: Kind)
    ensures var r := ArgAt(code, at, kind); r.Got? ==> at < r.next <= |code|
  {
    IntegerAdvances(code, at + 1, 0, 64);
    StringAdvances(code, at + 1);
  }

  lemma {:induction false} ArgsAdvance(code: seq<Byte>, at: nat, kinds: seq<Kind>)
    requires at <= |code|
    ensures var r := ArgsAt(code, at, kinds); r.Got? ==> at <= r.next <= |code|
    decreases |kinds|
  {
    if kinds != [] {
      ArgAdvances(code, at, kinds[0]);
      if ArgAt(code, at, kinds[0]).Got? {
        ArgsAdvance(code, ArgAt(code, at, kinds[0]).next, kinds[1..]);
      }
    }
  }

  lemma OperandsAdvance(code: seq<Byte>, at: nat, op: Byte)
    requires (IsAction(op) || IsTest(op)) && at <= |code|
    ensures var r := OperandsAt(code, at, op); r.Got? ==> at <= r.next <= |code|
  {
    var sig := SignatureOf(op);
    TagsAdvance(code, at + 1, sig.known);
    var tags := if sig.optional then OptionalAt(code, at, sig.known) else Got([], at);
    if tags.Got? { ArgsAdvance(code, tags.next, sig.kinds); }
  }

  // ----- Emission -----

  // The arguments of a command in the order of its AST node.
  datatype Argument = Tagged(tag: Tag) | Positional(arg: Arg)

  function TagsOf(args: seq<Argument>): seq<Tag>
  {
    if args == [] then []
    else TagsOf(args[..|args| - 1]) + (if args[|args| - 1].Tagged? then [args[|args| - 1].tag] else [])
  }

  function PositionalsOf(args: seq<Argument>): seq<Arg>
  {
    if args == [] then []
    else PositionalsOf(args[..|args| - 1])
         + (if args[|args| - 1].Positional? then [args[|args| - 1].arg] else [])
  }

  // No optional argument follows a positional one.
  predicate Ordered(args: seq<Argument>)
  {
    args != [] ==>
      var init := args[..|args| - 1];
      Ordered(init) && (args[|args| - 1].Tagged? ==> PositionalsOf(init) == [])
  }

  lemma {:induction false} OrderedPrefix(args: seq<Argument>, i: nat)
    requires i <= |args| && Ordered(args)
    ensures Ordered(args[..i])
    decreases |args|
  {
    if i == |args| {
      assert args[..i] == args;
    } else {
      assert args[..|args| - 1][..i] == args[..i];
      OrderedPrefix(args[..|args| - 1], i);
    }
  }

  lemma {:induction false} TagsBytesAppend(tags: seq<Tag>, last: Tag)
    ensures TagsBytes(tags + [last]) == TagsBytes(tags) + TagBytes(last)
    decreases |tags|
  {
    if tags != [] {
      assert (tags + [last])[1..] == tags[1..] + [last];
      TagsBytesAppend(tags[1..], last);
    }
  }

  lemma {:induction false} ArgsBytesAppend(args: seq<Arg>, last: Arg)
    ensures ArgsBytes(args + [last]) == ArgsBytes(args) + ArgBytes(last)
    decreases |args|
  {
    if args != [] {
      assert (args + [last])[1..] == args[1..] + [last];
      ArgsBytesAppend(args[1..], last);
    }
  }

  lemma {:induction false} ItemsBytesAppend(items: seq<seq<Byte>>, last: seq<Byte>)
    ensures ItemsBytes(items + [last]) == ItemsBytes(items) + ItemBytes(last)
    decreases |items|
  {
    if items != [] {
      assert (items + [last])[1..] == items[1..] + [last];
      ItemsBytesAppend(items[1..], last);
    }
  }

  method EmitItem(block: BinaryBlock, s: seq<Byte>)
    requires |s| < OFFSET_LIMIT
    modifies block
    ensures block.data == old(block.data) + ItemBytes(s)
  {
    var _ := block.EmitByte(OPERAND_STRING);
    var _ := block.EmitString(s);
  }

  lemma NoItemsYet(items: seq<seq<Byte>>)
    ensures ItemsBytes(items[..0]) == []
  {
  }

  // The end address is left open, and filled in once the last item is out.
  method EmitItems(block: BinaryBlock, items: seq<seq<Byte>>)
    requires ArgFits(List(items)) && |items| != 1
    modifies block
    ensures block.data == old(block.data) + ItemsBytes(items)
  {
    hide ItemBytes, ItemsBytes;
    NoItemsYet(items);
    ghost var start := block.data;
    for i := 0 to |items|
      invariant block.data == start + ItemsBytes(items[..i])
    {
      ItemsBytesAppend(items[..i], items[i]);
      assert items[..i + 1] == items[..i] + [items[i]];
      EmitItem(block, items[i]);
    }
    assert items[..|items|] == items;
  }

  method EmitList(block: BinaryBlock, items: seq<seq<Byte>>)
    requires ArgFits(List(items)) && |items| != 1
    modifies block
    ensures block.data == old(block.data) + ArgBytes(List(items))
  {
    hide ItemBytes, IntegerBytes, OffsetBytes, ItemsBytes, WithOffset;
    ghost var before := block.data + [OPERAND_STRING_LIST];
    var _ := block.EmitByte(OPERAND_STRING_LIST);
    var endOffset := block.EmitOffset(0);
    var _ := block.EmitInteger(|items|);
    EmitItems(block, items);
    Assoc(before + OffsetBytes(0), IntegerBytes(|items|), ItemsBytes(items));
    PatchSlot(before, OffsetBytes(0), ListBody(items), |block.data|);
    block.ResolveOffset(endOffset);
    Assoc(before, OffsetBytes(4 + |ListBody(items)|), ListBody(items));
    Assoc(old(block.data), [OPERAND_STRING_LIST], OffsetBytes(4 + |ListBody(items)|) + ListBody(items));
  }

  method EmitArg(block: BinaryBlock, arg: Arg)
    requires ArgFits(arg)
    modifies block
    ensures block.data == old(block.data) + ArgBytes(arg)
  {
    match arg
    case Num(n) =>
      var _ := block.EmitByte(OPERAND_NUMBER);
      var _ := block.EmitInteger(n);
    case Str(s) =>
      EmitItem(block, s);
    case List(items) =>
      if |items| == 1 {
        assert items[0] in items;
        EmitItem(block, items[0]);
      } else {
        EmitList(block, items);
      }
  }

  method EmitTag(block: BinaryBlock, tag: Tag)
    modifies block
    ensures block.data == old(block.data) + TagBytes(tag)
  {
    var _ := block.EmitByte(tag.id % 256);
    var _ := block.EmitByte(TagClass(tag.id));
    var _ := block.EmitByte(tag.obj);
  }

  datatype ArgState = ArgStart | ArgOptional | ArgPositional

  // What has been written in a given state, for the arguments seen so far.
  ghost function Emitted(state: ArgState, tags: seq<Tag>, args: seq<Arg>): seq<Byte>
  {
    match state
    case ArgStart => []
    case ArgOptional => [OPERAND_OPTIONAL] + TagsBytes(tags)
    case ArgPositional => OptionalBytes(tags) + ArgsBytes(args)
  }

  method EmitTagged(block: BinaryBlock, state: ArgState, tag: Tag, ghost base: seq<Byte>, ghost tags: seq<Tag>)
    requires state != ArgPositional && (state == ArgStart ==> tags == [])
    requires block.data == base + Emitted(state, tags, [])
    modifies block
    ensures block.data == base + Emitted(ArgOptional, tags + [tag], [])
  {
    hide TagBytes;
    TagsBytesAppend(tags, tag);
    if state == ArgStart {
      var _ := block.EmitByte(OPERAND_OPTIONAL);
    }
    EmitTag(block, tag);
  }

  method EmitPositional(block: BinaryBlock, state: ArgState, arg: Arg,
                        ghost base: seq<Byte>, ghost tags: seq<Tag>, ghost args: seq<Arg>)
    requires ArgFits(arg)
    requires state == ArgStart <==> tags == [] && args == []
    requires state != ArgPositional ==> args == []
    requires block.data == base + Emitted(state, tags, args)
    modifies block
    ensures block.data == base + Emitted(ArgPositional, tags, args + [arg])
  {
    assert args == [] ==> ArgsBytes(args) == [];
    hide ArgBytes, ArgsBytes, TagsBytes, ArgFits;
    ArgsBytesAppend(args, arg);
    if state == ArgOptional {
      var _ := block.EmitByte(0);
      Assoc(base, [OPERAND_OPTIONAL] + TagsBytes(tags), [0]);
    }
    assert block.data == base + (OptionalBytes(tags) + ArgsBytes(args));
    hide OptionalBytes;
    EmitArg(block, arg);
    Assoc(base, OptionalBytes(tags) + ArgsBytes(args), ArgBytes(arg));
    Assoc(OptionalBytes(tags), ArgsBytes(args), ArgBytes(arg));
  }

  method CloseArguments(block: BinaryBlock, state: ArgState, ghost base: seq<Byte>, ghost tags: seq<Tag>,
                        ghost args: seq<Arg>)
    requires state == ArgStart <==> tags == [] && args == []
    requires state != ArgPositional ==> args == []
    requires block.data == base + Emitted(state, tags, args)
    modifies block
    ensures block.data == base + (OptionalBytes(tags) + ArgsBytes(args))
  {
    if state == ArgOptional {
      var _ := block.EmitByte(0);
    }
  }

  ghost predicate StateAfter(state: ArgState, done: seq<Argument>)
  {
    && Ordered(done)
    && (state == ArgStart <==> TagsOf(done) == [] && PositionalsOf(done) == [])
    && (state == ArgPositional <==> PositionalsOf(done) != [])
  }

  lemma NextState(state: ArgState, done: seq<Argument>, a: Argument)
    requires StateAfter(state, done) && (a.Tagged? ==> state != ArgPositional)
    ensures StateAfter(if a.Tagged? then ArgOptional else ArgPositional, done + [a])
    ensures TagsOf(done + [a]) == TagsOf(done) + if a.Tagged? then [a.tag] else []
    ensures PositionalsOf(done + [a]) == PositionalsOf(done) + if a.Positional? then [a.arg] else []
  {
    assert (done + [a])[..|done|] == done;
  }

  method EmitArgument(block: BinaryBlock, state: ArgState, a: Argument, ghost base: seq<Byte>,
                      ghost done: seq<Argument>)
    returns (ok: bool, next: ArgState)
    requires a.Positional? ==> ArgFits(a.arg)
    requires StateAfter(state, done)
    requires block.data == base + Emitted(state, TagsOf(done), PositionalsOf(done))
    modifies block
    ensures ok <==> Ordered(done + [a])
    ensures ok ==> StateAfter(next, done + [a])
    ensures ok ==> block.data == base + Emitted(next, TagsOf(done + [a]), PositionalsOf(done + [a]))
  {
    hide ArgFits, OptionalBytes, ArgsBytes, Emitted;
    assert (done + [a])[..|done|] == done;
    ok, next := true, if a.Tagged? then ArgOptional else ArgPositional;
    if a.Tagged? && state == ArgPositional {
      ok := false;
      return;
    }
    NextState(state, done, a);
    hide TagsOf, PositionalsOf, Ordered;
    if a.Tagged? {
      EmitTagged(block, state, a.tag, base, TagsOf(done));
      assert PositionalsOf(done + [a]) == [];
    } else {
      assert TagsOf(done + [a]) == TagsOf(done);
      EmitPositional(block, state, a.arg, base, TagsOf(done), PositionalsOf(done));
    }
  }

  lemma NoArgumentsYet(args: seq<Argument>)
    ensures StateAfter(ArgStart, args[..0])
    ensures Emitted(ArgStart, TagsOf(args[..0]), PositionalsOf(args[..0])) == []
  {
  }

  lemma StateFacts(state: ArgState, done: seq<Argument>)
    requires StateAfter(state, done)
    ensures Ordered(done) && (state != ArgPositional ==> PositionalsOf(done) == [])
    ensures state == ArgStart <==> TagsOf(done) == [] && PositionalsOf(done) == []
  {
  }

  // Emission succeeds exactly on ordered arguments, and then leaves one optional block
  // followed by the positional operands.
  method GenerateArguments(block: BinaryBlock, args: seq<Argument>) returns (ok: bool)
    requires forall a | a in args && a.Positional? :: ArgFits(a.arg)
    modifies block
    ensures ok <==> Ordered(args)
    ensures ok ==> block.data == old(block.data) + (OptionalBytes(TagsOf(args)) + ArgsBytes(PositionalsOf(args)))
  {
    hide ArgFits, OptionalBytes, ArgsBytes, Emitted, Ordered, TagsOf, PositionalsOf, StateAfter;
    var state := ArgStart;
    ghost var base := block.data;
    NoArgumentsYet(args);
    for i := 0 to |args|
      invariant StateAfter(state, args[..i])
      invariant block.data == base + Emitted(state, TagsOf(args[..i]), PositionalsOf(args[..i]))
    {
      assert args[..i + 1] == args[..i] + [args[i]];
      ok, state := EmitArgument(block, state, args[i], base, args[..i]);
      if !ok {
        if Ordered(args) { OrderedPrefix(args, i + 1); }
        return;
      }
    }
    assert args[..|args|] == args;
    StateFacts(state, args);
    CloseArguments(block, state, base, TagsOf(args), PositionalsOf(args));
    ok := true;
  }
}
