// Code that is refused: truncated operations, unknown operations and operands, jumps out of the block
// (src/lib-sieve/sieve-interpreter.c, src/lib-sieve/sieve-code.c).
module CorruptCode {
  import opened Bytes
  import opened BinaryCode
  import opened CodeReading
  import opened Operands
  import opened Interpreter

  // ----- What the core operations look like -----

  ghost predicate TagsAmong(tags: seq<Tag>, ids: seq<int>)
  {
    forall i | 0 <= i < |tags| :: tags[i].id in ids
  }

  // Each action and test with the optional codes it may carry (comparator 1, match type 2, address part 3) and the
  // operands it has: a string to redirect to, header and key lists, a list of headers, a size.
  ghost predicate HasShape(op: Op)
  {
    match op.code
    case 5 => op.tags == [] && op.args == []
    case 6 => op.tags == [] && op.args == []
    case 7 => op.tags == [] && |op.args| == 1 && op.args[0].Str?
    case 8 => TagsAmong(op.tags, [1, 2, 3]) && |op.args| == 2 && op.args[0].List? && op.args[1].List?
    case 9 => TagsAmong(op.tags, [1, 2]) && |op.args| == 2 && op.args[0].List? && op.args[1].List?
    case 10 => op.tags == [] && |op.args| == 1 && op.args[0].List?
    case 11 => op.tags == [] && |op.args| == 1 && op.args[0].Num?
    case 12 => op.tags == [] && |op.args| == 1 && op.args[0].Num?
    case _ => false
  }

  lemma OperationsHaveTheirShape(op: Op)
    ensures OpFits(op) <==> HasShape(op) && forall i | 0 <= i < |op.args| :: ArgFits(op.args[i])
    ensures TagClass(1) == 4 && TagClass(2) == 5 && TagClass(3) == 6
  {
    hide ArgFits;
    if OpFits(op) && op.tags != [] { assert op.tags[0].id in SignatureOf(op.code).known; }
  }

  // ----- Optional operands -----

  // Optional operands are read exactly when they are known ones, of their class, up to the closing zero.
  lemma {:induction false} TagsReadExactly(code: seq<Byte>, at: nat, known: set<int>, tags: seq<Tag>, next: nat)
    ensures TagsAt(code, at, known) == Got(tags, next)
            <==> TagsFit(tags, known) && Has(code, at, TagsBytes(tags) + [0]) && next == at + |TagsBytes(tags)| + 1
  {
    if TagsFit(tags, known) && Has(code, at, TagsBytes(tags) + [0]) { TagsRoundTrip(code, at, tags, known); }
    if TagsAt(code, at, known) == Got(tags, next) { TagsThere(code, at, known); }
  }

  lemma {:induction false} TagsThere(code: seq<Byte>, at: nat, known: set<int>)
    requires TagsAt(code, at, known).Got?
    ensures var r := TagsAt(code, at, known); TagsFit(r.value, known) && Has(code, at, TagsBytes(r.value) + [0])
    decreases |code| - at
  {
    var tags := TagsAt(code, at, known).value;
    if code[at] == 0 {
      assert code[at..at + 1] == TagsBytes(tags) + [0];
    } else {
      var rest := TagsAt(code, at + 3, known).value;
      TagsThere(code, at + 3, known);
      assert tags[1..] == rest;
      assert code[at..at + 3] == TagBytes(tags[0]);
      Assoc(TagBytes(tags[0]), TagsBytes(rest), [0]);
      assert code[at..at + 3 + |TagsBytes(rest) + [0]|]
          == code[at..at + 3] + code[at + 3..at + 3 + |TagsBytes(rest) + [0]|];
    }
  }

  // ----- Truncated operations -----

  lemma ListCut(code: seq<Byte>, at: nat, items: seq<seq<Byte>>)
    requires ArgFits(List(items)) && |items| != 1
    requires CutOff(code, at, OffsetBytes(4 + |ListBody(items)|) + ListBody(items))
    ensures ListAt(code, at) == Corrupt
  {
    hide CutOff, OffsetAt, OffsetBytes, Has, ListBody, UnsignedAt, ItemsAt;
    var n := 4 + |ListBody(items)|;
    CutParts(code, at, OffsetBytes(n), ListBody(items));
    if CutOff(code, at, OffsetBytes(n)) {
      OffsetCut(code, at, n);
    } else {
      OffsetRoundTrip(code, at, n);
      CutShort(code, at + 4, ListBody(items));
    }
  }

  lemma ArgCut(code: seq<Byte>, at: nat, arg: Arg, kind: Kind)
    requires ArgFits(arg) && KindFits(arg, kind) && CutOff(code, at, ArgBytes(arg))
    ensures ArgAt(code, at, kind) == Corrupt
  {
    hide CutOff, Has, IntegerAt, IntegerBytes, StringAt, StringBytes, ListAt, ListBody, OffsetBytes;
    var head, tail := ArgBytes(arg)[..1], ArgBytes(arg)[1..];
    assert ArgBytes(arg) == head + tail;
    CutParts(code, at, head, tail);
    CutShort(code, at, ArgBytes(arg));
    if at < |code| {
      HeadThere(code, at, head);
      HasByte(code, at, head, 0);
      match arg
      case Num(n) => IntegerCut(code, at + 1, n);
      case Str(s) => StringCut(code, at + 1, s);
      case List(items) => if |items| == 1 { StringCut(code, at + 1, items[0]); } else { ListCut(code, at + 1, items); }
    }
  }

  lemma {:induction false} ArgsCut(code: seq<Byte>, at: nat, args: seq<Arg>, kinds: seq<Kind>)
    requires ArgsFit(args, kinds) && CutOff(code, at, ArgsBytes(args))
    ensures ArgsAt(code, at, kinds) == Corrupt
    decreases |args|
  {
    hide CutOff, Has, ArgBytes, ArgAt, ArgFits;
    CutShort(code, at, ArgsBytes(args));
    assert args != [];
    CutParts(code, at, ArgBytes(args[0]), ArgsBytes(args[1..]));
    if CutOff(code, at, ArgBytes(args[0])) {
      ArgCut(code, at, args[0], kinds[0]);
    } else {
      ArgRoundTrip(code, at, args[0], kinds[0]);
      ArgsCut(code, at + |ArgBytes(args[0])|, args[1..], kinds[1..]);
    }
  }

  lemma {:induction false} TagsCut(code: seq<Byte>, at: nat, tags: seq<Tag>, known: set<int>)
    requires TagsFit(tags, known) && CutOff(code, at, TagsBytes(tags) + [0])
    ensures TagsAt(code, at, known) == Corrupt
    decreases |tags|
  {
    hide CutOff, Has;
    CutShort(code, at, TagsBytes(tags) + [0]);
    if tags != [] {
      var head, rest := TagBytes(tags[0]), TagsBytes(tags[1..]) + [0];
      Assoc(head, TagsBytes(tags[1..]), [0]);
      CutParts(code, at, head, rest);
      if CutOff(code, at, head) {
        TagCut(code, at, tags[0], known);
      } else {
        HasByte(code, at, head, 0);
        TagsCut(code, at + 3, tags[1..], known);
      }
    }
  }

  lemma TagCut(code: seq<Byte>, at: nat, tag: Tag, known: set<int>)
    requires CutOff(code, at, TagBytes(tag)) && -128 <= tag.id < 128 && tag.id != 0
    ensures TagsAt(code, at, known) == Corrupt
  {
    if at < |code| { assert code[at] == code[at..][0] == TagBytes(tag)[0]; }
  }

  lemma OptionalCut(code: seq<Byte>, at: nat, tags: seq<Tag>, known: set<int>)
    requires TagsFit(tags, known) && CutOff(code, at, OptionalBytes(tags))
    ensures OptionalAt(code, at, known) == if at == |code| then Got([], at) else Corrupt
  {
    hide CutOff, Has, TagsAt, TagsBytes;
    CutShort(code, at, OptionalBytes(tags));
    assert tags != [];
    Assoc([OPERAND_OPTIONAL], TagsBytes(tags), [0]);
    CutParts(code, at, [OPERAND_OPTIONAL], TagsBytes(tags) + [0]);
    if at < |code| {
      HeadThere(code, at, [OPERAND_OPTIONAL]);
      HasByte(code, at, [OPERAND_OPTIONAL], 0);
      TagsCut(code, at + 1, tags, known);
    }
  }

  lemma NoArgsAtEnd(code: seq<Byte>, at: nat, kinds: seq<Kind>)
    requires at >= |code| && kinds != []
    ensures ArgsAt(code, at, kinds) == Corrupt
  {
  }

  // Operations with optional operands have others too.
  lemma TaggedHaveArgs(op: Op)
    requires OpFits(op) && op.tags != []
    ensures SignatureOf(op.code).kinds != [] && SignatureOf(op.code).optional
  {
    assert op.tags[0].id in SignatureOf(op.code).known;
  }

  lemma OperandsCut(code: seq<Byte>, at: nat, op: Op)
    requires OpFits(op) && CutOff(code, at, OptionalBytes(op.tags) + ArgsBytes(op.args))
    ensures OperandsAt(code, at, op.code) == Corrupt
  {
    hide CutOff, Has, ArgsBytes, OptionalBytes, OptionalAt, ArgsAt, ArgsFit, TagsFit, SignatureOf;
    var sig := SignatureOf(op.code);
    OnlyOptionalOpsHaveTags(op);
    CutParts(code, at, OptionalBytes(op.tags), ArgsBytes(op.args));
    if op.tags == [] {
      assert OptionalBytes(op.tags) + ArgsBytes(op.args) == ArgsBytes(op.args);
      ArgsCut(code, at, op.args, sig.kinds);
      UntaggedCut(code, at, op.args, sig.known);
    } else {
      TaggedHaveArgs(op);
      if CutOff(code, at, OptionalBytes(op.tags)) {
        OptionalCut(code, at, op.tags, sig.known);
        if at == |code| { NoArgsAtEnd(code, at, sig.kinds); }
      } else {
        TaggedRoundTrip(code, at, op.tags, sig.known);
        ArgsCut(code, at + |OptionalBytes(op.tags)|, op.args, sig.kinds);
      }
    }
  }

  lemma UntaggedCut(code: seq<Byte>, at: nat, args: seq<Arg>, known: set<int>)
    requires CutOff(code, at, ArgsBytes(args))
    ensures OptionalAt(code, at, known) == Got([], at)
  {
    hide TagsAt, ArgBytes;
    if at < |code| { assert code[at] == code[at..][0] == ArgsBytes(args)[0]; }
  }

  // Code that ends within an operation stops the interpreter there, before the operation has any effect.
  lemma TruncatedOperationIsRefused(code: seq<Byte>, m: Machine, o: Oracle, op: Op)
    requires OpFits(op) && m.pc < |code| && CutOff(code, m.pc, OpBytes(op))
    ensures Step(code, m, o) == Halted(BinCorrupt, m.trace)
  {
    hide Has, OperandsAt, ArgsBytes, OptionalBytes, OpFits;
    FirstCode(code, m.pc, op);
    hide CutOff;
    CutParts(code, m.pc, [op.code], OptionalBytes(op.tags) + ArgsBytes(op.args));
    HeadThere(code, m.pc, [op.code]);
    OperandsCut(code, m.pc + 1, op);
  }

  lemma FirstCode(code: seq<Byte>, at: nat, op: Op)
    requires OpFits(op) && at < |code| && CutOff(code, at, OpBytes(op))
    ensures code[at] == op.code && (IsAction(op.code) || IsTest(op.code))
  {
    assert code[at] == code[at..][0] == OpBytes(op)[0];
  }

  // ----- Jumps and other operations -----

  // A jump goes where its offset says, counted from the offset; a target behind the block is refused, taken or not,
  // and so is a jump without its four bytes.
  lemma JumpDecides(code: seq<Byte>, m: Machine, o: Oracle, n: nat)
    requires m.pc < |code| && 1 <= code[m.pc] <= 3 && n < OFFSET_LIMIT && Has(code, m.pc + 1, OffsetBytes(n))
    ensures var taken := code[m.pc] == 1 || (code[m.pc] == 2 && m.result) || (code[m.pc] == 3 && !m.result);
            Step(code, m, o)
            == if m.pc + 1 + n > |code| then Halted(BinCorrupt, m.trace)
               else Running(m.(pc := if taken then m.pc + 1 + n else m.pc + 5))
  {
    hide OffsetAt, OffsetBytes, Has;
    OffsetRoundTrip(code, m.pc + 1, n);
  }

  lemma UnreadableIsRefused(code: seq<Byte>, m: Machine, o: Oracle)
    requires m.pc < |code|
    ensures 1 <= code[m.pc] <= 3 && m.pc + 5 > |code| ==> Step(code, m, o) == Halted(BinCorrupt, m.trace)
    ensures code[m.pc] == 0 || code[m.pc] > 12 ==> Step(code, m, o) == Halted(BinCorrupt, m.trace)
    ensures code[m.pc] == 4 <==> exists t :: Step(code, m, o) == Halted(Stopped, t)
  {
    hide OperandsAt;
    if code[m.pc] == 4 { assert Step(code, m, o) == Halted(Stopped, m.trace); }
  }
}
