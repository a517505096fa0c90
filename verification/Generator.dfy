// The code generator: it emits jumps before their targets are known and patches them later
// (src/lib-sieve/sieve-generator.c, cmd-if.c, tst-not.c, tst-anyof.c, tst-allof.c).
module Generator {
  import opened BinaryCode
  import opened Bytes
  import opened Operands
  import opened Script
  import opened Validator
  import opened Layout
  import opened Compiler

  // ----- Patching the jumps of a test -----

  // The open slots of the code of a test, in the order they are emitted.
  function Slots(t: Test, at: nat, jump: bool): seq<nat>
    decreases t, 1
  {
    match t
    case Leaf(op) => [at + |OpBytes(op)| + 1]
    case True => if jump then [at + 1] else []
    case False => if jump then [] else [at + 1]
    case Not(t') => Slots(t', at, !jump)
    case AnyOf(ts) => ListSlots(ts, at, true, jump)
    case AllOf(ts) => ListSlots(ts, at, false, jump)
  }

  function TestsSlots(ts: seq<Test>, at: nat, jump: bool): seq<nat>
    decreases ts, 0
  {
    if ts == [] then [] else Slots(ts[0], at, jump) + TestsSlots(ts[1..], at + TestSize(ts[0], jump), jump)
  }

  function ListSlots(ts: seq<Test>, at: nat, stop: bool, jump: bool): seq<nat>
    decreases ts, 1
  {
    if ts == [] then []
    else if |ts| == 1 then Slots(ts[0], at, jump)
    else if jump == stop then TestsSlots(ts, at, stop)
    else [at + TestsSize(ts, stop) + 1]
  }

  predicate Inside(slots: seq<nat>, low: nat, high: nat)
  {
    forall i | 0 <= i < |slots| :: low <= slots[i] && slots[i] + 4 <= high
  }

  function ResolveAll(code: seq<Byte>, slots: seq<nat>, target: nat): (r: seq<Byte>)
    requires Inside(slots, 0, |code|)
    ensures |r| == |code|
    decreases |slots|
  {
    if slots == [] then code else ResolveAll(WithOffset(code, slots[0], target), slots[1..], target)
  }

  lemma {:induction false} ResolveBoth(code: seq<Byte>, a: seq<nat>, b: seq<nat>, target: nat)
    requires Inside(a, 0, |code|) && Inside(b, 0, |code|)
    ensures Inside(a + b, 0, |code|)
    ensures ResolveAll(code, a + b, target) == ResolveAll(ResolveAll(code, a, target), b, target)
    decreases |a|
  {
    hide WithOffset;
    if a == [] {
      assert a + b == b;
    } else {
      assert (a + b)[1..] == a[1..] + b;
      ResolveBoth(WithOffset(code, a[0], target), a[1..], b, target);
    }
  }

  // Resolving the slots of a test, whatever they held, points them at the target.
  ghost predicate Patches(before: seq<Byte>, old': seq<Byte>, new': seq<Byte>, slots: seq<nat>, target: nat,
                          after: seq<Byte>)
  {
    && Inside(slots, |before|, |before| + |old'|)
    && Inside(slots, 0, |before + old' + after|)
    && ResolveAll(before + old' + after, slots, target) == before + new' + after
  }

  lemma PatchOne(before: seq<Byte>, head: seq<Byte>, out: Option<nat>, target: nat, after: seq<Byte>)
    ensures var at := |before| + |head|;
            Patches(before, head + Slot(out, at), head + Slot(Some(target), at), [at], target, after)
  {
    hide OffsetBytes, WithOffset;
    var at := |before| + |head|;
    Assoc(before, head, Slot(out, at));
    Assoc(before, head, Slot(Some(target), at));
    PatchSlot(before + head, Slot(out, at), after, target);
    var code := before + (head + Slot(out, at)) + after;
    assert ResolveAll(code, [at], target) == ResolveAll(WithOffset(code, at, target), [], target);
  }

  lemma PatchNone(before: seq<Byte>, code: seq<Byte>, target: nat, after: seq<Byte>)
    ensures Patches(before, code, code, [], target, after)
  {
  }

  lemma PatchBoth(before: seq<Byte>, a: seq<Byte>, a': seq<Byte>, b: seq<Byte>, b': seq<Byte>,
                  s: seq<nat>, s': seq<nat>, target: nat, after: seq<Byte>)
    requires |a| == |a'| && |b| == |b'|
    requires Patches(before, a, a', s, target, b + after)
    requires Patches(before + a', b, b', s', target, after)
    ensures Patches(before, a + b, a' + b', s + s', target, after)
  {
    hide ResolveAll;
    var code := before + (a + b) + after;
    assert code == before + a + (b + after);
    assert before + a' + (b + after) == before + a' + b + after;
    assert before + a' + b' + after == before + (a' + b') + after;
    ResolveBoth(code, s, s', target);
  }

  lemma {:induction false} PatchTest(before: seq<Byte>, t: Test, out: Option<nat>, target: nat, jump: bool,
                                     after: seq<Byte>)
    ensures var at := |before|;
            Patches(before, TestCode(t, at, out, jump), TestCode(t, at, Some(target), jump), Slots(t, at, jump), target,
                    after)
    decreases t, 1
  {
    hide Patches, OpBytes, Slot;
    var at := |before|;
    match t
    case Leaf(op) =>
      var branch := [if jump then JMPTRUE else JMPFALSE];
      var slot := at + |OpBytes(op)| + 1;
      Assoc(OpBytes(op), branch, Slot(out, slot));
      Assoc(OpBytes(op), branch, Slot(Some(target), slot));
      PatchOne(before, OpBytes(op) + branch, out, target, after);
    case True =>
      if jump { PatchOne(before, [JMP], out, target, after); } else { PatchNone(before, [], target, after); }
    case False =>
      if jump { PatchNone(before, [], target, after); } else { PatchOne(before, [JMP], out, target, after); }
    case Not(t') => PatchTest(before, t', out, target, !jump, after);
    case AnyOf(ts) => PatchList(before, ts, out, target, true, jump, after);
    case AllOf(ts) => PatchList(before, ts, out, target, false, jump, after);
  }

  lemma {:induction false} PatchTests(before: seq<Byte>, ts: seq<Test>, out: Option<nat>, target: nat, jump: bool,
                                      after: seq<Byte>)
    ensures var at := |before|;
            Patches(before, TestsCode(ts, at, out, jump), TestsCode(ts, at, Some(target), jump),
                    TestsSlots(ts, at, jump), target, after)
    decreases ts, 0
  {
    hide Patches, TestCode, Slots;
    if ts == [] {
      PatchNone(before, [], target, after);
    } else {
      var at, n := |before|, TestSize(ts[0], jump);
      var a, a' := TestCode(ts[0], at, out, jump), TestCode(ts[0], at, Some(target), jump);
      var b, b' := TestsCode(ts[1..], at + n, out, jump), TestsCode(ts[1..], at + n, Some(target), jump);
      PatchTest(before, ts[0], out, target, jump, b + after);
      PatchTests(before + a', ts[1..], out, target, jump, after);
      PatchBoth(before, a, a', b, b', Slots(ts[0], at, jump), TestsSlots(ts[1..], at + n, jump), target, after);
    }
  }

  lemma {:induction false} PatchList(before: seq<Byte>, ts: seq<Test>, out: Option<nat>, target: nat, stop: bool,
                                     jump: bool, after: seq<Byte>)
    ensures var at := |before|;
            Patches(before, ListCode(ts, at, out, stop, jump), ListCode(ts, at, Some(target), stop, jump),
                    ListSlots(ts, at, stop, jump), target, after)
    decreases ts, 1
  {
    hide Patches, TestCode, TestsCode, Slots, TestsSlots, Slot;
    var at := |before|;
    if ts == [] {
      PatchNone(before, [], target, after);
    } else if |ts| == 1 {
      PatchTest(before, ts[0], out, target, jump, after);
    } else if jump == stop {
      PatchTests(before, ts, out, target, stop, after);
    } else {
      var n := TestsSize(ts, stop);
      var members := TestsCode(ts, at, Some(at + n + 5), stop);
      Assoc(members, [JMP], Slot(out, at + n + 1));
      Assoc(members, [JMP], Slot(Some(target), at + n + 1));
      PatchOne(before, members + [JMP], out, target, after);
    }
  }

  class JumpList {
    const block: BinaryBlock
    var jumps: seq<nat>

    constructor (block: BinaryBlock)
      ensures this.block == block && jumps == []
    {
      this.block := block;
      jumps := [];
    }

    method Add(jump: nat)
      modifies this
      ensures jumps == old(jumps) + [jump]
    {
      jumps := jumps + [jump];
    }

    // Points every jump of the list at the current end of the code.
    method Resolve()
      requires Inside(jumps, 0, |block.data|) && |block.data| < OFFSET_LIMIT
      modifies block
      ensures block.data == ResolveAll(old(block.data), jumps, |old(block.data)|)
    {
      hide WithOffset;
      for i := 0 to |jumps|
        invariant |block.data| == |old(block.data)|
        invariant ResolveAll(old(block.data), jumps, |old(block.data)|)
                  == ResolveAll(block.data, jumps[i..], |old(block.data)|)
      {
        block.ResolveOffset(jumps[i]);
        assert jumps[i..][1..] == jumps[i + 1..];
      }
    }
  }

  // ----- Operations and tests -----

  function ArgumentsOf(tags: seq<Tag>, args: seq<Arg>): seq<Argument>
    decreases |tags| + |args|
  {
    if args != [] then ArgumentsOf(tags, args[..|args| - 1]) + [Positional(args[|args| - 1])]
    else if tags != [] then ArgumentsOf(tags[..|tags| - 1], []) + [Tagged(tags[|tags| - 1])]
    else []
  }

  lemma AppendedArgument(done: seq<Argument>, a: Argument)
    ensures TagsOf(done + [a]) == TagsOf(done) + if a.Tagged? then [a.tag] else []
    ensures PositionalsOf(done + [a]) == PositionalsOf(done) + if a.Positional? then [a.arg] else []
    ensures Ordered(done + [a]) <==> Ordered(done) && (a.Tagged? ==> PositionalsOf(done) == [])
  {
    assert (done + [a])[..|done|] == done;
  }

  lemma {:induction false} ArgumentsOfOp(tags: seq<Tag>, args: seq<Arg>)
    ensures var r := ArgumentsOf(tags, args);
            Ordered(r) && TagsOf(r) == tags && PositionalsOf(r) == args
    decreases |tags| + |args|
  {
    hide Ordered, TagsOf, PositionalsOf;
    if args != [] {
      var init := args[..|args| - 1];
      assert args == init + [args[|args| - 1]];
      ArgumentsOfOp(tags, init);
      AppendedArgument(ArgumentsOf(tags, init), Positional(args[|args| - 1]));
    } else if tags != [] {
      var init := tags[..|tags| - 1];
      assert tags == init + [tags[|tags| - 1]];
      ArgumentsOfOp(init, []);
      AppendedArgument(ArgumentsOf(init, []), Tagged(tags[|tags| - 1]));
    } else {
      NoArguments();
    }
  }

  lemma NoArguments()
    ensures Ordered([]) && TagsOf([]) == [] && PositionalsOf([]) == []
  {
  }

  lemma {:induction false} ArgumentsFit(tags: seq<Tag>, args: seq<Arg>)
    requires forall i | 0 <= i < |args| :: ArgFits(args[i])
    ensures forall a | a in ArgumentsOf(tags, args) && a.Positional? :: ArgFits(a.arg)
    decreases |tags| + |args|
  {
    hide ArgFits;
    if args != [] {
      ArgumentsFit(tags, args[..|args| - 1]);
    } else if tags != [] {
      ArgumentsFit(tags[..|tags| - 1], []);
    }
  }

  method GenerateOp(block: BinaryBlock, op: Op)
    requires OpFits(op)
    modifies block
    ensures block.data == old(block.data) + OpBytes(op)
  {
    hide OptionalBytes, ArgsBytes, ArgFits, TagsFit;
    var _ := block.EmitByte(op.code);
    ArgumentsOfOp(op.tags, op.args);
    ArgumentsFit(op.tags, op.args);
    var ok := GenerateArguments(block, ArgumentsOf(op.tags, op.args));
    Assoc(old(block.data), [op.code], OptionalBytes(op.tags) + ArgsBytes(op.args));
  }

  // Emits a jump whose target is not known yet, and remembers its slot.
  method EmitOpenJump(block: BinaryBlock, list: JumpList, op: Byte)
    modifies block, list
    ensures block.data == old(block.data) + ([op] + Slot(None, |old(block.data)| + 1))
    ensures list.jumps == old(list.jumps) + [|old(block.data)| + 1]
  {
    hide OffsetBytes;
    var _ := block.EmitByte(op);
    var slot := block.EmitOffset(0);
    list.Add(slot);
    Assoc(old(block.data), [op], OffsetBytes(0));
  }

  method GenerateTest(block: BinaryBlock, t: Test, list: JumpList, jump: bool)
    requires TestFits(t) && |block.data| + TestSize(t, jump) < OFFSET_LIMIT
    modifies block, list
    ensures block.data == old(block.data) + TestCode(t, |old(block.data)|, None, jump)
    ensures list.jumps == old(list.jumps) + Slots(t, |old(block.data)|, jump)
    decreases t, 3
  {
    hide OpBytes, OpFits, Slot;
    match t
    case Leaf(op) =>
      GenerateOp(block, op);
      EmitOpenJump(block, list, if jump then JMPTRUE else JMPFALSE);
      Assoc(old(block.data), OpBytes(op),
            [if jump then JMPTRUE else JMPFALSE] + Slot(None, |old(block.data)| + |OpBytes(op)| + 1));
    case True =>
      if jump { EmitOpenJump(block, list, JMP); }
    case False =>
      if !jump { EmitOpenJump(block, list, JMP); }
    case Not(t') =>
      GenerateTest(block, t', list, !jump);
    case AnyOf(ts) =>
      GenerateTestList(block, ts, list, true, jump);
    case AllOf(ts) =>
      GenerateTestList(block, ts, list, false, jump);
  }

  // The members of anyof and allof, all leaving through `list`.
  method GenerateTests(block: BinaryBlock, ts: seq<Test>, list: JumpList, jump: bool)
    requires TestsFit(ts) && |block.data| + TestsSize(ts, jump) < OFFSET_LIMIT
    modifies block, list
    ensures block.data == old(block.data) + TestsCode(ts, |old(block.data)|, None, jump)
    ensures list.jumps == old(list.jumps) + TestsSlots(ts, |old(block.data)|, jump)
    decreases ts, 0
  {
    hide TestFits, TestCode, TestSize, Slots;
    ghost var base, jumps := block.data, list.jumps;
    var i := 0;
    while i < |ts|
      invariant 0 <= i <= |ts| && TestsFit(ts[i..])
      invariant |block.data| + TestsSize(ts[i..], jump) == |base| + TestsSize(ts, jump)
      invariant block.data + TestsCode(ts[i..], |block.data|, None, jump) == base + TestsCode(ts, |base|, None, jump)
      invariant list.jumps + TestsSlots(ts[i..], |block.data|, jump) == jumps + TestsSlots(ts, |base|, jump)
    {
      ghost var before, slots := block.data, list.jumps;
      ghost var n := TestSize(ts[i], jump);
      assert ts[i..][1..] == ts[i + 1..];
      GenerateTest(block, ts[i], list, jump);
      Assoc(before, TestCode(ts[i], |before|, None, jump), TestsCode(ts[i + 1..], |before| + n, None, jump));
      assert slots + (Slots(ts[i], |before|, jump) + TestsSlots(ts[i + 1..], |before| + n, jump))
          == slots + Slots(ts[i], |before|, jump) + TestsSlots(ts[i + 1..], |before| + n, jump);
      i := i + 1;
    }
  }

  method GenerateTestList(block: BinaryBlock, ts: seq<Test>, list: JumpList, stop: bool, jump: bool)
    requires ts != [] && TestsFit(ts) && |block.data| + ListSize(ts, stop, jump) < OFFSET_LIMIT
    modifies block, list
    ensures block.data == old(block.data) + ListCode(ts, |old(block.data)|, None, stop, jump)
    ensures list.jumps == old(list.jumps) + ListSlots(ts, |old(block.data)|, stop, jump)
    decreases ts, 2
  {
    hide TestCode, TestSize, Slots, TestsCode, TestsSize, TestsSlots, Slot;
    if |ts| == 1 {
      GenerateTest(block, ts[0], list, jump);
    } else if jump == stop {
      GenerateTests(block, ts, list, stop);
    } else {
      GenerateDeferred(block, ts, list, stop);
    }
  }

  // Members that decide the list jump behind a final jump, which takes the other way out.
  method GenerateDeferred(block: BinaryBlock, ts: seq<Test>, list: JumpList, stop: bool)
    requires |ts| > 1 && TestsFit(ts) && |block.data| + ListSize(ts, stop, !stop) < OFFSET_LIMIT
    modifies block, list
    ensures block.data == old(block.data) + ListCode(ts, |old(block.data)|, None, stop, !stop)
    ensures list.jumps == old(list.jumps) + ListSlots(ts, |old(block.data)|, stop, !stop)
    decreases ts, 1
  {
    hide TestCode, TestSize, Slots, TestsCode, TestsSize, TestsSlots, Slot, Patches, Inside, ResolveAll, TestsFit;
    ghost var base := block.data;
    ghost var n := TestsSize(ts, stop);
    ghost var end := |base| + n + 5;
    var deciding := new JumpList(block);
    GenerateTests(block, ts, deciding, stop);
    assert deciding.jumps == TestsSlots(ts, |base|, stop);
    EmitOpenJump(block, list, JMP);
    ghost var last := [JMP] + Slot(None, |base| + n + 1);
    PatchTests(base, ts, None, end, stop, last);
    PatchedFacts(base, TestsCode(ts, |base|, None, stop), TestsCode(ts, |base|, Some(end), stop), deciding.jumps, end,
                 last);
    deciding.Resolve();
    Assoc(base, TestsCode(ts, |base|, Some(end), stop), last);
  }

  lemma PatchedFacts(before: seq<Byte>, old': seq<Byte>, new': seq<Byte>, slots: seq<nat>, target: nat,
                     after: seq<Byte>)
    requires Patches(before, old', new', slots, target, after)
    ensures Inside(slots, 0, |before + old' + after|)
    ensures ResolveAll(before + old' + after, slots, target) == before + new' + after
  {
  }

  // ----- Chains of branches -----

  // What cmd-if.c keeps of each branch: whether it emitted an exit jump, and where.
  datatype IfContext = IfContext(jumpGenerated: bool, exitJump: nat)

  function ExitSlot(v: VCommand, at: nat): nat
    requires v.VCond?
  {
    at + ConditionSize(v) + (if v.cond == Never then 0 else BlockSize(v.block)) + 1
  }

  function ContextOf(v: VCommand, at: nat): IfContext
  {
    if NeedsExit(v) then IfContext(true, ExitSlot(v, at)) else IfContext(false, 0)
  }

  function Front(arms: seq<VCommand>): seq<VCommand>
    requires arms != []
  {
    arms[..|arms| - 1]
  }

  function Last(arms: seq<VCommand>): VCommand
    requires arms != []
  {
    arms[|arms| - 1]
  }

  function ArmsSize(arms: seq<VCommand>): nat
  {
    if arms == [] then 0 else ArmsSize(Front(arms)) + CommandSize(Last(arms))
  }

  // Consecutive branches that all leave through `exit`.
  function ArmsCode(arms: seq<VCommand>, at: nat, exit: Option<nat>): (r: seq<Byte>)
    ensures |r| == ArmsSize(arms)
  {
    if arms == [] then []
    else ArmsCode(Front(arms), at, exit) + CommandCode(Last(arms), at + ArmsSize(Front(arms)), exit)
  }

  function Contexts(arms: seq<VCommand>, at: nat): (r: seq<IfContext>)
    ensures |r| == |arms|
  {
    if arms == [] then [] else Contexts(Front(arms), at) + [ContextOf(Last(arms), at + ArmsSize(Front(arms)))]
  }

  lemma {:induction false} ContextAt(arms: seq<VCommand>, at: nat, k: nat)
    requires k < |arms|
    ensures Contexts(arms, at)[k] == ContextOf(arms[k], at + ArmsSize(arms[..k]))
    decreases |arms|
  {
    hide ContextOf, CommandSize;
    if k < |arms| - 1 {
      ContextAt(Front(arms), at, k);
      assert Front(arms)[..k] == arms[..k];
    }
  }

  // Only the exit slot of a branch depends on where it leaves to.
  lemma PatchExit(before: seq<Byte>, v: VCommand, out: Option<nat>, target: nat, after: seq<Byte>)
    ensures var at := |before|;
            if NeedsExit(v) then
              && at <= ExitSlot(v, at) && ExitSlot(v, at) + 4 <= at + CommandSize(v)
              && WithOffset(before + CommandCode(v, at, out) + after, ExitSlot(v, at), target)
                 == before + CommandCode(v, at, Some(target)) + after
            else
              CommandCode(v, at, out) == CommandCode(v, at, Some(target))
  {
    hide TestCode, BlockCode, OpBytes, OffsetBytes, WithOffset;
    if NeedsExit(v) {
      var at, c := |before|, ConditionSize(v);
      var test := TestCode(v.test, at, Some(at + CommandSize(v)), false);
      var body := BlockCode(v.block, at + c);
      var slot := ExitSlot(v, at);
      var head := test + body + [JMP];
      assert CommandCode(v, at, out) == head + Slot(out, slot);
      assert CommandCode(v, at, Some(target)) == head + Slot(Some(target), slot);
      Assoc(before, head, Slot(out, slot));
      Assoc(before, head, Slot(Some(target), slot));
      PatchSlot(before + head, Slot(out, slot), after, target);
    }
  }

  method ResolveExit(block: BinaryBlock, context: IfContext,
                     ghost before: seq<Byte>, ghost v: VCommand, ghost out: Option<nat>, ghost after: seq<Byte>)
    requires block.data == before + CommandCode(v, |before|, out) + after && |block.data| < OFFSET_LIMIT
    requires context == ContextOf(v, |before|)
    modifies block
    ensures block.data == before + (CommandCode(v, |before|, Some(|old(block.data)|)) + after)
  {
    hide CommandCode, CommandSize, WithOffset, NeedsExit, ExitSlot;
    PatchExit(before, v, out, |block.data|, after);
    Assoc(before, CommandCode(v, |before|, Some(|block.data|)), after);
    if context.jumpGenerated {
      block.ResolveOffset(context.exitJump);
    }
  }

  // Moves the last of the first k + 1 branches to the part that follows them.
  lemma SplitArms(pre: seq<Byte>, arms: seq<VCommand>, k: nat, exit: Option<nat>, after: seq<Byte>)
    requires k < |arms|
    ensures var at := |pre| + ArmsSize(arms[..k]);
            && pre + ArmsCode(arms[..k + 1], |pre|, exit) + after
               == pre + ArmsCode(arms[..k], |pre|, exit) + CommandCode(arms[k], at, exit) + after
            && ArmsCode(arms[..k + 1], |pre|, exit) + after
               == ArmsCode(arms[..k], |pre|, exit) + (CommandCode(arms[k], at, exit) + after)
  {
    hide CommandCode, CommandSize, ArmsCode, ArmsSize;
    var at := |pre| + ArmsSize(arms[..k]);
    UnfoldArms(arms, k, |pre|, exit);
    Assoc(pre, ArmsCode(arms[..k], |pre|, exit), CommandCode(arms[k], at, exit));
    Assoc(ArmsCode(arms[..k], |pre|, exit), CommandCode(arms[k], at, exit), after);
  }

  // Walks back through the contexts of a chain and points their exit jumps here. Exit jumps that
  // lead here already are written again as they are.
  method ResolveExits(block: BinaryBlock, chain: seq<IfContext>,
                      ghost pre: seq<Byte>, ghost arms: seq<VCommand>, ghost out: Option<nat>, ghost tail: seq<Byte>)
    requires block.data == pre + ArmsCode(arms, |pre|, out) + tail && |block.data| < OFFSET_LIMIT
    requires chain == Contexts(arms, |pre|)
    modifies block
    ensures block.data == pre + ArmsCode(arms, |pre|, Some(|old(block.data)|)) + tail
    ensures out == Some(|old(block.data)|) ==> block.data == old(block.data)
  {
    hide CommandCode, CommandSize, Contexts, ContextOf, ArmsCode, ArmsSize;
    ghost var target := |block.data|;
    ghost var rest := tail;
    var k := |chain|;
    assert arms[..|arms|] == arms;
    while k > 0
      invariant 0 <= k <= |chain| == |arms|
      invariant |block.data| == target
      invariant block.data == pre + ArmsCode(arms[..k], |pre|, out) + rest
      invariant ArmsCode(arms, |pre|, Some(target)) + tail == ArmsCode(arms[..k], |pre|, Some(target)) + rest
    {
      k := k - 1;
      ghost var before := pre + ArmsCode(arms[..k], |pre|, out);
      ContextAt(arms, |pre|, k);
      SplitArms(pre, arms, k, out, rest);
      SplitArms(pre, arms, k, Some(target), rest);
      ResolveExit(block, chain[k], before, arms[k], out, rest);
      rest := CommandCode(arms[k], |before|, Some(target)) + rest;
    }
    NoArms(arms, pre, out, rest);
    NoArms(arms, pre, Some(target), rest);
    Assoc(pre, ArmsCode(arms, |pre|, Some(target)), tail);
  }

  lemma {:induction false} NoArms(arms: seq<VCommand>, pre: seq<Byte>, exit: Option<nat>, rest: seq<Byte>)
    ensures pre + ArmsCode(arms[..0], |pre|, exit) + rest == pre + rest
    ensures ArmsCode(arms[..0], |pre|, exit) + rest == rest
  {
    hide CommandCode, CommandSize;
    var none := arms[..0];
    assert none == [] && ArmsCode(none, |pre|, exit) == [];
  }

  lemma UnfoldArms(arms: seq<VCommand>, k: nat, at: nat, exit: Option<nat>)
    requires k < |arms|
    ensures ArmsCode(arms[..k + 1], at, exit)
            == ArmsCode(arms[..k], at, exit) + CommandCode(arms[k], at + ArmsSize(arms[..k]), exit)
    ensures ArmsSize(arms[..k + 1]) == ArmsSize(arms[..k]) + CommandSize(arms[k])
  {
    hide CommandCode, CommandSize;
    assert Front(arms[..k + 1]) == arms[..k];
  }

  // ----- Blocks -----

  // Branches continue a chain that is `open`, and an else that can never run follows a branch
  // that always does.
  predicate Closed(vs: seq<VCommand>, open: bool, always: bool)
    decreases vs
  {
    vs == [] ||
    match vs[0]
    case VAction(_) => Closed(vs[1..], false, false)
    case VStop => Closed(vs[1..], false, false)
    case VCond(kind, cond, _, _, _, block) =>
      && (kind != If ==> open)
      && (kind == Else && cond == Never ==> always)
      && Closed(block, false, false)
      && Closed(vs[1..], kind != Else, (kind != If && always) || cond == Always)
  }

  lemma {:induction false} FoldBlockCloses(cs: seq<Command>, chain: seq<Verdict>, open: bool, always: bool)
    requires FoldBlock(cs, chain).Some? && (chain != [] ==> open) && (Always in chain ==> always)
    ensures Closed(FoldBlock(cs, chain).value, open, always)
    decreases cs
  {
    hide FoldTest;
    if cs != [] {
      var vs := FoldBlock(cs, chain).value;
      match cs[0]
      case Action(_) => assert vs[1..] == FoldBlock(cs[1..], []).value; FoldBlockCloses(cs[1..], [], false, false);
      case Stop => assert vs[1..] == FoldBlock(cs[1..], []).value; FoldBlockCloses(cs[1..], [], false, false);
      case Cond(kind, _, block) =>
        var r := FoldCondition(cs[0], chain);
        var next := ChainAfter(cs[0], r.0, chain);
        assert vs[1..] == FoldBlock(cs[1..], next).value;
        FoldBlockCloses(cs[1..], next, kind != Else, (kind != If && always) || r.0 == Always);
        if r.0 != Never { FoldBlockCloses(block, [], false, false); }
    }
  }

  // A validated block, as the generator expects it.
  predicate Generable(vs: seq<VCommand>) { VFits(vs) && Closed(vs, false, false) }

  function BodyCode(v: VCommand, at: nat): (r: seq<Byte>)
    requires v.VCond?
    ensures |r| == if v.cond == Never then 0 else BlockSize(v.block)
  {
    if v.cond == Never then [] else BlockCode(v.block, at)
  }

  function OpenExit(v: VCommand, at: nat): (r: seq<Byte>)
    ensures |r| == ExitSize(v)
  {
    if NeedsExit(v) then [JMP] + Slot(None, at + 1) else []
  }

  lemma OpenBranchCode(v: VCommand, at: nat)
    requires v.VCond?
    ensures var start := at + ConditionSize(v);
            var body := BodyCode(v, start);
            CommandCode(v, at, None) == ConditionCode(v, at) + (body + OpenExit(v, start + |body|))
  {
    hide BlockCode, TestCode, Slot, BlockSize, TestSize;
  }

  lemma {:induction false} LeanFits(t: Test)
    requires Lean(t)
    ensures TestFits(t)
    decreases t, 1
  {
    hide OpFits;
    match t
    case Leaf(_) =>
    case Not(t') => LeanFits(t');
    case AnyOf(ts) => LeanAllFit(ts);
    case AllOf(ts) => LeanAllFit(ts);
  }

  lemma {:induction false} LeanAllFit(ts: seq<Test>)
    requires LeanAll(ts)
    ensures TestsFit(ts)
    decreases ts, 0
  {
    hide Lean;
    if ts != [] {
      LeanFits(ts[0]);
      LeanAllFit(ts[1..]);
    }
  }

  // The condition of a branch, its false jumps still open.
  method GenerateCondition(block: BinaryBlock, v: VCommand, jumps: JumpList)
    requires v.VCond? && (v.cond == Unknown && v.kind != Else ==> Lean(v.test)) && jumps.jumps == []
    requires |block.data| + ConditionSize(v) < OFFSET_LIMIT
    modifies block, jumps
    ensures var at := |old(block.data)|;
            if v.cond == Unknown && v.kind != Else then
              block.data == old(block.data) + TestCode(v.test, at, None, false)
                && jumps.jumps == Slots(v.test, at, false)
            else block.data == old(block.data) && jumps.jumps == []
  {
    hide TestCode, Slots, TestSize;
    if v.cond == Unknown && v.kind != Else {
      LeanFits(v.test);
      GenerateTest(block, v.test, jumps, false);
    }
  }

  // Closes the false jumps of a branch whose code is complete.
  method CloseCondition(block: BinaryBlock, v: VCommand, jumps: JumpList, ghost base: seq<Byte>, ghost rest: seq<Byte>)
    requires v.VCond? && jumps.block == block && v.kind != Else && v.cond == Unknown
    requires ConditionSize(v) + |rest| == CommandSize(v) && |base| + CommandSize(v) < OFFSET_LIMIT
    requires block.data == base + TestCode(v.test, |base|, None, false) + rest
    requires jumps.jumps == Slots(v.test, |base|, false)
    modifies block
    ensures block.data == base + (ConditionCode(v, |base|) + rest)
  {
    hide TestCode, Slots, TestSize, Patches, Inside, ResolveAll, CommandSize;
    ghost var target := |block.data|;
    PatchTest(base, v.test, None, target, false, rest);
    PatchedFacts(base, TestCode(v.test, |base|, None, false), TestCode(v.test, |base|, Some(target), false),
                 jumps.jumps, target, rest);
    jumps.Resolve();
    Assoc(base, ConditionCode(v, |base|), rest);
  }

  // if and elsif. `pre` is the code before the chain and `arms` its branches so far, whose exit
  // jumps lead to `out`.
  method GenerateIf(block: BinaryBlock, v: VCommand, chain: seq<IfContext>,
                    ghost pre: seq<Byte>, ghost arms: seq<VCommand>, ghost out: Option<nat>)
    returns (context: IfContext)
    requires v.VCond? && v.kind != Else && Generable(v.block) && (v.cond == Unknown ==> Lean(v.test))
    requires v.cond != Unset && |block.data| + CommandSize(v) < OFFSET_LIMIT
    requires block.data == pre + ArmsCode(arms, |pre|, out) && chain == Contexts(arms, |pre|)
    modifies block
    ensures var out' := if !v.hasNext || v.cond == Always then Some(|block.data|) else out;
            block.data == pre + ArmsCode(arms, |pre|, out') + CommandCode(v, |pre| + ArmsSize(arms), None)
    ensures context == ContextOf(v, |pre| + ArmsSize(arms))
    decreases v, 1
  {
    hide TestCode, BlockCode, CommandCode, Contexts, ArmsCode, ArmsSize, Slots, TestSize, BlockSize, Generable, Lean,
      Slot;
    ghost var base := block.data;
    ghost var at, start := |base|, |base| + ConditionSize(v);
    ghost var body := BodyCode(v, start);
    var jumps := new JumpList(block);
    GenerateCondition(block, v, jumps);
    ghost var test := block.data[at..];
    assert block.data == base + test;
    GenerateBody(block, v);
    assert block.data == base + test + body;
    context := IfContext(false, 0);
    if !v.hasNext || v.cond == Always {
      Assoc(base, test, body);
      ResolveExits(block, chain, pre, arms, out, test + body);
      base := pre + ArmsCode(arms, |pre|, Some(|block.data|));
      Assoc(base, test, body);
      assert body == body + OpenExit(v, start + |body|);
    } else if v.cond == Unknown && !v.exits {
      context := EmitExit(block, v);
      Assoc(base + test, body, OpenExit(v, start + |body|));
    } else {
      assert body == body + OpenExit(v, start + |body|);
    }
    ghost var rest := body + OpenExit(v, start + |body|);
    assert block.data == base + test + rest;
    if v.cond == Unknown {
      CloseCondition(block, v, jumps, base, rest);
    } else {
      Assoc(base, test, rest);
    }
    OpenBranchCode(v, at);
  }

  method EmitExit(block: BinaryBlock, v: VCommand) returns (context: IfContext)
    requires NeedsExit(v)
    modifies block
    ensures block.data == old(block.data) + OpenExit(v, |old(block.data)|)
    ensures context == IfContext(true, |old(block.data)| + 1)
  {
    hide OffsetBytes;
    var _ := block.EmitByte(JMP);
    var slot := block.EmitOffset(0);
    context := IfContext(true, slot);
    Assoc(old(block.data), [JMP], OffsetBytes(0));
  }

  method GenerateBody(block: BinaryBlock, v: VCommand)
    requires v.VCond? && Generable(v.block)
    requires |block.data| + (if v.cond == Never then 0 else BlockSize(v.block)) < OFFSET_LIMIT
    modifies block
    ensures block.data == old(block.data) + BodyCode(v, |old(block.data)|)
    decreases v, 0
  {
    hide BlockCode, BlockSize, Generable;
    if v.cond != Never {
      GenerateBlock(block, v.block);
    }
  }

  method GenerateElse(block: BinaryBlock, v: VCommand, chain: seq<IfContext>,
                      ghost pre: seq<Byte>, ghost arms: seq<VCommand>, ghost out: Option<nat>)
    requires v.VCond? && v.kind == Else && Generable(v.block)
    requires |block.data| + CommandSize(v) < OFFSET_LIMIT
    requires block.data == pre + ArmsCode(arms, |pre|, out) && chain == Contexts(arms, |pre|)
    modifies block
    ensures var out' := if v.cond != Never then Some(|block.data|) else out;
            block.data == pre + ArmsCode(arms, |pre|, out') + CommandCode(v, |pre| + ArmsSize(arms), None)
    decreases v, 1
  {
    hide BlockCode, CommandCode, Contexts, ArmsCode, ArmsSize, BlockSize, Generable;
    ghost var at := |block.data|;
    OpenBranchCode(v, at);
    assert CommandCode(v, at, None) == BodyCode(v, at);
    if v.cond != Never {
      GenerateBody(block, v);
      ResolveExits(block, chain, pre, arms, out, BodyCode(v, at));
    }
  }

  predicate AnyAlways(arms: seq<VCommand>)
  {
    arms != [] && ((Last(arms).VCond? && Last(arms).cond == Always) || AnyAlways(Front(arms)))
  }

  // The first n commands of `vs` form one chain, or are a single command.
  ghost predicate ChainOf(vs: seq<VCommand>, n: nat)
  {
    n <= |vs| && forall j | 0 < j < n :: vs[j].Continues()
  }

  // A whole chain, each of whose branches leaves to its end, is what the block begins with.
  lemma {:induction false} ChainCode(vs: seq<VCommand>, n: nat, at: nat)
    requires ChainOf(vs, n) && n >= 1 && !NextContinues(vs[n..])
    ensures var end := at + ArmsSize(vs[..n]);
            BlockCode(vs, at) == ArmsCode(vs[..n], at, Some(end)) + BlockCode(vs[n..], end)
    ensures n > 0 && CommandSize(vs[0]) + ChainTail(vs[1..]) == ArmsSize(vs[..n])
    decreases n
  {
    hide CommandCode, CommandSize, ArmsCode, ArmsSize, BlockCode, ChainTail, ChainOf;
    ChainParts(vs, n);
    var rest, m, arms := vs[1..], CommandSize(vs[0]), vs[..n];
    var end := at + ArmsSize(arms);
    BlockFirst(vs, at);
    ArmsFromFront(arms, at, Some(end));
    assert arms[1..] == rest[..n - 1];
    if n == 1 {
      ArmsNone(at + m, Some(end));
      assert CommandCode(vs[0], at, Some(end)) + [] == CommandCode(vs[0], at, Some(end));
    } else {
      ChainCode(rest, n - 1, at + m);
      Assoc(CommandCode(vs[0], at, Some(end)), ArmsCode(rest[..n - 1], at + m, Some(end)), BlockCode(vs[n..], end));
    }
  }

  lemma BlockFirst(vs: seq<VCommand>, at: nat)
    requires vs != []
    ensures var n := CommandSize(vs[0]);
            BlockCode(vs, at)
            == CommandCode(vs[0], at, Some(at + n + ChainTail(vs[1..]))) + BlockCode(vs[1..], at + n)
  {
    hide CommandCode, CommandSize, ChainTail;
  }

  lemma ChainParts(vs: seq<VCommand>, n: nat)
    requires ChainOf(vs, n) && n >= 1 && !NextContinues(vs[n..])
    ensures n <= |vs| && vs[n..] == vs[1..][n - 1..]
    ensures n == 1 ==> ChainTail(vs[1..]) == 0
    ensures n > 1 ==> ChainOf(vs[1..], n - 1) && vs[1..] != []
                      && ChainTail(vs[1..]) == CommandSize(vs[1..][0]) + ChainTail(vs[1..][1..])
  {
    hide CommandSize;
    if n > 1 { assert vs[1].Continues(); }
  }

  lemma {:induction false} ArmsFromFront(arms: seq<VCommand>, at: nat, exit: Option<nat>)
    requires arms != []
    ensures var n := CommandSize(arms[0]);
            && ArmsCode(arms, at, exit) == CommandCode(arms[0], at, exit) + ArmsCode(arms[1..], at + n, exit)
            && ArmsSize(arms) == n + ArmsSize(arms[1..])
    decreases |arms|
  {
    hide CommandCode, CommandSize, ArmsCode, ArmsSize, Front, Last;
    var n, tail := CommandSize(arms[0]), arms[1..];
    ArmsLast(arms, at, exit);
    FrontAndTail(arms);
    if |arms| == 1 {
      ArmsNone(at, exit);
      ArmsNone(at + n, exit);
      assert [] + CommandCode(arms[0], at, exit) == CommandCode(arms[0], at, exit) + [];
    } else {
      var front := Front(arms);
      ArmsFromFront(front, at, exit);
      ArmsLast(tail, at + n, exit);
      Assoc(CommandCode(arms[0], at, exit), ArmsCode(Front(tail), at + n, exit),
            CommandCode(Last(arms), at + ArmsSize(front), exit));
    }
  }

  lemma ArmsNone(at: nat, exit: Option<nat>)
    ensures ArmsCode([], at, exit) == [] && ArmsSize([]) == 0
  {
  }

  lemma ArmsLast(arms: seq<VCommand>, at: nat, exit: Option<nat>)
    requires arms != []
    ensures var front, last := Front(arms), Last(arms);
            && ArmsCode(arms, at, exit) == ArmsCode(front, at, exit) + CommandCode(last, at + ArmsSize(front), exit)
            && ArmsSize(arms) == ArmsSize(front) + CommandSize(last)
  {
    hide CommandCode, CommandSize;
  }

  lemma FrontAndTail(arms: seq<VCommand>)
    requires arms != []
    ensures |Front(arms)| == |arms| - 1
    ensures |arms| == 1 ==> Front(arms) == [] && arms[1..] == [] && Last(arms) == arms[0]
    ensures |arms| > 1 ==> Front(arms) != [] && Front(arms)[0] == arms[0]
                           && Front(arms)[1..] == Front(arms[1..]) && Last(arms[1..]) == Last(arms)
  {
  }

  // Where the exit jumps of a chain lead while its next command is about to be generated: here,
  // once a branch that always runs or the end of the chain has been passed.
  ghost function OutOf(arms: seq<VCommand>, rest: seq<VCommand>, here: nat): Option<nat>
  {
    if AnyAlways(arms) || !NextContinues(rest) then Some(here) else None
  }

  ghost predicate DeadAfterAlways(arms: seq<VCommand>, rest: seq<VCommand>)
  {
    AnyAlways(arms) ==> DeadTail(rest)
  }

  // Appending a generated command to its chain.
  lemma {:induction false} ExtendArms(pre: seq<Byte>, arms: seq<VCommand>, v: VCommand, exit: Option<nat>)
    requires NeedsExit(v) ==> exit == None
    ensures pre + ArmsCode(arms, |pre|, exit) + CommandCode(v, |pre| + ArmsSize(arms), None)
            == pre + ArmsCode(arms + [v], |pre|, exit)
    ensures Contexts(arms + [v], |pre|) == Contexts(arms, |pre|) + [ContextOf(v, |pre| + ArmsSize(arms))]
    ensures AnyAlways(arms + [v]) <==> AnyAlways(arms) || (v.VCond? && v.cond == Always)
    ensures ArmsSize(arms + [v]) == ArmsSize(arms) + CommandSize(v)
  {
    hide CommandCode, CommandSize, ContextOf, NeedsExit;
    var at := |pre| + ArmsSize(arms);
    assert Front(arms + [v]) == arms && Last(arms + [v]) == v;
    if exit.Some? { SameWithoutExit(v, at, exit.value); }
    Assoc(pre, ArmsCode(arms, |pre|, exit), CommandCode(v, at, exit));
  }

  lemma SameWithoutExit(v: VCommand, at: nat, exit: nat)
    requires !NeedsExit(v)
    ensures CommandCode(v, at, None) == CommandCode(v, at, Some(exit))
  {
    hide TestCode, BlockCode, OpBytes, Slot;
  }

  // One command of a block. `arms` are the commands of its chain so far. Behind a branch that always
  // runs nothing is emitted, and resolving the exit jumps once more writes the same targets.
  method GenerateCommand(block: BinaryBlock, v: VCommand, chain: seq<IfContext>,
                         ghost pre: seq<Byte>, ghost arms: seq<VCommand>, ghost rest: seq<VCommand>)
    returns (context: IfContext)
    requires VFits([v] + rest) && (v.VCond? ==> VCondFits(v, rest) && Generable(v.block))
    requires DeadAfterAlways(arms, [v] + rest) && (arms != [] ==> v.Continues())
    requires v.VCond? && v.kind == Else && v.cond == Never ==> AnyAlways(arms)
    requires !v.VCond? ==> !NextContinues(rest)
    requires |block.data| + CommandSize(v) < OFFSET_LIMIT
    requires block.data == pre + ArmsCode(arms, |pre|, OutOf(arms, [v] + rest, |block.data|))
    requires chain == Contexts(arms, |pre|)
    modifies block
    ensures block.data == pre + ArmsCode(arms + [v], |pre|, OutOf(arms + [v], rest, |block.data|))
    ensures chain + [context] == Contexts(arms + [v], |pre|)
    ensures DeadAfterAlways(arms + [v], rest)
    ensures |block.data| == |old(block.data)| + CommandSize(v)
    ensures AnyAlways(arms) ==> block.data == old(block.data)
    decreases v, 2
  {
    hide VFits, Generable, CommandCode, CommandSize, ArmsCode, ArmsSize, Contexts, BlockCode, Lean, OpFits, AnyAlways;
    hide OpBytes, ContextOf, DeadTail, DeadAfterAlways;
    ghost var out := if AnyAlways(arms) then Some(|block.data|) else None;
    ghost var at := |pre| + ArmsSize(arms);
    ArmsStart(arms, |pre|, OutOf(arms, [v] + rest, |block.data|), out);
    context := IfContext(false, 0);
    LeafCommand(v, rest, at);
    match v {
      case VAction(op) =>
        GenerateOp(block, op);
      case VStop =>
        var _ := block.EmitByte(STOP);
      case VCond(kind, _, _, _, _, _) =>
        if kind == Else {
          GenerateElse(block, v, chain, pre, arms, out);
          out := if v.cond != Never then Some(|block.data|) else out;
        } else {
          context := GenerateIf(block, v, chain, pre, arms, out);
          out := if !v.hasNext || v.cond == Always then Some(|block.data|) else out;
        }
    }
    assert block.data == pre + ArmsCode(arms, |pre|, out) + CommandCode(v, at, None);
    ghost var exit := OutOf(arms + [v], rest, |block.data|);
    ExtendArms(pre, arms, v, if NeedsExit(v) then None else exit);
    ArmsStart(arms, |pre|, out, exit);
    DeadRest(arms, v, rest);
  }

  // With no branch before it, a chain has no exit to lead anywhere.
  lemma {:induction false} ArmsStart(arms: seq<VCommand>, at: nat, a: Option<nat>, b: Option<nat>)
    ensures arms == [] ==> ArmsCode(arms, at, a) == ArmsCode(arms, at, b) && !AnyAlways(arms)
  {
  }

  lemma LeafCommand(v: VCommand, rest: seq<VCommand>, at: nat)
    requires VFits([v] + rest)
    ensures v.VAction? ==> OpFits(v.op) && CommandCode(v, at, None) == OpBytes(v.op)
    ensures v.VStop? ==> CommandCode(v, at, None) == [STOP]
    ensures !v.VCond? || v.kind == Else ==> !NeedsExit(v) && ContextOf(v, at) == IfContext(false, 0)
    ensures v.VCond? && v.cond == Never ==> CommandSize(v) == 0
  {
    hide BlockCode, BlockSize, TestCode;
  }

  lemma DeadRest(arms: seq<VCommand>, v: VCommand, rest: seq<VCommand>)
    requires DeadAfterAlways(arms, [v] + rest) && (arms != [] ==> v.Continues())
    requires v.VCond? ==> VCondFits(v, rest)
    ensures DeadAfterAlways(arms + [v], rest)
    ensures AnyAlways(arms) ==> v.cond == Never
  {
    assert Front(arms + [v]) == arms && Last(arms + [v]) == v;
    assert ([v] + rest)[1..] == rest;
  }

  // The commands before `arms` are out for good; `arms` are out as the part of a chain that is
  // still being generated, and `rest` is to come. `total` is what the code will be.
  ghost predicate Progress(arms: seq<VCommand>, rest: seq<VCommand>, total: seq<Byte>, pre: seq<Byte>, data: seq<Byte>)
  {
    && ChainOf(arms, |arms|)
    && pre + BlockCode(arms + rest, |pre|) == total
    && data == pre + ArmsCode(arms, |pre|, OutOf(arms, rest, |data|))
  }

  // Once the next command starts a chain of its own, everything before it is final.
  lemma {:induction false} ChainDone(arms: seq<VCommand>, rest: seq<VCommand>, total: seq<Byte>, pre: seq<Byte>,
                                     data: seq<Byte>)
    requires Progress(arms, rest, total, pre, data) && !NextContinues(rest)
    ensures data + BlockCode(rest, |data|) == total
    ensures Progress([], rest, total, data, data)
  {
    hide BlockCode, ArmsCode, ArmsSize, AnyAlways;
    NothingStarted(rest, data);
    if arms == [] {
      ArmsEmpty(|pre|, Some(|data|));
      assert arms + rest == rest;
    } else {
      var n := |arms|;
      assert (arms + rest)[..n] == arms && (arms + rest)[n..] == rest;
      ChainCode(arms + rest, n, |pre|);
      Assoc(pre, ArmsCode(arms, |pre|, Some(|data|)), BlockCode(rest, |data|));
    }
  }

  lemma ArmsEmpty(at: nat, exit: Option<nat>)
    ensures ArmsCode([], at, exit) == [] && Contexts([], at) == [] && !AnyAlways([])
  {
  }

  lemma NothingStarted(rest: seq<VCommand>, data: seq<Byte>)
    ensures Progress([], rest, data + BlockCode(rest, |data|), data, data)
  {
    hide BlockCode, ArmsCode;
    ArmsEmpty(|data|, OutOf([], rest, |data|));
    assert [] + rest == rest;
  }

  lemma Advance(arms: seq<VCommand>, v: VCommand, rest: seq<VCommand>, total: seq<Byte>, pre: seq<Byte>,
                data: seq<Byte>, data': seq<Byte>)
    requires Progress(arms, [v] + rest, total, pre, data) && (arms != [] ==> v.Continues())
    requires data' == pre + ArmsCode(arms + [v], |pre|, OutOf(arms + [v], rest, |data'|))
    ensures Progress(arms + [v], rest, total, pre, data')
  {
    hide BlockCode, ArmsCode, OutOf;
    assert arms + [v] + rest == arms + ([v] + rest);
  }

  ghost predicate Ready(arms: seq<VCommand>, rest: seq<VCommand>, open: bool)
  {
    && VFits(rest) && Closed(rest, open, AnyAlways(arms)) && (open ==> arms != [])
    && DeadAfterAlways(arms, rest)
  }

  lemma {:induction false} StartReady(arms: seq<VCommand>, rest: seq<VCommand>, open: bool)
    requires Ready(arms, rest, open) && !NextContinues(rest)
    ensures Ready([], rest, false)
  {
    hide DeadTail, VFits;
  }

  lemma {:induction false} NextReady(arms: seq<VCommand>, v: VCommand, rest: seq<VCommand>, open: bool)
    requires Ready(arms, [v] + rest, open) && (arms != [] ==> v.Continues())
    ensures VFits([v] + rest) && (v.VCond? ==> VCondFits(v, rest) && Generable(v.block))
    ensures v.VCond? && v.kind == Else && v.cond == Never ==> AnyAlways(arms)
    ensures !v.VCond? ==> !NextContinues(rest)
    ensures Ready(arms + [v], rest, v.VCond? && v.kind != Else)
  {
    hide OpFits, DeadTail, VCondFits;
    assert ([v] + rest)[1..] == rest;
    DeadRest(arms, v, rest);
    assert Front(arms + [v]) == arms && Last(arms + [v]) == v;
    if !v.VCond? { ClosedStart(rest, false); }
  }

  lemma ClosedStart(vs: seq<VCommand>, always: bool)
    requires Closed(vs, false, always)
    ensures !NextContinues(vs)
  {
  }

  // The generator produces exactly the layout: every jump it patched has its final target.
  method GenerateBlock(block: BinaryBlock, vs: seq<VCommand>)
    requires Generable(vs) && |block.data| + BlockSize(vs) < OFFSET_LIMIT
    modifies block
    ensures block.data == old(block.data) + BlockCode(vs, |old(block.data)|)
    decreases vs
  {
    hide Progress, Ready, Generable, BlockCode, ArmsCode, Contexts, CommandSize, DeadAfterAlways, VFits, AnyAlways,
      OutOf;
    ghost var total, pre := block.data + BlockCode(vs, |block.data|), block.data;
    ghost var arms: seq<VCommand>, open := [], false;
    var chain: seq<IfContext> := [];
    BlockStart(vs, block.data);
    for i := 0 to |vs|
      invariant Progress(arms, vs[i..], total, pre, block.data) && Ready(arms, vs[i..], open)
      invariant chain == Contexts(arms, |pre|)
      invariant |block.data| + BlockSize(vs[i..]) == |total| < OFFSET_LIMIT
    {
      var v := vs[i];
      assert vs[i..] == [v] + vs[i + 1..];
      if !v.Continues() {
        ChainDone(arms, vs[i..], total, pre, block.data);
        StartReady(arms, vs[i..], open);
        arms, pre, chain, open := [], block.data, [], false;
        ArmsEmpty(|pre|, None);
      }
      ReadyFacts(arms, vs[i..], total, pre, block.data, open);
      NextReady(arms, v, vs[i + 1..], open);
      ghost var before := block.data;
      var context := GenerateCommand(block, v, chain, pre, arms, vs[i + 1..]);
      Advance(arms, v, vs[i + 1..], total, pre, before, block.data);
      chain := chain + [context];
      arms, open := arms + [v], v.VCond? && v.kind != Else;
    }
    ChainDone(arms, vs[|vs|..], total, pre, block.data);
  }

  lemma ReadyFacts(arms: seq<VCommand>, rest: seq<VCommand>, total: seq<Byte>, pre: seq<Byte>, data: seq<Byte>,
                   open: bool)
    requires Progress(arms, rest, total, pre, data) && Ready(arms, rest, open)
    ensures DeadAfterAlways(arms, rest)
    ensures data == pre + ArmsCode(arms, |pre|, OutOf(arms, rest, |data|))
  {
  }

  lemma BlockStart(vs: seq<VCommand>, data: seq<Byte>)
    requires Generable(vs)
    ensures Progress([], vs, data + BlockCode(vs, |data|), data, data) && Ready([], vs, false)
    ensures Contexts([], |data|) == []
  {
    hide BlockCode, ArmsCode, VFits, Progress, DeadTail;
    NothingStarted(vs, data);
    ArmsEmpty(|data|, None);
  }
}
