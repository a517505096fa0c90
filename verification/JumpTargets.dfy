// Every jump in generated code lands on an instruction boundary behind it: one that reading the
// code instruction by instruction, as the dumper does, also reaches.
module JumpTargets {
  import opened BinaryCode
  import opened Bytes
  import opened Operands
  import opened Interpreter
  import opened Script
  import opened Validator
  import opened Layout
  import opened Compiler
  import opened Generator
  import opened Compilation

  // The address behind the instruction at `pc`.
  function NextInstruction(code: seq<Byte>, pc: nat): Option<nat>
  {
    if pc >= |code| then None
    else if IsJump(code[pc]) then if pc + 5 <= |code| then Some(pc + 5) else None
    else if code[pc] == STOP then Some(pc + 1)
    else if IsAction(code[pc]) || IsTest(code[pc]) then
      match OperandsAt(code, pc + 1, code[pc])
      case Corrupt => None
      case Got(_, next) => Some(next)
    else None
  }

  // Reading on from `a`, instruction by instruction, arrives at `b`.
  predicate Sweeps(code: seq<Byte>, a: nat, b: nat)
    decreases b - a
  {
    a == b || (NextInstruction(code, a).Some? && a < NextInstruction(code, a).value <= b
               && Sweeps(code, NextInstruction(code, a).value, b))
  }

  // The jump at `a`, whose next instruction is at `next`, leads to a boundary behind its slot.
  predicate JumpLands(code: seq<Byte>, a: nat, next: nat)
  {
    && OffsetAt(code, a + 1).Got?
    && var target := a + 1 + OffsetAt(code, a + 1).value;
       next <= target && Sweeps(code, next, target)
  }

  // From `a` to `b` there is a whole number of instructions, and all jumps among them land.
  predicate Lands(code: seq<Byte>, a: nat, b: nat)
    decreases b - a
  {
    a == b ||
    (&& NextInstruction(code, a).Some?
     && var next := NextInstruction(code, a).value;
        && a < next <= b
        && (IsJump(code[a]) ==> JumpLands(code, a, next))
        && Lands(code, next, b))
  }

  lemma {:induction false} SweepsOn(code: seq<Byte>, a: nat, b: nat, c: nat)
    requires a <= b <= c && Sweeps(code, a, b) && Sweeps(code, b, c)
    ensures Sweeps(code, a, c)
    decreases b - a
  {
    hide NextInstruction;
    if a != b { SweepsOn(code, NextInstruction(code, a).value, b, c); }
  }

  lemma {:induction false} LandsSweeps(code: seq<Byte>, a: nat, b: nat)
    requires a <= b && Lands(code, a, b)
    ensures Sweeps(code, a, b)
    decreases b - a
  {
    hide NextInstruction, JumpLands;
    if a != b { LandsSweeps(code, NextInstruction(code, a).value, b); }
  }

  lemma {:induction false} LandsOn(code: seq<Byte>, a: nat, b: nat, c: nat)
    requires a <= b <= c && Lands(code, a, b) && Lands(code, b, c)
    ensures Lands(code, a, c)
    decreases b - a
  {
    hide NextInstruction, JumpLands;
    if a != b { LandsOn(code, NextInstruction(code, a).value, b, c); }
  }

  lemma JumpIsInstruction(code: seq<Byte>, at: nat, op: Byte, target: nat)
    requires IsJump(op) && Has(code, at, [op] + Slot(Some(target), at + 1))
    requires at + 5 <= target && target - at < OFFSET_LIMIT
    ensures at + 5 <= |code| && NextInstruction(code, at) == Some(at + 5) && code[at] == op
    ensures OffsetAt(code, at + 1) == Got(target - (at + 1), at + 5)
    ensures Sweeps(code, at + 5, target) ==> Lands(code, at, at + 5)
  {
    hide Has, OffsetBytes, OffsetAt, OperandsAt;
    HasParts(code, at, [op], Slot(Some(target), at + 1));
    HasByte(code, at, [op] + Slot(Some(target), at + 1), 0);
    OffsetRoundTrip(code, at + 1, target - (at + 1));
    HasFits(code, at, [op] + Slot(Some(target), at + 1));
    LandsHere(code, at + 5);
  }

  lemma LandsHere(code: seq<Byte>, at: nat)
    ensures Lands(code, at, at) && Sweeps(code, at, at)
  {
  }

  lemma OpIsInstruction(code: seq<Byte>, at: nat, op: Op)
    requires OpFits(op) && Has(code, at, OpBytes(op)) && NonZeroAt(code, at + |OpBytes(op)|)
    ensures Lands(code, at, at + |OpBytes(op)|)
  {
    hide Has, OperandsAt, ArgsBytes, OptionalBytes, ArgsFit, TagsFit;
    HasFits(code, at, OpBytes(op));
    HasByte(code, at, OpBytes(op), 0);
    BareIsShort(op);
    OpRoundTrip(code, at, op);
    LandsHere(code, at + |OpBytes(op)|);
  }

  lemma {:induction false} TestLands(code: seq<Byte>, t: Test, at: nat, target: nat, jump: bool)
    requires Lean(t) && Has(code, at, TestCode(t, at, Some(target), jump))
    requires at + TestSize(t, jump) <= target && target - at < OFFSET_LIMIT
    requires Sweeps(code, at + TestSize(t, jump), target)
    ensures Lands(code, at, at + TestSize(t, jump))
    decreases t, 1
  {
    hide Has, OpBytes, Slot, OpFits, Lands, Sweeps, OffsetAt;
    match t
    case Leaf(op) =>
      var n := |OpBytes(op)|;
      var branch: Byte := if jump then JMPTRUE else JMPFALSE;
      HasParts(code, at, OpBytes(op), [branch] + Slot(Some(target), at + n + 1));
      JumpIsInstruction(code, at + n, branch, target);
      OpIsInstruction(code, at, op);
      LandsOn(code, at, at + n, at + n + 5);
    case Not(t') => TestLands(code, t', at, target, !jump);
    case AnyOf(ts) => ListLands(code, ts, at, target, true, jump);
    case AllOf(ts) => ListLands(code, ts, at, target, false, jump);
  }

  lemma {:induction false} TestsLand(code: seq<Byte>, ts: seq<Test>, at: nat, target: nat, stop: bool)
    requires LeanAll(ts) && Has(code, at, TestsCode(ts, at, Some(target), stop))
    requires at + TestsSize(ts, stop) <= target && target - at < OFFSET_LIMIT
    requires Sweeps(code, at + TestsSize(ts, stop), target)
    ensures Lands(code, at, at + TestsSize(ts, stop))
    decreases ts, 0
  {
    hide Has, Lean, TestCode, TestSize, Lands, Sweeps;
    if ts == [] {
      LandsHere(code, at);
    } else {
      var n := TestSize(ts[0], stop);
      HasParts(code, at, TestCode(ts[0], at, Some(target), stop), TestsCode(ts[1..], at + n, Some(target), stop));
      TestsLand(code, ts[1..], at + n, target, stop);
      LandsSweeps(code, at + n, at + TestsSize(ts, stop));
      SweepsOn(code, at + n, at + TestsSize(ts, stop), target);
      TestLands(code, ts[0], at, target, stop);
      LandsOn(code, at, at + n, at + TestsSize(ts, stop));
    }
  }

  lemma {:induction false} ListLands(code: seq<Byte>, ts: seq<Test>, at: nat, target: nat, stop: bool, jump: bool)
    requires ts != [] && LeanAll(ts) && Has(code, at, ListCode(ts, at, Some(target), stop, jump))
    requires at + ListSize(ts, stop, jump) <= target && target - at < OFFSET_LIMIT
    requires Sweeps(code, at + ListSize(ts, stop, jump), target)
    ensures Lands(code, at, at + ListSize(ts, stop, jump))
    decreases ts, 1
  {
    hide Has, Lean, TestCode, TestSize, Lands, Sweeps, Slot, TestsSize, TestsCode, OffsetAt;
    if |ts| == 1 {
      TestLands(code, ts[0], at, target, jump);
    } else if jump == stop {
      TestsLand(code, ts, at, target, stop);
    } else {
      var n := TestsSize(ts, stop);
      HasParts(code, at, TestsCode(ts, at, Some(at + n + 5), stop), [JMP] + Slot(Some(target), at + n + 1));
      JumpIsInstruction(code, at + n, JMP, target);
      LandsSweeps(code, at + n, at + n + 5);
      TestsLand(code, ts, at, at + n + 5, stop);
      LandsOn(code, at, at + n, at + n + 5);
    }
  }

  lemma {:induction false} BlockLands(code: seq<Byte>, vs: seq<VCommand>, at: nat)
    requires BlockAt(code, vs, at)
    ensures Lands(code, at, at + BlockSize(vs))
    ensures ChainTail(vs) <= BlockSize(vs) && Sweeps(code, at, at + ChainTail(vs))
    decreases vs, 2
  {
    hide BlockAt, CommandSize, CommandCode, Has, NonZeroAt, Lands, Sweeps;
    if vs == [] {
      LandsHere(code, at);
    } else {
      BlockParts(code, vs, at);
      var n := CommandSize(vs[0]);
      BlockLands(code, vs[1..], at + n);
      CommandLands(code, vs, at);
      LandsOn(code, at, at + n, at + BlockSize(vs));
      LandsHere(code, at);
      LandsSweeps(code, at, at + n);
      if vs[0].Continues() { SweepsOn(code, at, at + n, at + ChainTail(vs)); }
    }
  }

  lemma {:induction false} CommandLands(code: seq<Byte>, vs: seq<VCommand>, at: nat)
    requires BlockAt(code, vs, at) && vs != []
    requires Sweeps(code, at + CommandSize(vs[0]), ExitOf(vs, at))
    ensures Lands(code, at, at + CommandSize(vs[0]))
    decreases vs, 1
  {
    hide Has, OpBytes, BlockSize, ChainTail, TestCode, Lands, Sweeps, OpFits, BlockCode, OffsetAt, TestSize;
    BlockParts(code, vs, at);
    var v := vs[0];
    match v
    case VAction(op) => OpIsInstruction(code, at, op);
    case VStop => StopIsInstruction(code, at);
    case VCond(_, cond, _, _, _, _) =>
      if cond == Never { LandsHere(code, at); } else { BranchLands(code, vs, at); }
  }

  lemma StopIsInstruction(code: seq<Byte>, at: nat)
    requires Has(code, at, [STOP])
    ensures Lands(code, at, at + 1)
  {
    HasByte(code, at, [STOP], 0);
  }

  lemma {:induction false} BranchLands(code: seq<Byte>, vs: seq<VCommand>, at: nat)
    requires BlockAt(code, vs, at) && vs != [] && vs[0].VCond? && vs[0].cond != Never
    requires Sweeps(code, at + CommandSize(vs[0]), ExitOf(vs, at))
    ensures Lands(code, at, at + CommandSize(vs[0]))
    decreases vs, 0
  {
    hide Has, BlockSize, ChainTail, Lands, Sweeps, BlockAt, CommandSize, CommandCode, ConditionSize, Slot, OffsetAt,
      NonZeroAt;
    BlockParts(code, vs, at);
    BranchParts(code, vs, at);
    var v := vs[0];
    var start := at + ConditionSize(v);
    var end := start + BlockSize(v.block);
    BlockLands(code, v.block, start);
    if NeedsExit(v) {
      JumpIsInstruction(code, end, JMP, ExitOf(vs, at));
      LandsOn(code, start, end, end + 5);
    }
    ConditionLands(code, vs, at);
  }

  lemma ConditionLands(code: seq<Byte>, vs: seq<VCommand>, at: nat)
    requires BlockAt(code, vs, at) && vs != [] && vs[0].VCond? && vs[0].cond != Never
    requires Lands(code, at + ConditionSize(vs[0]), at + CommandSize(vs[0]))
    ensures Lands(code, at, at + CommandSize(vs[0]))
  {
    hide Has, BlockSize, ChainTail, Lands, Sweeps, BlockCode, TestCode, TestSize, Slot, CommandCode, CommandSize, Lean;
    BlockParts(code, vs, at);
    BranchLayout(vs[0], at, ExitOf(vs, at));
    var v := vs[0];
    var start, end := at + ConditionSize(v), at + CommandSize(v);
    if v.kind != Else && v.cond == Unknown {
      var rest := BlockCode(v.block, start) + ExitCode(v, start + BlockSize(v.block), ExitOf(vs, at));
      HasParts(code, at, ConditionCode(v, at), rest);
      LandsSweeps(code, start, end);
      TestLands(code, v.test, at, end, false);
      LandsOn(code, at, start, end);
    }
  }

  // In the code of any validated script, after any code: no slot is left open, and every jump
  // leads to an instruction of the script behind it, or to its end.
  lemma GeneratedJumpsLand(pre: seq<Byte>, cs: seq<Command>)
    requires BlockFits(cs) && FoldBlock(cs, []).Some?
    requires |pre| + BlockSize(FoldBlock(cs, []).value) < OFFSET_LIMIT
    ensures var code := pre + BlockCode(FoldBlock(cs, []).value, |pre|);
            Lands(code, |pre|, |code|)
  {
    hide BlockCode, BlockSize, FoldBlock, BlockFits, Lands, Sweeps, VFits, Has;
    var vs := FoldBlock(cs, []).value;
    FoldBlockFits(cs, []);
    HasAppended(pre, BlockCode(vs, |pre|));
    BlockLands(pre + BlockCode(vs, |pre|), vs, |pre|);
  }
}
