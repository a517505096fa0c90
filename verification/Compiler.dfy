// Running the laid-out code of a script means the script: every test and action in order, and
// the same ending.
module Compiler {
  import opened BinaryCode
  import opened Bytes
  import opened Operands
  import opened Interpreter
  import opened Script
  import opened Validator
  import opened Layout

  // ----- What validation guarantees -----

  predicate NextContinues(vs: seq<VCommand>) { vs != [] && vs[0].Continues() }

  // The branches at the front of `vs` that continue a chain never run.
  predicate DeadTail(vs: seq<VCommand>)
  {
    NextContinues(vs) ==> vs[0].cond == Never && DeadTail(vs[1..])
  }

  predicate VCondFits(v: VCommand, rest: seq<VCommand>)
    requires v.VCond?
  {
    && v.cond != Unset
    && (v.kind == Else ==> v.cond != Always && !NextContinues(rest))
    && (v.kind != Else && v.cond == Unknown ==> Lean(v.test))
    && (v.cond == Always ==> DeadTail(rest))
    && (v.hasNext <==> NextContinues(rest))
    && (v.exits ==> VStop in v.block)
  }

  predicate VFits(vs: seq<VCommand>)
    decreases vs
  {
    vs == [] ||
    (&& VFits(vs[1..])
     && match vs[0]
        case VAction(op) => OpFits(op) && IsAction(op.code)
        case VStop => true
        case VCond(_, _, _, _, _, block) => VFits(block) && VCondFits(vs[0], vs[1..]))
  }

  lemma {:induction false} FoldBlockDeadTail(cs: seq<Command>, chain: seq<Verdict>)
    requires FoldBlock(cs, chain).Some? && Always in chain
    ensures DeadTail(FoldBlock(cs, chain).value)
    decreases |cs|
  {
    if cs != [] && IsElsifElse(cs[0]) {
      var vs := FoldBlock(cs, chain).value;
      var next := ChainAfter(cs[0], Never, chain);
      assert vs[1..] == FoldBlock(cs[1..], next).value;
      if cs[0].kind == Elsif {
        FoldBlockDeadTail(cs[1..], next);
      } else {
        FoldBlockStart(cs[1..]);
      }
    }
  }

  // With no chain open, an elsif or else is rejected.
  lemma FoldBlockStart(cs: seq<Command>)
    requires FoldBlock(cs, []).Some?
    ensures !NextContinues(FoldBlock(cs, []).value)
  {
  }

  lemma FoldBlockNext(cs: seq<Command>, chain: seq<Verdict>)
    requires FoldBlock(cs, chain).Some?
    ensures NextContinues(FoldBlock(cs, chain).value) <==> cs != [] && IsElsifElse(cs[0])
  {
  }

  lemma FoldCondFits(cs: seq<Command>, chain: seq<Verdict>)
    requires FoldBlock(cs, chain).Some? && cs != [] && cs[0].Cond?
    requires cs[0].kind != Else ==> TestFits(cs[0].test)
    ensures var vs := FoldBlock(cs, chain).value; VCondFits(vs[0], vs[1..])
  {
    hide FoldTest, DeadTail, NextContinues, TestFits, Lean;
    var vs := FoldBlock(cs, chain).value;
    var r := FoldCondition(cs[0], chain);
    var next := ChainAfter(cs[0], r.0, chain);
    assert vs[1..] == FoldBlock(cs[1..], next).value;
    FoldBlockNext(cs[1..], next);
    if cs[0].kind == Else {
      FoldBlockStart(cs[1..]);
    } else {
      FoldTestKeepsValue(cs[0].test, op => true);
    }
    if r.0 == Always { FoldBlockDeadTail(cs[1..], next); }
  }

  lemma {:induction false} FoldBlockFits(cs: seq<Command>, chain: seq<Verdict>)
    requires BlockFits(cs) && FoldBlock(cs, chain).Some?
    ensures VFits(FoldBlock(cs, chain).value)
    decreases cs
  {
    hide VCondFits, FoldCondition, OpFits, TestFits;
    if cs != [] {
      var vs := FoldBlock(cs, chain).value;
      match cs[0]
      case Action(_) => assert vs[1..] == FoldBlock(cs[1..], []).value; FoldBlockFits(cs[1..], []);
      case Stop => assert vs[1..] == FoldBlock(cs[1..], []).value; FoldBlockFits(cs[1..], []);
      case Cond(_, _, block) =>
        var r := FoldCondition(cs[0], chain);
        var next := ChainAfter(cs[0], r.0, chain);
        assert vs[1..] == FoldBlock(cs[1..], next).value;
        FoldBlockFits(cs[1..], next);
        if r.0 != Never { FoldBlockFits(block, []); }
        FoldCondFits(cs, chain);
    }
  }

  // ----- Single instructions -----

  lemma JumpRuns(code: seq<Byte>, m: Machine, o: Oracle, op: Byte, target: nat)
    requires IsJump(op) && Has(code, m.pc, [op] + Slot(Some(target), m.pc + 1))
    requires m.pc + 1 <= target <= |code| && target - m.pc < OFFSET_LIMIT
    ensures Run(code, m, o)
            == Run(code, m.(pc := if op == JMP || (op == JMPTRUE) == m.result then target else m.pc + 5), o)
  {
    hide Has, OffsetBytes, OffsetAt, Run, OperandsAt;
    HasParts(code, m.pc, [op], Slot(Some(target), m.pc + 1));
    HasByte(code, m.pc, [op] + Slot(Some(target), m.pc + 1), 0);
    OffsetRoundTrip(code, m.pc + 1, target - (m.pc + 1));
    RunStep(code, m, o);
  }

  lemma OpRuns(code: seq<Byte>, m: Machine, o: Oracle, op: Op)
    requires OpFits(op) && Has(code, m.pc, OpBytes(op))
    requires m.pc + |OpBytes(op)| < |code| ==> code[m.pc + |OpBytes(op)|] != 0
    ensures Run(code, m, o)
            == Run(code, Machine(m.pc + |OpBytes(op)|,
                                 if IsTest(op.code) then o(m.trace, op) else m.result,
                                 m.trace + [if IsTest(op.code) then Tested(op) else Acted(op)]), o)
  {
    hide Has, OperandsAt, ArgsBytes, OptionalBytes, ArgsFit, TagsFit, Run;
    HasFits(code, m.pc, OpBytes(op));
    HasByte(code, m.pc, OpBytes(op), 0);
    BareIsShort(op);
    OpRoundTrip(code, m.pc, op);
    RunStep(code, m, o);
  }

  lemma BareIsShort(op: Op)
    requires OpFits(op)
    ensures Bare(op) ==> |OpBytes(op)| == 1
  {
  }

  // ----- Tests -----

  // Control after a test with the given value.
  function AfterTest(t: Test, at: nat, target: nat, jump: bool, value: bool): nat
  {
    if value == jump then target else at + TestSize(t, jump)
  }

  lemma LeafRuns(code: seq<Byte>, op: Op, m: Machine, target: nat, jump: bool, o: Oracle)
    requires OpFits(op) && IsTest(op.code) && Has(code, m.pc, TestCode(Leaf(op), m.pc, Some(target), jump))
    requires m.pc + TestSize(Leaf(op), jump) <= target <= |code| && target - m.pc < OFFSET_LIMIT
    ensures var v := o(m.trace, op);
            Run(code, m, o)
            == Run(code, Machine(AfterTest(Leaf(op), m.pc, target, jump, v), v, m.trace + [Tested(op)]), o)
  {
    hide Has, OpBytes, Slot, Run, OpFits, TestCode, TestSize;
    LeafLayout(op, m.pc, target, jump);
    var n, branch := |OpBytes(op)|, if jump then JMPTRUE else JMPFALSE;
    var slot := Slot(Some(target), m.pc + n + 1);
    HasParts(code, m.pc, OpBytes(op), [branch] + slot);
    HasByte(code, m.pc + n, [branch] + slot, 0);
    OpRuns(code, m, o, op);
    JumpRuns(code, Machine(m.pc + n, o(m.trace, op), m.trace + [Tested(op)]), o, branch, target);
  }

  // A leaf test is its operation and a jump.
  lemma LeafLayout(op: Op, at: nat, target: nat, jump: bool)
    ensures var n, branch := |OpBytes(op)|, if jump then JMPTRUE else JMPFALSE;
            && TestCode(Leaf(op), at, Some(target), jump) == OpBytes(op) + ([branch] + Slot(Some(target), at + n + 1))
            && TestSize(Leaf(op), jump) == n + 5
  {
    hide OpBytes, Slot;
    var branch := if jump then JMPTRUE else JMPFALSE;
    Assoc(OpBytes(op), [branch], Slot(Some(target), at + |OpBytes(op)| + 1));
  }

  lemma {:induction false} TestRuns(code: seq<Byte>, t: Test, m: Machine, target: nat, jump: bool, o: Oracle)
    returns (result: bool)
    requires Lean(t) && Has(code, m.pc, TestCode(t, m.pc, Some(target), jump))
    requires m.pc + TestSize(t, jump) <= target <= |code| && target - m.pc < OFFSET_LIMIT
    ensures var e := Eval(t, o, m.trace);
            Run(code, m, o) == Run(code, Machine(AfterTest(t, m.pc, target, jump, e.0), result, e.1), o)
    decreases t, 1
  {
    hide Has, OpBytes, Slot, Run, OpFits;
    match t
    case Leaf(op) =>
      LeafRuns(code, op, m, target, jump, o);
      result := o(m.trace, op);
    case Not(t') =>
      result := TestRuns(code, t', m, target, !jump, o);
    case AnyOf(ts) =>
      result := ListRuns(code, ts, m, target, true, jump, o);
    case AllOf(ts) =>
      result := ListRuns(code, ts, m, target, false, jump, o);
  }

  // All members jump to `target` on `stop`.
  lemma {:induction false} TestsRun(code: seq<Byte>, ts: seq<Test>, m: Machine, target: nat, stop: bool, o: Oracle)
    returns (result: bool)
    requires LeanAll(ts) && Has(code, m.pc, TestsCode(ts, m.pc, Some(target), stop))
    requires m.pc + TestsSize(ts, stop) <= target <= |code| && target - m.pc < OFFSET_LIMIT
    ensures var e := EvalUntil(ts, stop, o, m.trace);
            Run(code, m, o)
            == Run(code, Machine(if e.0 == stop then target else m.pc + TestsSize(ts, stop), result, e.1), o)
    decreases ts, 0
  {
    hide Has, Lean, Run, TestCode, TestSize, Eval;
    if ts == [] {
      result := m.result;
    } else {
      var n := TestSize(ts[0], stop);
      HasParts(code, m.pc, TestCode(ts[0], m.pc, Some(target), stop), TestsCode(ts[1..], m.pc + n, Some(target), stop));
      result := TestRuns(code, ts[0], m, target, stop, o);
      var e := Eval(ts[0], o, m.trace);
      if e.0 != stop {
        result := TestsRun(code, ts[1..], Machine(m.pc + n, result, e.1), target, stop, o);
      }
    }
  }

  lemma {:induction false} ListRuns(code: seq<Byte>, ts: seq<Test>, m: Machine, target: nat, stop: bool, jump: bool,
                                    o: Oracle)
    returns (result: bool)
    requires ts != [] && LeanAll(ts) && Has(code, m.pc, ListCode(ts, m.pc, Some(target), stop, jump))
    requires m.pc + ListSize(ts, stop, jump) <= target <= |code| && target - m.pc < OFFSET_LIMIT
    ensures var e := EvalUntil(ts, stop, o, m.trace);
            Run(code, m, o)
            == Run(code, Machine(if e.0 == jump then target else m.pc + ListSize(ts, stop, jump), result, e.1), o)
    decreases ts, 1
  {
    hide Has, Lean, Run, TestCode, TestSize, Eval, Slot;
    var e := EvalUntil(ts, stop, o, m.trace);
    if |ts| == 1 {
      result := TestRuns(code, ts[0], m, target, jump, o);
      EvalSingle(ts, stop, o, m.trace);
    } else if jump == stop {
      result := TestsRun(code, ts, m, target, stop, o);
    } else {
      hide TestsCode, TestsSize, EvalUntil;
      var n := TestsSize(ts, stop);
      var last := [JMP] + Slot(Some(target), m.pc + n + 1);
      HasParts(code, m.pc, TestsCode(ts, m.pc, Some(m.pc + n + 5), stop), last);
      result := TestsRun(code, ts, m, m.pc + n + 5, stop, o);
      if e.0 != stop {
        JumpRuns(code, Machine(m.pc + n, result, e.1), o, JMP, target);
      }
    }
  }

  lemma EvalSingle(ts: seq<Test>, stop: bool, o: Oracle, h: seq<Event>)
    requires |ts| == 1
    ensures EvalUntil(ts, stop, o, h) == Eval(ts[0], o, h)
  {
    hide Eval;
    assert ts[1..] == [];
  }

  // ----- No code begins with a zero byte -----

  lemma {:induction false} TestCodeStarts(t: Test, at: nat, out: Option<nat>, jump: bool)
    requires Lean(t)
    ensures var r := TestCode(t, at, out, jump); r != [] && r[0] != 0
    decreases t, 1
  {
    hide Slot, OptionalBytes, ArgsBytes;
    match t
    case Leaf(op) => assert TestCode(t, at, out, jump)[0] == op.code;
    case Not(t') => TestCodeStarts(t', at, out, !jump);
    case AnyOf(ts) => ListCodeStarts(ts, at, out, true, jump);
    case AllOf(ts) => ListCodeStarts(ts, at, out, false, jump);
  }

  lemma {:induction false} ListCodeStarts(ts: seq<Test>, at: nat, out: Option<nat>, stop: bool, jump: bool)
    requires ts != [] && LeanAll(ts)
    ensures var r := ListCode(ts, at, out, stop, jump); r != [] && r[0] != 0
    decreases ts, 0
  {
    hide Slot, Lean, TestCode;
    TestCodeStarts(ts[0], at, out, jump);
    TestCodeStarts(ts[0], at, out, stop);
    TestCodeStarts(ts[0], at, Some(at + TestsSize(ts, stop) + 5), stop);
  }

  predicate StartsWell(code: seq<Byte>) { code != [] ==> code[0] != 0 }

  lemma {:induction false} BlockCodeStarts(vs: seq<VCommand>, at: nat)
    requires VFits(vs)
    ensures StartsWell(BlockCode(vs, at))
    decreases vs, 1
  {
    hide CommandCode, CommandSize, VCondFits;
    if vs != [] {
      CommandCodeStarts(vs, at, Some(at + CommandSize(vs[0]) + ChainTail(vs[1..])));
      BlockCodeStarts(vs[1..], at + CommandSize(vs[0]));
    }
  }

  lemma {:induction false} CommandCodeStarts(vs: seq<VCommand>, at: nat, exit: Option<nat>)
    requires VFits(vs) && vs != []
    ensures StartsWell(CommandCode(vs[0], at, exit))
    decreases vs, 0
  {
    hide TestCode, Slot, OpFits, OptionalBytes, ArgsBytes, Lean;
    var v := vs[0];
    if v.VCond? {
      BlockCodeStarts(v.block, at + ConditionSize(v));
      if v.kind != Else && v.cond == Unknown {
        TestCodeStarts(v.test, at, Some(at + CommandSize(v)), false);
      }
    }
  }

  // ----- Blocks -----

  // The byte at `at`, if any, is not zero.
  predicate NonZeroAt(code: seq<Byte>, at: nat) { at < |code| ==> code[at] != 0 }

  lemma NonZeroBefore(code: seq<Byte>, at: nat, bytes: seq<Byte>)
    requires Has(code, at, bytes) && StartsWell(bytes) && NonZeroAt(code, at + |bytes|)
    ensures NonZeroAt(code, at)
  {
    if bytes != [] { HasByte(code, at, bytes, 0); }
  }

  // A block that contains stop always stops.
  lemma {:induction false} StopStops(vs: seq<VCommand>, taken: bool, o: Oracle, h: seq<Event>)
    requires VStop in vs
    ensures VExec(vs, taken, o, h).stopped
    decreases |vs|
  {
    hide Eval;
    if !vs[0].VStop? {
      assert VStop in vs[1..];
      forall taken', h' ensures VExec(vs[1..], taken', o, h').stopped { StopStops(vs[1..], taken', o, h'); }
    }
  }

  lemma {:induction false} DeadTailIsEmpty(vs: seq<VCommand>)
    requires DeadTail(vs)
    ensures ChainTail(vs) == 0
    decreases |vs|
  {
    if NextContinues(vs) { DeadTailIsEmpty(vs[1..]); }
  }

  // Where a block goes on: past the rest of its first chain if a branch of that was taken.
  function Entry(vs: seq<VCommand>, at: nat, taken: bool): nat
  {
    if taken then at + ChainTail(vs) else at
  }

  // The machine has done what `e` says of the block at `at`.
  ghost predicate RunsTo(code: seq<Byte>, m: Machine, o: Oracle, e: Effect, end: nat, result: bool)
  {
    Run(code, m, o) == if e.stopped then (Stopped, e.trace) else Run(code, Machine(end, result, e.trace), o)
  }

  ghost predicate BlockAt(code: seq<Byte>, vs: seq<VCommand>, at: nat)
  {
    && VFits(vs) && Has(code, at, BlockCode(vs, at)) && NonZeroAt(code, at + BlockSize(vs))
    && BlockSize(vs) < OFFSET_LIMIT
  }

  ghost function ExitOf(vs: seq<VCommand>, at: nat): nat
    requires vs != []
  {
    at + CommandSize(vs[0]) + ChainTail(vs[1..])
  }

  lemma {:induction false} ChainTailFits(vs: seq<VCommand>)
    ensures ChainTail(vs) <= BlockSize(vs)
    decreases |vs|
  {
    if vs != [] { ChainTailFits(vs[1..]); }
  }

  lemma BlockLayout(vs: seq<VCommand>, at: nat)
    requires vs != []
    ensures BlockCode(vs, at)
            == CommandCode(vs[0], at, Some(ExitOf(vs, at))) + BlockCode(vs[1..], at + CommandSize(vs[0]))
    ensures BlockSize(vs) == CommandSize(vs[0]) + BlockSize(vs[1..]) && ExitOf(vs, at) <= at + BlockSize(vs)
  {
    hide CommandCode, CommandSize;
    ChainTailFits(vs[1..]);
  }

  lemma VFitsRest(vs: seq<VCommand>)
    requires VFits(vs) && vs != []
    ensures VFits(vs[1..])
  {
  }

  lemma BlockParts(code: seq<Byte>, vs: seq<VCommand>, at: nat)
    requires BlockAt(code, vs, at) && vs != []
    ensures Has(code, at, CommandCode(vs[0], at, Some(ExitOf(vs, at))))
    ensures BlockAt(code, vs[1..], at + CommandSize(vs[0]))
    ensures NonZeroAt(code, at + CommandSize(vs[0]))
    ensures at + BlockSize(vs) <= |code| && BlockSize(vs) < OFFSET_LIMIT
    ensures BlockSize(vs) == CommandSize(vs[0]) + BlockSize(vs[1..]) && ExitOf(vs, at) <= at + BlockSize(vs)
  {
    hide Has, BlockCode, BlockSize, CommandCode, CommandSize, VFits, ExitOf, NonZeroAt;
    var n := CommandSize(vs[0]);
    BlockLayout(vs, at);
    VFitsRest(vs);
    HasFits(code, at, BlockCode(vs, at));
    HasParts(code, at, CommandCode(vs[0], at, Some(ExitOf(vs, at))), BlockCode(vs[1..], at + n));
    BlockCodeStarts(vs[1..], at + n);
    NonZeroBefore(code, at + n, BlockCode(vs[1..], at + n));
  }

  lemma {:induction false} BlockRuns(code: seq<Byte>, vs: seq<VCommand>, at: nat, taken: bool, m: Machine, o: Oracle)
    returns (result: bool)
    requires BlockAt(code, vs, at) && m.pc == Entry(vs, at, taken)
    ensures RunsTo(code, m, o, VExec(vs, taken, o, m.trace), at + BlockSize(vs), result)
    decreases vs, 2
  {
    hide BlockAt, Run, CommandCode, CommandSize, Has, OpFits, VCondFits, Eval, Actions;
    result := m.result;
    if vs != [] {
      BlockParts(code, vs, at);
      var n := CommandSize(vs[0]);
      match vs[0]
      case VAction(op) =>
        ActionRuns(code, vs, at, m, o);
        result := BlockRuns(code, vs[1..], at + n, false, Machine(at + n, m.result, m.trace + [Acted(op)]), o);
      case VStop =>
        StopRuns(code, vs, at, m, o);
      case VCond(kind, cond, _, _, test, block) =>
        if kind != If && taken {
          result := BlockRuns(code, vs[1..], at + n, true, m, o);
        } else {
          result := CondRuns(code, vs, at, taken, m, o);
        }
    }
  }

  lemma ActionRuns(code: seq<Byte>, vs: seq<VCommand>, at: nat, m: Machine, o: Oracle)
    requires BlockAt(code, vs, at) && m.pc == at && vs != [] && vs[0].VAction?
    ensures Run(code, m, o)
            == Run(code, Machine(at + CommandSize(vs[0]), m.result, m.trace + [Acted(vs[0].op)]), o)
  {
    hide Has, OpBytes, Run, BlockCode, BlockSize, ChainTail;
    BlockParts(code, vs, at);
    OpRuns(code, m, o, vs[0].op);
  }

  lemma StopRuns(code: seq<Byte>, vs: seq<VCommand>, at: nat, m: Machine, o: Oracle)
    requires BlockAt(code, vs, at) && m.pc == at && vs != [] && vs[0].VStop?
    ensures Run(code, m, o) == (Stopped, m.trace)
  {
    hide Has, BlockCode, BlockSize, ChainTail;
    BlockParts(code, vs, at);
    HasByte(code, at, [STOP], 0);
  }

  // The condition of a branch: on to its block, or past the branch.
  lemma ConditionRuns(code: seq<Byte>, vs: seq<VCommand>, at: nat, m: Machine, o: Oracle)
    returns (result: bool)
    requires BlockAt(code, vs, at) && m.pc == at && vs != [] && vs[0].VCond?
    ensures var v := vs[0];
            var r :=
              if v.cond == Unknown && v.kind != Else then Eval(v.test, o, m.trace) else (v.cond != Never, m.trace);
            Run(code, m, o)
            == Run(code, Machine(if r.0 then at + ConditionSize(v) else at + CommandSize(v), result, r.1), o)
  {
    hide Has, Run, BlockCode, BlockSize, ChainTail, TestCode, Eval, OpFits, TestSize, Lean;
    BlockParts(code, vs, at);
    var v := vs[0];
    result := m.result;
    if v.cond == Unknown && v.kind != Else {
      var exit := Some(ExitOf(vs, at));
      var target := at + CommandSize(v);
      var rest := CommandCode(v, at, exit)[ConditionSize(v)..];
      assert CommandCode(v, at, exit) == TestCode(v.test, at, Some(target), false) + rest;
      HasParts(code, at, TestCode(v.test, at, Some(target), false), rest);
      result := TestRuns(code, v.test, m, target, false, o);
    }
  }

  function ConditionCode(v: VCommand, at: nat): seq<Byte>
    requires v.VCond?
  {
    if v.kind != Else && v.cond == Unknown then TestCode(v.test, at, Some(at + CommandSize(v)), false) else []
  }

  function ExitCode(v: VCommand, at: nat, exit: nat): seq<Byte>
  {
    if NeedsExit(v) then [JMP] + Slot(Some(exit), at + 1) else []
  }

  lemma BranchLayout(v: VCommand, at: nat, exit: nat)
    requires v.VCond? && v.cond != Never
    ensures var start := at + ConditionSize(v);
            CommandCode(v, at, Some(exit))
            == ConditionCode(v, at) + (BlockCode(v.block, start) + ExitCode(v, start + BlockSize(v.block), exit))
    ensures |ConditionCode(v, at)| == ConditionSize(v)
    ensures CommandSize(v) == ConditionSize(v) + BlockSize(v.block) + ExitSize(v)
  {
    hide BlockCode, TestCode, Slot, BlockSize, TestSize;
  }

  lemma VFitsBlock(vs: seq<VCommand>)
    requires VFits(vs) && vs != [] && vs[0].VCond?
    ensures VFits(vs[0].block)
  {
  }

  // What follows the condition: the block, then the exit jump if there is one.
  lemma BranchParts(code: seq<Byte>, vs: seq<VCommand>, at: nat)
    requires BlockAt(code, vs, at) && vs != [] && vs[0].VCond? && vs[0].cond != Never
    ensures var v := vs[0];
            var start := at + ConditionSize(v);
            var end := start + BlockSize(v.block);
            && BlockAt(code, v.block, start)
            && (NeedsExit(v) ==> Has(code, end, [JMP] + Slot(Some(ExitOf(vs, at)), end + 1)))
            && CommandSize(v) == ConditionSize(v) + BlockSize(v.block) + ExitSize(v)
  {
    hide Has, BlockCode, ConditionCode, CommandCode, ConditionSize, BlockSize, CommandSize, Slot, VFits, ExitOf;
    BlockParts(code, vs, at);
    VFitsBlock(vs);
    var v := vs[0];
    var start := at + ConditionSize(v);
    var end := start + BlockSize(v.block);
    var exit := ExitOf(vs, at);
    BranchLayout(v, at, exit);
    HasParts(code, at, ConditionCode(v, at), BlockCode(v.block, start) + ExitCode(v, end, exit));
    HasParts(code, start, BlockCode(v.block, start), ExitCode(v, end, exit));
    if NeedsExit(v) {
      HasByte(code, end, ExitCode(v, end, exit), 0);
      HasFits(code, end, ExitCode(v, end, exit));
    }
  }

  // After the block of a taken branch, control is past the whole chain.
  lemma ExitRuns(code: seq<Byte>, vs: seq<VCommand>, at: nat, m: Machine, o: Oracle)
    requires BlockAt(code, vs, at) && vs != [] && vs[0].VCond? && vs[0].cond != Never
    requires m.pc == at + ConditionSize(vs[0]) + BlockSize(vs[0].block) && !vs[0].exits
    ensures Run(code, m, o) == Run(code, m.(pc := ExitOf(vs, at)), o)
  {
    hide Has, Run, BlockCode, ConditionSize, BlockSize, Slot, CommandSize, BlockAt, Lean;
    BlockParts(code, vs, at);
    BranchParts(code, vs, at);
    var v := vs[0];
    if NeedsExit(v) {
      HasFits(code, m.pc, [JMP] + Slot(Some(ExitOf(vs, at)), m.pc + 1));
      JumpRuns(code, m, o, JMP, ExitOf(vs, at));
    } else {
      LastBranch(code, vs, at);
    }
  }

  // A branch without an exit jump has nothing after it in its chain.
  lemma LastBranch(code: seq<Byte>, vs: seq<VCommand>, at: nat)
    requires BlockAt(code, vs, at) && vs != [] && vs[0].VCond? && vs[0].cond != Never
    requires !NeedsExit(vs[0]) && !vs[0].exits
    ensures ChainTail(vs[1..]) == 0
  {
    hide Has, BlockCode, CommandSize, Lean;
    if vs[0].cond == Always { DeadTailIsEmpty(vs[1..]); }
  }

  lemma {:induction false} CondRuns(code: seq<Byte>, vs: seq<VCommand>, at: nat, taken: bool, m: Machine, o: Oracle)
    returns (result: bool)
    requires BlockAt(code, vs, at) && m.pc == at && vs != [] && vs[0].VCond?
    requires !(vs[0].kind != If && taken)
    ensures RunsTo(code, m, o, VExec(vs, taken, o, m.trace), at + BlockSize(vs), result)
    decreases vs, 1
  {
    hide BlockAt, Run, CommandCode, CommandSize, ConditionSize, Has, OpFits, Eval, ChainTail;
    BlockParts(code, vs, at);
    var v := vs[0];
    var n := CommandSize(v);
    result := ConditionRuns(code, vs, at, m, o);
    var r := if v.cond == Unknown && v.kind != Else then Eval(v.test, o, m.trace) else (v.cond != Never, m.trace);
    if !r.0 {
      result := BlockRuns(code, vs[1..], at + n, false, Machine(at + n, result, r.1), o);
    } else {
      BranchParts(code, vs, at);
      var start := at + ConditionSize(v);
      result := BlockRuns(code, v.block, start, false, Machine(start, result, r.1), o);
      var e := VExec(v.block, false, o, r.1);
      if !e.stopped {
        StoppingBranch(code, vs, at, o, r.1);
        ExitRuns(code, vs, at, Machine(start + BlockSize(v.block), result, e.trace), o);
        result := BlockRuns(code, vs[1..], at + n, true, Machine(ExitOf(vs, at), result, e.trace), o);
      }
    }
  }

  lemma StoppingBranch(code: seq<Byte>, vs: seq<VCommand>, at: nat, o: Oracle, h: seq<Event>)
    requires BlockAt(code, vs, at) && vs != [] && vs[0].VCond? && !VExec(vs[0].block, false, o, h).stopped
    ensures !vs[0].exits
  {
    hide Has, BlockCode, BlockSize, VExec;
    if vs[0].exits { StopStops(vs[0].block, false, o, h); }
  }
}
