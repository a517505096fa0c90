// Where the code of a validated script ends up: every instruction at its final address, every
// jump with its final target. The generator, which patches jumps afterwards, is proved to
// produce exactly this (src/lib-sieve/sieve-generator.c, cmd-if.c).
module Layout {
  import opened BinaryCode
  import opened Bytes
  import opened Operands
  import opened Script
  import opened Validator

  // A jump slot at `at`: the distance to its target, or zero while that is not known.
  function Slot(target: Option<nat>, at: nat): (r: seq<Byte>)
    ensures |r| == 4
  {
    if target.None? then OffsetBytes(0) else OffsetBytes(target.value - at)
  }

  // ----- Tests -----

  function TestSize(t: Test, jump: bool): nat
    decreases t, 1
  {
    match t
    case Leaf(op) => |OpBytes(op)| + 5
    case True => if jump then 5 else 0
    case False => if jump then 0 else 5
    case Not(t') => TestSize(t', !jump)
    case AnyOf(ts) => ListSize(ts, true, jump)
    case AllOf(ts) => ListSize(ts, false, jump)
  }

  function TestsSize(ts: seq<Test>, jump: bool): nat
    decreases ts, 0
  {
    if ts == [] then 0 else TestSize(ts[0], jump) + TestsSize(ts[1..], jump)
  }

  function ListSize(ts: seq<Test>, stop: bool, jump: bool): nat
    decreases ts, 1
  {
    if |ts| == 1 then TestSize(ts[0], jump)
    else TestsSize(ts, stop) + if jump == stop || ts == [] then 0 else 5
  }

  // Code at `at` that jumps to `out` when the value of the test is `jump`, and falls through
  // otherwise.
  function TestCode(t: Test, at: nat, out: Option<nat>, jump: bool): (r: seq<Byte>)
    ensures |r| == TestSize(t, jump)
    decreases t, 1
  {
    match t
    case Leaf(op) =>
      OpBytes(op) + ([if jump then JMPTRUE else JMPFALSE] + Slot(out, at + |OpBytes(op)| + 1))
    case True => if jump then [JMP] + Slot(out, at + 1) else []
    case False => if jump then [] else [JMP] + Slot(out, at + 1)
    case Not(t') => TestCode(t', at, out, !jump)
    case AnyOf(ts) => ListCode(ts, at, out, true, jump)
    case AllOf(ts) => ListCode(ts, at, out, false, jump)
  }

  function TestsCode(ts: seq<Test>, at: nat, out: Option<nat>, jump: bool): (r: seq<Byte>)
    ensures |r| == TestsSize(ts, jump)
    decreases ts, 0
  {
    if ts == [] then []
    else TestCode(ts[0], at, out, jump) + TestsCode(ts[1..], at + TestSize(ts[0], jump), out, jump)
  }

  // The members leave on the deciding value: straight to `out` if that is where it leads, and
  // otherwise past a final jump to `out`.
  function ListCode(ts: seq<Test>, at: nat, out: Option<nat>, stop: bool, jump: bool): (r: seq<Byte>)
    ensures |r| == ListSize(ts, stop, jump)
    decreases ts, 1
  {
    if ts == [] then []
    else if |ts| == 1 then TestCode(ts[0], at, out, jump)
    else if jump == stop then TestsCode(ts, at, out, stop)
    else
      var n := TestsSize(ts, stop);
      TestsCode(ts, at, Some(at + n + 5), stop) + ([JMP] + Slot(out, at + n + 1))
  }

  // ----- Commands -----

  function CommandSize(v: VCommand): nat
    decreases v, 0
  {
    match v
    case VAction(op) => |OpBytes(op)|
    case VStop => 1
    case VCond(kind, cond, _, _, test, block) =>
      ConditionSize(v) + (if cond == Never then 0 else BlockSize(block)) + ExitSize(v)
  }

  function ConditionSize(v: VCommand): nat
    requires v.VCond?
  {
    if v.kind != Else && v.cond == Unknown then TestSize(v.test, false) else 0
  }

  // An exit jump follows the block of a branch that is not the last, unless the block stops.
  predicate NeedsExit(v: VCommand)
  {
    v.VCond? && v.kind != Else && v.cond == Unknown && v.hasNext && !v.exits
  }

  function ExitSize(v: VCommand): nat { if NeedsExit(v) then 5 else 0 }

  function BlockSize(vs: seq<VCommand>): nat
    decreases vs, 1
  {
    if vs == [] then 0 else CommandSize(vs[0]) + BlockSize(vs[1..])
  }

  // The code of one command; a branch leaves through `exit` after its block.
  function CommandCode(v: VCommand, at: nat, exit: Option<nat>): (r: seq<Byte>)
    ensures |r| == CommandSize(v)
    decreases v, 0
  {
    match v
    case VAction(op) => OpBytes(op)
    case VStop => [STOP]
    case VCond(kind, cond, _, _, test, block) =>
      var c := ConditionSize(v);
      var b := if cond == Never then [] else BlockCode(block, at + c);
      var condition :=
        if kind != Else && cond == Unknown then TestCode(test, at, Some(at + CommandSize(v)), false) else [];
      condition + (b + if NeedsExit(v) then [JMP] + Slot(exit, at + c + |b| + 1) else [])
  }

  // The size of the branches at the front of `vs` that continue a chain.
  function ChainTail(vs: seq<VCommand>): nat
  {
    if vs != [] && vs[0].Continues() then CommandSize(vs[0]) + ChainTail(vs[1..]) else 0
  }

  function BlockCode(vs: seq<VCommand>, at: nat): (r: seq<Byte>)
    ensures |r| == BlockSize(vs)
    decreases vs, 1
  {
    if vs == [] then []
    else
      var n := CommandSize(vs[0]);
      CommandCode(vs[0], at, Some(at + n + ChainTail(vs[1..]))) + BlockCode(vs[1..], at + n)
  }
}
