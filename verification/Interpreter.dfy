// The fetch/execute loop over a code block (src/lib-sieve/sieve-interpreter.c).
module Interpreter {
  import opened BinaryCode
  import opened Bytes
  import opened Operands

  datatype Event = Tested(op: Op) | Acted(op: Op)

  // How a leaf test turns out. It may depend on everything that happened before.
  type Oracle = (seq<Event>, Op) -> bool

  datatype Outcome = Finished | Stopped | BinCorrupt

  datatype Machine = Machine(pc: nat, result: bool, trace: seq<Event>)

  datatype Status = Running(m: Machine) | Halted(outcome: Outcome, trace: seq<Event>)

  predicate IsJump(op: Byte) { JMP <= op <= JMPFALSE }

  function JumpStep(code: seq<Byte>, m: Machine, jump: bool): Status
    requires m.pc < |code|
  {
    match OffsetAt(code, m.pc + 1)
    case Corrupt => Halted(BinCorrupt, m.trace)
    case Got(offset, next) =>
      var target := m.pc + 1 + offset;
      // The target is checked whether or not the jump is taken.
      if target == 0 || target > |code| then Halted(BinCorrupt, m.trace)
      else Running(m.(pc := if jump then target else next))
  }

  function Step(code: seq<Byte>, m: Machine, o: Oracle): Status
    requires m.pc < |code|
  {
    var op := code[m.pc];
    if op == JMP then JumpStep(code, m, true)
    else if op == JMPTRUE then JumpStep(code, m, m.result)
    else if op == JMPFALSE then JumpStep(code, m, !m.result)
    else if op == STOP then Halted(Stopped, m.trace)
    else if IsAction(op) || IsTest(op) then
      match OperandsAt(code, m.pc + 1, op)
      case Corrupt => Halted(BinCorrupt, m.trace)
      case Got(o', next) =>
        if IsAction(op) then Running(m.(pc := next, trace := m.trace + [Acted(o')]))
        else Running(Machine(next, o(m.trace, o'), m.trace + [Tested(o')]))
    else Halted(BinCorrupt, m.trace)
  }

  // On any bytes, a step that does not halt moves forward and stays in the block.
  lemma StepAdvances(code: seq<Byte>, m: Machine, o: Oracle)
    requires m.pc < |code|
    ensures var s := Step(code, m, o);
            s.Running? ==> m.pc < s.m.pc <= |code| && m.trace <= s.m.trace
  {
    hide OperandsAt;
    var op := code[m.pc];
    if IsAction(op) || IsTest(op) { OperandsAdvance(code, m.pc + 1, op); }
  }

  function Run(code: seq<Byte>, m: Machine, o: Oracle): (Outcome, seq<Event>)
    decreases |code| - m.pc
  {
    if m.pc >= |code| then (Finished, m.trace)
    else
      StepAdvances(code, m, o);
      match Step(code, m, o)
      case Halted(outcome, trace) => (outcome, trace)
      case Running(next) => Run(code, next, o)
  }

  lemma RunStep(code: seq<Byte>, m: Machine, o: Oracle)
    requires m.pc < |code|
    ensures Step(code, m, o).Running? ==> Run(code, m, o) == Run(code, Step(code, m, o).m, o)
  {
    hide Step;
  }

  lemma RunAtEnd(code: seq<Byte>, m: Machine, o: Oracle)
    requires m.pc >= |code|
    ensures Run(code, m, o) == (Finished, m.trace)
  {
    hide Step;
  }

  // The number of operations fetched.
  function Steps(code: seq<Byte>, m: Machine, o: Oracle): nat
    decreases |code| - m.pc
  {
    if m.pc >= |code| then 0
    else
      StepAdvances(code, m, o);
      match Step(code, m, o)
      case Halted(_, _) => 1
      case Running(next) => 1 + Steps(code, next, o)
  }

  lemma {:induction false} RunEndsWithinSize(code: seq<Byte>, m: Machine, o: Oracle)
    ensures m.pc <= |code| ==> Steps(code, m, o) <= |code| - m.pc
    ensures m.trace <= Run(code, m, o).1
    decreases |code| - m.pc
  {
    hide Step;
    if m.pc < |code| {
      StepAdvances(code, m, o);
      StepHalts(code, m, o);
      match Step(code, m, o)
      case Halted(_, _) =>
      case Running(next) => RunEndsWithinSize(code, next, o);
    }
  }

  lemma StepHalts(code: seq<Byte>, m: Machine, o: Oracle)
    requires m.pc < |code|
    ensures Step(code, m, o).Halted? ==> Step(code, m, o).trace == m.trace
  {
    hide OperandsAt, OffsetAt;
  }

  // The interpreter object: program counter, result of the last test, interruption, and the
  // tests and actions performed so far.
  class Interpreter {
    const block: BinaryBlock
    var pc: nat
    var testResult: bool
    var interrupted: bool
    var trace: seq<Event>

    constructor (block: BinaryBlock, start: nat)
      ensures this.block == block && State() == Machine(start, false, []) && !interrupted
    {
      this.block := block;
      pc := start;
      testResult, interrupted, trace := false, false, [];
    }

    ghost function State(): Machine
      reads this
    {
      Machine(pc, testResult, trace)
    }

    method ProgramJump(jump: bool) returns (ok: bool)
      requires 0 < pc <= |block.data|
      modifies this`pc
      ensures var s := JumpStep(block.data, old(State()).(pc := old(pc) - 1), jump);
              if ok then s == Running(State()) else s == Halted(BinCorrupt, trace)
    {
      var start := pc;
      var r := block.ReadOffset(pc);
      if r.Corrupt? { return false; }
      pc := r.next;
      var target := start + r.value;
      if target == 0 || target > |block.data| { return false; }
      if jump { pc := target; }
      ok := true;
    }

    // One operation; false stands for a corrupt binary.
    method Execute(o: Oracle) returns (ok: bool)
      requires pc < |block.data| && !interrupted
      modifies this
      ensures match Step(block.data, old(State()), o)
              case Running(m) => ok && !interrupted && State() == m
              case Halted(outcome, t) =>
                trace == t && interrupted == ok && outcome == (if ok then Stopped else BinCorrupt)
    {
      hide OperandsAt, OffsetAt;
      var op := block.data[pc];
      pc := pc + 1;
      if op == JMP {
        ok := ProgramJump(true);
      } else if op == JMPTRUE {
        ok := ProgramJump(testResult);
      } else if op == JMPFALSE {
        ok := ProgramJump(!testResult);
      } else if op == STOP {
        interrupted := true;
        ok := true;
      } else if IsAction(op) || IsTest(op) {
        var r := OperandsAt(block.data, pc, op);
        if r.Corrupt? { return false; }
        pc := r.next;
        if IsAction(op) {
          trace := trace + [Acted(r.value)];
        } else {
          testResult := o(trace, r.value);
          trace := trace + [Tested(r.value)];
        }
        ok := true;
      } else {
        ok := false;
      }
    }

    method Continue(o: Oracle) returns (outcome: Outcome)
      modifies this
      ensures (outcome, trace) == Run(block.data, old(State()), o)
      ensures interrupted <==> outcome == Stopped
    {
      hide Step;
      var ok := true;
      interrupted := false;
      while ok && !interrupted && pc < |block.data|
        invariant ok && !interrupted ==> Run(block.data, old(State()), o) == Run(block.data, State(), o)
        invariant !ok || interrupted ==>
                    Run(block.data, old(State()), o) == (if interrupted then Stopped else BinCorrupt, trace)
        invariant interrupted ==> ok
        decreases if ok && !interrupted then 1 else 0, |block.data| - pc
      {
        StepAdvances(block.data, State(), o);
        ok := Execute(o);
      }
      outcome := if !ok then BinCorrupt else if interrupted then Stopped else Finished;
    }
  }
}
