// Validation of conditions: constant tests are folded away, blocks that cannot run are dropped,
// and each if/elsif/else learns its place in its chain
// (src/lib-sieve/sieve-validator.c, cmd-if.c, cmd-stop.c, tst-not.c, tst-anyof.c, tst-allof.c).
module Validator {
  import opened Bytes
  import opened Operands
  import opened Interpreter
  import opened Script

  // The constant value of a test: -2, -1, 0 and 1 in the source.
  datatype Verdict = Unset | Unknown | Never | Always {
    predicate Constant() { Never? || Always? }
  }

  // A command with the context that validation attaches to it.
  datatype VCommand =
    | VAction(op: Op)
    | VStop
    | VCond(kind: Branch, cond: Verdict, hasNext: bool, exits: bool, test: Test, block: seq<VCommand>)
  {
    predicate Continues() { VCond? && kind != If }
  }

  function ConstantOf(b: bool): Verdict { if b then Always else Never }

  // tst_not_validate_const
  function NotConst(next: Verdict): Verdict
  {
    if next == Always then Never else if next == Never then Always else Unknown
  }

  // tst_anyof_validate_const (stop) and tst_allof_validate_const (!stop): the new verdict, and
  // whether to look at the next test.
  function ListConst(stop: bool, current: Verdict, next: Verdict): (Verdict, bool)
  {
    if next == ConstantOf(stop) then (ConstantOf(stop), false)
    else if current != Unknown then (next, true)
    else (Unknown, true)
  }

  function FoldTest(t: Test): (Verdict, Test)
    decreases t, 1
  {
    match t
    case Leaf(_) => (Unknown, t)
    case True => (Always, t)
    case False => (Never, t)
    case Not(t') => var r := FoldTest(t'); (NotConst(r.0), Not(r.1))
    case AnyOf(ts) => var r := FoldList(true, ts, Unset); (r.0, AnyOf(r.1))
    case AllOf(ts) => var r := FoldList(false, ts, Unset); (r.0, AllOf(r.1))
  }

  // Constant members are detached; a deciding member ends the list.
  function FoldList(stop: bool, ts: seq<Test>, current: Verdict): (Verdict, seq<Test>)
    decreases ts, 0
  {
    if ts == [] then (current, [])
    else
      var r := FoldTest(ts[0]);
      var step := ListConst(stop, current, r.0);
      if !step.1 then (step.0, ts)
      else
        var rest := FoldList(stop, ts[1..], step.0);
        (rest.0, if r.0.Constant() then rest.1 else [r.1] + rest.1)
  }

  predicate IsElsifElse(c: Command) { c.Cond? && c.kind != If }

  // A later branch of a chain with a constant true condition never runs.
  function ContextCondition(chain: seq<Verdict>): Verdict
  {
    if Always in chain then Never else Unknown
  }

  // The conditions of the chain that the next command could continue. An else ends its chain.
  function ChainAfter(c: Command, cond: Verdict, chain: seq<Verdict>): seq<Verdict>
    requires c.Cond?
  {
    if c.kind == If then [cond] else if c.kind == Elsif then chain + [cond] else []
  }

  function FoldCondition(c: Command, chain: seq<Verdict>): (Verdict, Test)
    requires c.Cond?
  {
    var context := if c.kind == If then Unknown else ContextCondition(chain);
    if context == Never then (Never, c.test)
    else if c.kind == Else then (Unknown, c.test)
    else FoldTest(c.test)
  }

  // Validation fails on an elsif or else that follows no if or elsif, unless it sits in a block
  // that cannot run.
  function FoldBlock(cs: seq<Command>, chain: seq<Verdict>): Option<seq<VCommand>>
    decreases cs
  {
    if cs == [] then Some([])
    else
      match cs[0]
      case Action(op) => Prepend(VAction(op), FoldBlock(cs[1..], []))
      case Stop => Prepend(VStop, FoldBlock(cs[1..], []))
      case Cond(kind, _, block) =>
        if kind != If && chain == [] then None
        else
          var r := FoldCondition(cs[0], chain);
          match (if r.0 == Never then Some([]) else FoldBlock(block, []))
          case None => None
          case Some(b) =>
            var hasNext := |cs| > 1 && IsElsifElse(cs[1]);
            Prepend(VCond(kind, r.0, hasNext, VStop in b, r.1, b),
                    FoldBlock(cs[1..], ChainAfter(cs[0], r.0, chain)))
  }

  function Prepend(v: VCommand, rest: Option<seq<VCommand>>): Option<seq<VCommand>>
  {
    if rest.None? then None else Some([v] + rest.value)
  }

  // The meaning of a validated block.
  function VExec(vs: seq<VCommand>, taken: bool, o: Oracle, h: seq<Event>): Effect
    decreases vs
  {
    if vs == [] then Effect(h, false)
    else
      match vs[0]
      case VAction(op) => VExec(vs[1..], false, o, h + [Acted(op)])
      case VStop => Effect(h, true)
      case VCond(kind, cond, _, _, test, block) =>
        if kind != If && taken then VExec(vs[1..], true, o, h)
        else
          var r := if cond == Unknown && kind != Else then Eval(test, o, h) else (cond != Never, h);
          if !r.0 then VExec(vs[1..], false, o, r.1)
          else
            var e := VExec(block, false, o, r.1);
            if e.stopped then e else VExec(vs[1..], true, o, e.trace)
  }

  // ----- Folding keeps the value of a test -----

  // No constants, no empty lists: every such test becomes code.
  predicate Lean(t: Test)
    decreases t, 1
  {
    match t
    case Leaf(op) => OpFits(op) && IsTest(op.code)
    case True => false
    case False => false
    case Not(t') => Lean(t')
    case AnyOf(ts) => ts != [] && LeanAll(ts)
    case AllOf(ts) => ts != [] && LeanAll(ts)
  }

  predicate LeanAll(ts: seq<Test>)
    decreases ts, 0
  {
    ts == [] || (Lean(ts[0]) && LeanAll(ts[1..]))
  }

  lemma {:induction false} FoldTestKeepsValue(t: Test, f: Op -> bool)
    requires TestFits(t)
    ensures var r := FoldTest(t);
            && r.0 != Unset
            && (r.0.Constant() ==> r.0 == ConstantOf(Value(t, f)))
            && (r.0 == Unknown ==> Lean(r.1) && Value(r.1, f) == Value(t, f))
    decreases t, 1
  {
    match t
    case Leaf(_) =>
    case True =>
    case False =>
    case Not(t') => FoldTestKeepsValue(t', f);
    case AnyOf(ts) => FoldListKeepsValue(true, ts, Unset, f);
    case AllOf(ts) => FoldListKeepsValue(false, ts, Unset, f);
  }

  lemma {:induction false} FoldListKeepsValue(stop: bool, ts: seq<Test>, current: Verdict, f: Op -> bool)
    requires TestsFit(ts) && current != ConstantOf(stop)
    ensures var r := FoldList(stop, ts, current);
            && (r.0 == ConstantOf(stop) ==> ValueUntil(ts, stop, f) == stop)
            && (r.0 != ConstantOf(stop) ==> LeanAll(r.1) && ValueUntil(r.1, stop, f) == ValueUntil(ts, stop, f))
            && (r.0 == Unknown <==> r.0 != ConstantOf(stop) && (current == Unknown || r.1 != []))
            && (r.0 == Unset ==> ts == [])
    decreases ts, 0
  {
    if ts != [] {
      FoldTestKeepsValue(ts[0], f);
      var r := FoldTest(ts[0]);
      var step := ListConst(stop, current, r.0);
      if step.1 {
        FoldListKeepsValue(stop, ts[1..], step.0, f);
        var rest := FoldList(stop, ts[1..], step.0).1;
        if !r.0.Constant() { assert ([r.1] + rest)[1..] == rest; }
      }
    }
  }

  // ----- Folding keeps the actions of a script -----

  ghost predicate SameActions(a: Effect, b: Effect)
  {
    Actions(a.trace) == Actions(b.trace) && a.stopped == b.stopped
  }

  // Both conditions have the same outcome, and neither performs an action.
  lemma ConditionKeepsValue(c: Command, chain: seq<Verdict>, o: Oracle, h: seq<Event>, h': seq<Event>)
    requires BlindToTests(o) && Actions(h) == Actions(h')
    requires c.Cond? && (c.kind != Else ==> TestFits(c.test))
    requires c.kind == If || Always !in chain
    ensures var r := FoldCondition(c, chain);
            var direct := if c.kind == Else then (true, h) else Eval(c.test, o, h);
            var folded := if r.0 == Unknown && c.kind != Else then Eval(r.1, o, h') else (r.0 != Never, h');
            && direct.0 == folded.0 && Actions(direct.1) == Actions(folded.1) == Actions(h)
            && r.0 != Unset && (r.0 == Always ==> folded.0)
  {
    if c.kind != Else {
      var f := (op: Op) => o(h, op);
      var r := FoldTest(c.test);
      FoldTestKeepsValue(c.test, f);
      EvalIsValue(c.test, o, h, f);
      EvalIsValue(r.1, o, h', f);
    }
  }

  lemma {:induction false} FoldBlockKeepsActions(cs: seq<Command>, chain: seq<Verdict>, taken: bool, o: Oracle,
                                                 h: seq<Event>, h': seq<Event>)
    requires BlindToTests(o) && BlockFits(cs) && FoldBlock(cs, chain).Some?
    requires Actions(h) == Actions(h') && (Always in chain ==> taken)
    ensures SameActions(Exec(cs, taken, o, h), VExec(FoldBlock(cs, chain).value, taken, o, h'))
    decreases cs
  {
    hide BlindToTests, Actions, Eval;
    if cs != [] {
      var vs := FoldBlock(cs, chain).value;
      match cs[0]
      case Action(op) =>
        TestLeavesActions(h, Acted(op));
        TestLeavesActions(h', Acted(op));
        FoldBlockKeepsActions(cs[1..], [], false, o, h + [Acted(op)], h' + [Acted(op)]);
        assert vs[1..] == FoldBlock(cs[1..], []).value;
      case Stop =>
      case Cond(kind, test, block) =>
        var r := FoldCondition(cs[0], chain);
        var next := ChainAfter(cs[0], r.0, chain);
        assert vs[1..] == FoldBlock(cs[1..], next).value;
        FoldCondKeepsActions(cs, chain, taken, o, h, h');
    }
  }

  lemma {:induction false} FoldCondKeepsActions(cs: seq<Command>, chain: seq<Verdict>, taken: bool, o: Oracle,
                                                h: seq<Event>, h': seq<Event>)
    requires BlindToTests(o) && BlockFits(cs) && FoldBlock(cs, chain).Some?
    requires cs != [] && cs[0].Cond?
    requires Actions(h) == Actions(h') && (Always in chain ==> taken)
    ensures SameActions(Exec(cs, taken, o, h), VExec(FoldBlock(cs, chain).value, taken, o, h'))
    decreases cs, 0
  {
    hide BlindToTests, Actions, Eval, BlockFits, FoldTest;
    var c := cs[0];
    var vs := FoldBlock(cs, chain).value;
    var r := FoldCondition(c, chain);
    var next := ChainAfter(c, r.0, chain);
    assert vs[1..] == FoldBlock(cs[1..], next).value;
    BlockFitsParts(cs);
    if c.kind != If && taken {
      FoldBlockKeepsActions(cs[1..], next, true, o, h, h');
    } else {
      ConditionKeepsValue(c, chain, o, h, h');
      var direct := if c.kind == Else then (true, h) else Eval(c.test, o, h);
      var folded := if r.0 == Unknown && c.kind != Else then Eval(r.1, o, h') else (r.0 != Never, h');
      if !direct.0 {
        FoldBlockKeepsActions(cs[1..], next, false, o, direct.1, folded.1);
      } else {
        FoldBlockKeepsActions(c.block, [], false, o, direct.1, folded.1);
        var e, e' := Exec(c.block, false, o, direct.1), VExec(vs[0].block, false, o, folded.1);
        if !e.stopped { FoldBlockKeepsActions(cs[1..], next, true, o, e.trace, e'.trace); }
      }
    }
  }

  lemma BlockFitsParts(cs: seq<Command>)
    requires BlockFits(cs) && cs != []
    ensures BlockFits(cs[1..])
    ensures cs[0].Cond? ==> (cs[0].kind != Else ==> TestFits(cs[0].test)) && BlockFits(cs[0].block)
  {
  }

  // ----- The validator -----

  method ValidateTest(t: Test) returns (verdict: Verdict, folded: Test)
    ensures (verdict, folded) == FoldTest(t)
    decreases t, 1
  {
    match t
    case Leaf(_) => verdict, folded := Unknown, t;
    case True => verdict, folded := Always, t;
    case False => verdict, folded := Never, t;
    case Not(t') =>
      verdict, folded := ValidateTest(t');
      verdict, folded := NotConst(verdict), Not(folded);
    case AnyOf(ts) =>
      var kept;
      verdict, kept := ValidateTestList(true, ts);
      folded := AnyOf(kept);
    case AllOf(ts) =>
      var kept;
      verdict, kept := ValidateTestList(false, ts);
      folded := AllOf(kept);
  }

  // Goes through the members in order and detaches the constant ones. A member that decides the
  // list ends it at once, with the members from there on untouched.
  method ValidateTestList(stop: bool, ts: seq<Test>) returns (verdict: Verdict, kept: seq<Test>)
    ensures (verdict, kept) == FoldList(stop, ts, Unset)
    decreases ts, 0
  {
    hide FoldTest;
    verdict, kept := Unset, [];
    ghost var goal := FoldList(stop, ts, Unset);
    assert ts[0..] == ts && [] + goal.1 == goal.1;
    var i := 0;
    while i < |ts|
      invariant 0 <= i <= |ts|
      invariant var rest := FoldList(stop, ts[i..], verdict); goal == (rest.0, kept + rest.1)
    {
      var c, t' := ValidateTest(ts[i]);
      var step := ListConst(stop, verdict, c);
      verdict := step.0;
      if !step.1 {
        return verdict, kept + ts[i..];
      }
      assert ts[i..][1..] == ts[i + 1..];
      ghost var rest := FoldList(stop, ts[i + 1..], verdict).1;
      assert kept + ([t'] + rest) == kept + [t'] + rest;
      if !c.Constant() {
        kept := kept + [t'];
      }
      i := i + 1;
    }
    assert ts[i..] == [] && kept + [] == kept;
  }

  // The condition a branch starts with: it walks back through the earlier branches of its chain.
  method InitialCondition(chain: seq<Verdict>) returns (condition: Verdict)
    ensures condition == ContextCondition(chain)
  {
    condition := Unknown;
    var k := |chain|;
    while k > 0
      invariant 0 <= k <= |chain|
      invariant Always !in chain[k..]
    {
      k := k - 1;
      if chain[k] == Always {
        return Never;
      }
    }
  }

  function Append(done: seq<VCommand>, rest: Option<seq<VCommand>>): Option<seq<VCommand>>
  {
    if rest.None? then None else Some(done + rest.value)
  }

  lemma AppendNothing(rest: Option<seq<VCommand>>, done: seq<VCommand>)
    ensures Append([], rest) == rest && Append(done, Some([])) == Some(done)
  {
    assert done + [] == done;
    if rest.Some? { assert [] + rest.value == rest.value; }
  }

  lemma AppendPrepend(done: seq<VCommand>, v: VCommand, rest: Option<seq<VCommand>>)
    ensures Append(done, Prepend(v, rest)) == Append(done + [v], rest)
  {
    if rest.Some? { assert done + ([v] + rest.value) == done + [v] + rest.value; }
  }

  method ValidateBlock(cs: seq<Command>) returns (r: Option<seq<VCommand>>)
    ensures r == FoldBlock(cs, [])
    decreases cs
  {
    hide FoldCondition;
    var done: seq<VCommand> := [];
    var chain: seq<Verdict> := [];
    assert cs[0..] == cs;
    AppendNothing(FoldBlock(cs, []), done);
    for i := 0 to |cs|
      invariant FoldBlock(cs, []) == Append(done, FoldBlock(cs[i..], chain))
    {
      var c := cs[i];
      assert cs[i..][1..] == cs[i + 1..];
      ghost var before := done;
      match c {
        case Action(op) => done, chain := done + [VAction(op)], [];
        case Stop => done, chain := done + [VStop], [];
        case Cond(kind, _, block) =>
          // An elsif or else must follow an if or elsif.
          if kind != If && chain == [] { return None; }
          var cond, test := ValidateCondition(c, chain);
          var b: Option<seq<VCommand>> := Some([]);
          if cond != Never {
            b := ValidateBlock(block);
            if b.None? { return None; }
          }
          var hasNext := i + 1 < |cs| && IsElsifElse(cs[i + 1]);
          done := done + [VCond(kind, cond, hasNext, VStop in b.value, test, b.value)];
          chain := ChainAfter(c, cond, chain);
      }
      AppendPrepend(before, done[|before|], FoldBlock(cs[i + 1..], chain));
    }
    AppendNothing(None, done);
    r := Some(done);
  }

  method ValidateCondition(c: Command, chain: seq<Verdict>) returns (cond: Verdict, test: Test)
    requires c.Cond?
    ensures (cond, test) == FoldCondition(c, chain)
  {
    cond := Unknown;
    if c.kind != If {
      cond := InitialCondition(chain);
    }
    test := c.test;
    if cond != Never && c.kind != Else {
      cond, test := ValidateTest(c.test);
    }
  }
}
