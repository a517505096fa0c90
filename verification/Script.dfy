// Sieve scripts and their direct meaning: sections 3.1 (if/elsif/else) and 3.3 (stop) of RFC 5228,
// and the tests of section 5 that combine other tests.
module Script {
  import opened Bytes
  import opened Operands
  import opened Interpreter

  datatype Test =
    | Leaf(op: Op)
    | True
    | False
    | Not(test: Test)
    | AnyOf(tests: seq<Test>)
    | AllOf(tests: seq<Test>)

  datatype Branch = If | Elsif | Else

  // if, elsif and else are separate commands of one block, as in the AST. `else` has no test.
  datatype Command =
    | Action(op: Op)
    | Stop
    | Cond(kind: Branch, test: Test, block: seq<Command>)

  // A test and the events of evaluating it, left to right, no further than needed.
  function Eval(t: Test, o: Oracle, h: seq<Event>): (bool, seq<Event>)
    decreases t, 1
  {
    match t
    case Leaf(op) => (o(h, op), h + [Tested(op)])
    case True => (true, h)
    case False => (false, h)
    case Not(t') => var r := Eval(t', o, h); (!r.0, r.1)
    case AnyOf(ts) => EvalUntil(ts, true, o, h)
    case AllOf(ts) => EvalUntil(ts, false, o, h)
  }

  // Evaluates until some test yields `stop`; the value is `stop` exactly when one does.
  function EvalUntil(ts: seq<Test>, stop: bool, o: Oracle, h: seq<Event>): (bool, seq<Event>)
    decreases ts, 0
  {
    if ts == [] then (!stop, h)
    else
      var r := Eval(ts[0], o, h);
      if r.0 == stop then r else EvalUntil(ts[1..], stop, o, r.1)
  }

  datatype Effect = Effect(trace: seq<Event>, stopped: bool)

  // `taken` says that an earlier branch of the chain that continues here was chosen.
  function Exec(cs: seq<Command>, taken: bool, o: Oracle, h: seq<Event>): Effect
    decreases cs
  {
    if cs == [] then Effect(h, false)
    else
      match cs[0]
      case Action(op) => Exec(cs[1..], false, o, h + [Acted(op)])
      case Stop => Effect(h, true)
      case Cond(kind, test, block) =>
        if kind != If && taken then Exec(cs[1..], true, o, h)
        else
          var r := if kind == Else then (true, h) else Eval(test, o, h);
          if !r.0 then Exec(cs[1..], false, o, r.1)
          else
            var e := Exec(block, false, o, r.1);
            if e.stopped then e else Exec(cs[1..], true, o, e.trace)
  }

  // ----- Well-formed scripts -----

  predicate TestFits(t: Test)
    decreases t, 1
  {
    match t
    case Leaf(op) => OpFits(op) && IsTest(op.code)
    case True => true
    case False => true
    case Not(t') => TestFits(t')
    case AnyOf(ts) => ts != [] && TestsFit(ts)
    case AllOf(ts) => ts != [] && TestsFit(ts)
  }

  predicate TestsFit(ts: seq<Test>)
    decreases ts, 0
  {
    ts == [] || (TestFits(ts[0]) && TestsFit(ts[1..]))
  }

  predicate BlockFits(cs: seq<Command>)
    decreases cs
  {
    cs == [] ||
    (&& BlockFits(cs[1..])
     && match cs[0]
        case Action(op) => OpFits(op) && IsAction(op.code)
        case Stop => true
        case Cond(kind, test, block) => (kind != Else ==> TestFits(test)) && BlockFits(block))
  }

  // ----- The actions in a trace -----

  function Actions(h: seq<Event>): seq<Event>
  {
    if h == [] then []
    else Actions(h[..|h| - 1]) + (if h[|h| - 1].Acted? then [h[|h| - 1]] else [])
  }

  // Tests have no effect on later tests.
  ghost predicate BlindToTests(o: Oracle)
  {
    forall h, h', op | Actions(h) == Actions(h') :: o(h, op) == o(h', op)
  }

  lemma TestLeavesActions(h: seq<Event>, e: Event)
    ensures e.Tested? ==> Actions(h + [e]) == Actions(h)
    ensures e.Acted? ==> Actions(h + [e]) == Actions(h) + [e]
  {
    assert (h + [e])[..|h|] == h;
  }

  // The value of a test when every leaf has a fixed value.
  function Value(t: Test, f: Op -> bool): bool
    decreases t, 1
  {
    match t
    case Leaf(op) => f(op)
    case True => true
    case False => false
    case Not(t') => !Value(t', f)
    case AnyOf(ts) => ValueUntil(ts, true, f)
    case AllOf(ts) => ValueUntil(ts, false, f)
  }

  function ValueUntil(ts: seq<Test>, stop: bool, f: Op -> bool): bool
    decreases ts, 0
  {
    if ts == [] then !stop
    else if Value(ts[0], f) == stop then stop
    else ValueUntil(ts[1..], stop, f)
  }

  lemma {:induction false} EvalIsValue(t: Test, o: Oracle, h: seq<Event>, f: Op -> bool)
    requires BlindToTests(o) && forall op :: f(op) == o(h, op)
    ensures Eval(t, o, h).0 == Value(t, f)
    ensures Actions(Eval(t, o, h).1) == Actions(h)
    decreases t, 1
  {
    match t
    case Leaf(op) => TestLeavesActions(h, Tested(op));
    case True =>
    case False =>
    case Not(t') => EvalIsValue(t', o, h, f);
    case AnyOf(ts) => EvalUntilIsValue(ts, true, o, h, f);
    case AllOf(ts) => EvalUntilIsValue(ts, false, o, h, f);
  }

  lemma {:induction false} EvalUntilIsValue(ts: seq<Test>, stop: bool, o: Oracle, h: seq<Event>, f: Op -> bool)
    requires BlindToTests(o) && forall op :: f(op) == o(h, op)
    ensures EvalUntil(ts, stop, o, h).0 == ValueUntil(ts, stop, f)
    ensures Actions(EvalUntil(ts, stop, o, h).1) == Actions(h)
    decreases ts, 0
  {
    if ts != [] {
      EvalIsValue(ts[0], o, h, f);
      var h' := Eval(ts[0], o, h).1;
      EvalUntilIsValue(ts[1..], stop, o, h', f);
    }
  }
}
