// What constant folding does to the tests that are carried out. Folding keeps the value of a test
// but may drop a leaf test in front of the constant that decides; when exactly it does not is
// proved here.
module Folding {
  import opened Bytes
  import opened Operands
  import opened Interpreter
  import opened Script
  import opened Validator

  // The value of a test that is decided before any leaf is reached.
  function Probe(t: Test): Option<bool>
    decreases t, 1
  {
    match t
    case Leaf(_) => None
    case True => Some(true)
    case False => Some(false)
    case Not(t') => var p := Probe(t'); if p.None? then None else Some(!p.value)
    case AnyOf(ts) => ProbeUntil(ts, true)
    case AllOf(ts) => ProbeUntil(ts, false)
  }

  function ProbeUntil(ts: seq<Test>, stop: bool): Option<bool>
    decreases ts, 0
  {
    if ts == [] then Some(!stop)
    else
      var p := Probe(ts[0]);
      if p.None? || p.value == stop then p else ProbeUntil(ts[1..], stop)
  }

  // Every constant inside the test is decided before any leaf.
  predicate Decided(t: Test)
    decreases t, 1
  {
    if FoldTest(t).0.Constant() then Probe(t).Some?
    else
      match t
      case Leaf(_) => true
      case True => true
      case False => true
      case Not(t') => Decided(t')
      case AnyOf(ts) => DecidedAll(ts)
      case AllOf(ts) => DecidedAll(ts)
  }

  predicate DecidedAll(ts: seq<Test>)
    decreases ts, 0
  {
    ts == [] || (Decided(ts[0]) && DecidedAll(ts[1..]))
  }

  // Evaluation of the folded test.
  function FoldedEval(t: Test, o: Oracle, h: seq<Event>): (bool, seq<Event>)
  {
    var r := FoldTest(t);
    if r.0.Constant() then (r.0 == Always, h) else Eval(r.1, o, h)
  }

  // ----- Trees of questions and actions -----

  datatype Tree = Done(value: bool) | Ask(op: Op, yes: Tree, no: Tree) | Act(op: Op, next: Tree)

  function Size(tree: Tree): nat
  {
    match tree
    case Done(_) => 1
    case Ask(_, yes, no) => 1 + Size(yes) + Size(no)
    case Act(_, next) => 1 + Size(next)
  }

  function Play(tree: Tree, o: Oracle, h: seq<Event>): (bool, seq<Event>)
  {
    match tree
    case Done(v) => (v, h)
    case Ask(op, yes, no) => Play(if o(h, op) then yes else no, o, h + [Tested(op)])
    case Act(op, next) => Play(next, o, h + [Acted(op)])
  }

  // The questions of a test, going on as `yes` or `no` says.
  function TreeOf(t: Test, yes: Tree, no: Tree): Tree
    decreases t, 1
  {
    match t
    case Leaf(op) => Ask(op, yes, no)
    case True => yes
    case False => no
    case Not(t') => TreeOf(t', no, yes)
    case AnyOf(ts) => TreeUntil(ts, true, yes, no)
    case AllOf(ts) => TreeUntil(ts, false, no, yes)
  }

  function TreeUntil(ts: seq<Test>, stop: bool, stopped: Tree, through: Tree): Tree
    decreases ts, 0
  {
    if ts == [] then through
    else
      var next := TreeUntil(ts[1..], stop, stopped, through);
      if stop then TreeOf(ts[0], stopped, next) else TreeOf(ts[0], next, stopped)
  }

  function FoldedTree(t: Test, yes: Tree, no: Tree): Tree
  {
    var r := FoldTest(t);
    if r.0 == Always then yes else if r.0 == Never then no else TreeOf(r.1, yes, no)
  }

  lemma {:induction false} PlayTree(t: Test, yes: Tree, no: Tree, o: Oracle, h: seq<Event>)
    ensures var e := Eval(t, o, h);
            Play(TreeOf(t, yes, no), o, h) == Play(if e.0 then yes else no, o, e.1)
    decreases t, 1
  {
    match t
    case Leaf(_) =>
    case True =>
    case False =>
    case Not(t') => PlayTree(t', no, yes, o, h);
    case AnyOf(ts) => PlayUntil(ts, true, yes, no, o, h);
    case AllOf(ts) => PlayUntil(ts, false, no, yes, o, h);
  }

  lemma {:induction false} PlayUntil(ts: seq<Test>, stop: bool, stopped: Tree, through: Tree, o: Oracle, h: seq<Event>)
    ensures var e := EvalUntil(ts, stop, o, h);
            Play(TreeUntil(ts, stop, stopped, through), o, h) == Play(if e.0 == stop then stopped else through, o, e.1)
    decreases ts, 0
  {
    if ts != [] {
      var next := TreeUntil(ts[1..], stop, stopped, through);
      if stop { PlayTree(ts[0], stopped, next, o, h); } else { PlayTree(ts[0], next, stopped, o, h); }
      PlayUntil(ts[1..], stop, stopped, through, o, Eval(ts[0], o, h).1);
    }
  }

  // Two different trees are told apart by some outcome of the questions.
  lemma {:induction false} TellApart(a: Tree, b: Tree, h: seq<Event>) returns (o: Oracle)
    requires a != b
    ensures Play(a, o, h) != Play(b, o, h)
    decreases a
  {
    if a.Ask? && b.Ask? && a.op == b.op {
      var answer := a.yes != b.yes;
      var h' := h + [Tested(a.op)];
      var o' := TellApart(if answer then a.yes else a.no, if answer then b.yes else b.no, h');
      o := (g, op) => if |g| <= |h| then answer else o'(g, op);
      PlayLater(if answer then a.yes else a.no, o, o', h', |h|);
      PlayLater(if answer then b.yes else b.no, o, o', h', |h|);
      assert o(h, a.op) == answer;
    } else if a.Act? && b.Act? && a.op == b.op {
      o := TellApart(a.next, b.next, h + [Acted(a.op)]);
    } else {
      o := (g, op) => true;
      FirstEvent(a, o, h);
      FirstEvent(b, o, h);
    }
  }

  // Where playing goes on after the first event.
  function Onward(tree: Tree, o: Oracle, h: seq<Event>): Tree
    requires !tree.Done?
  {
    if tree.Act? then tree.next else if o(h, tree.op) then tree.yes else tree.no
  }

  function EventOf(tree: Tree): Event
    requires !tree.Done?
  {
    if tree.Act? then Acted(tree.op) else Tested(tree.op)
  }

  lemma {:induction false} PlayGrows(tree: Tree, o: Oracle, h: seq<Event>)
    ensures h <= Play(tree, o, h).1
    decreases tree
  {
    if !tree.Done? { PlayGrows(Onward(tree, o, h), o, h + [EventOf(tree)]); }
  }

  lemma FirstEvent(tree: Tree, o: Oracle, h: seq<Event>)
    ensures var trace := Play(tree, o, h).1;
            if tree.Done? then trace == h else |trace| > |h| && trace[|h|] == EventOf(tree)
  {
    if !tree.Done? { PlayGrows(Onward(tree, o, h), o, h + [EventOf(tree)]); }
  }

  // Only histories at least as long as `h` are consulted from `h` on.
  lemma {:induction false} PlayLater(tree: Tree, o: Oracle, o': Oracle, h: seq<Event>, n: nat)
    requires |h| > n && forall g, op | |g| > n :: o(g, op) == o'(g, op)
    ensures Play(tree, o, h) == Play(tree, o', h)
    decreases tree
  {
    if !tree.Done? { PlayLater(Onward(tree, o, h), o, o', h + [EventOf(tree)], n); }
  }

  // ----- A decided test keeps its tree -----

  lemma {:induction false} ProbedTree(t: Test, yes: Tree, no: Tree)
    ensures Probe(t).Some? ==> TreeOf(t, yes, no) == if Probe(t).value then yes else no
    decreases t, 1
  {
    match t
    case Leaf(_) =>
    case True =>
    case False =>
    case Not(t') => ProbedTree(t', no, yes);
    case AnyOf(ts) => ProbedTreeUntil(ts, true, yes, no);
    case AllOf(ts) => ProbedTreeUntil(ts, false, no, yes);
  }

  lemma {:induction false} ProbedTreeUntil(ts: seq<Test>, stop: bool, stopped: Tree, through: Tree)
    ensures var p := ProbeUntil(ts, stop);
            p.Some? ==> TreeUntil(ts, stop, stopped, through) == if p.value == stop then stopped else through
    decreases ts, 0
  {
    if ts != [] {
      var next := TreeUntil(ts[1..], stop, stopped, through);
      if stop { ProbedTree(ts[0], stopped, next); } else { ProbedTree(ts[0], next, stopped); }
      ProbedTreeUntil(ts[1..], stop, stopped, through);
    }
  }

  lemma {:induction false} ProbeIsValue(t: Test, f: Op -> bool)
    ensures Probe(t).Some? ==> Probe(t).value == Value(t, f)
    decreases t, 1
  {
    match t
    case Leaf(_) =>
    case True =>
    case False =>
    case Not(t') => ProbeIsValue(t', f);
    case AnyOf(ts) => ProbeUntilIsValue(ts, true, f);
    case AllOf(ts) => ProbeUntilIsValue(ts, false, f);
  }

  lemma {:induction false} ProbeUntilIsValue(ts: seq<Test>, stop: bool, f: Op -> bool)
    ensures ProbeUntil(ts, stop).Some? ==> ProbeUntil(ts, stop).value == ValueUntil(ts, stop, f)
    decreases ts, 0
  {
    if ts != [] {
      ProbeIsValue(ts[0], f);
      ProbeUntilIsValue(ts[1..], stop, f);
    }
  }

  lemma {:induction false} DecidedTree(t: Test, yes: Tree, no: Tree)
    requires TestFits(t) && Decided(t)
    ensures FoldedTree(t, yes, no) == TreeOf(t, yes, no)
    decreases t, 1
  {
    var f := (op: Op) => true;
    FoldTestKeepsValue(t, f);
    if FoldTest(t).0.Constant() {
      ProbedTree(t, yes, no);
      ProbeIsValue(t, f);
    } else {
      match t
      case Leaf(_) =>
      case Not(t') => DecidedTree(t', no, yes);
      case AnyOf(ts) => DecidedTreeUntil(ts, true, Unset, yes, no);
      case AllOf(ts) => DecidedTreeUntil(ts, false, Unset, no, yes);
    }
  }

  lemma {:induction false} DecidedTreeUntil(ts: seq<Test>, stop: bool, current: Verdict, stopped: Tree, through: Tree)
    requires TestsFit(ts) && DecidedAll(ts) && FoldList(stop, ts, current).0 != ConstantOf(stop)
    ensures TreeUntil(FoldList(stop, ts, current).1, stop, stopped, through) == TreeUntil(ts, stop, stopped, through)
    decreases ts, 0
  {
    hide Decided, Probe, TreeOf;
    if ts != [] {
      var r := FoldTest(ts[0]);
      var step := ListConst(stop, current, r.0);
      var rest := FoldList(stop, ts[1..], step.0).1;
      DecidedTreeUntil(ts[1..], stop, step.0, stopped, through);
      var next := TreeUntil(ts[1..], stop, stopped, through);
      if stop { DecidedTree(ts[0], stopped, next); } else { DecidedTree(ts[0], next, stopped); }
      FoldTestKeepsValue(ts[0], (op: Op) => true);
      if !r.0.Constant() { assert ([r.1] + rest)[1..] == rest; }
    }
  }

  // ----- Otherwise the tree shrinks -----

  lemma {:induction false} TreeSize(t: Test, yes: Tree, no: Tree)
    requires TestFits(t)
    ensures var n := Size(TreeOf(t, yes, no));
            match FoldTest(t).0
            case Always => n >= Size(yes) && (Probe(t).None? ==> n > Size(yes))
            case Never => n >= Size(no) && (Probe(t).None? ==> n > Size(no))
            case Unknown => n > Size(yes) && n > Size(no)
            case Unset => false
    decreases t, 1
  {
    hide FoldTest, FoldList;
    FoldTestKeepsValue(t, (op: Op) => true);
    match t
    case Leaf(_) => FoldLeafs(t);
    case True => FoldLeafs(t);
    case False => FoldLeafs(t);
    case Not(t') => FoldNot(t'); TreeSize(t', no, yes);
    case AnyOf(ts) => FoldLists(ts); TreeUntilSize(ts, true, Unset, yes, no);
    case AllOf(ts) => FoldLists(ts); TreeUntilSize(ts, false, Unset, no, yes);
  }

  lemma FoldLeafs(t: Test)
    requires t.Leaf? || t.True? || t.False?
    ensures FoldTest(t).0 == if t.Leaf? then Unknown else if t.True? then Always else Never
  {
  }

  lemma FoldNot(t: Test)
    ensures FoldTest(Not(t)) == (NotConst(FoldTest(t).0), Not(FoldTest(t).1))
  {
  }

  lemma FoldLists(ts: seq<Test>)
    ensures FoldTest(AnyOf(ts)) == (FoldList(true, ts, Unset).0, AnyOf(FoldList(true, ts, Unset).1))
    ensures FoldTest(AllOf(ts)) == (FoldList(false, ts, Unset).0, AllOf(FoldList(false, ts, Unset).1))
  {
  }

  lemma {:induction false} TreeUntilSize(ts: seq<Test>, stop: bool, current: Verdict, stopped: Tree, through: Tree)
    requires TestsFit(ts) && current != ConstantOf(stop)
    ensures var n := Size(TreeUntil(ts, stop, stopped, through));
            var r := FoldList(stop, ts, current);
            if r.0 == ConstantOf(stop) then
              n >= Size(stopped) && (ProbeUntil(ts, stop).None? ==> n > Size(stopped))
            else
              && n >= Size(through) && (ProbeUntil(ts, stop).None? ==> n > Size(through))
              && (r.1 != [] ==> n > Size(stopped) && n > Size(through))
    decreases ts, 0
  {
    hide TreeOf, Probe;
    if ts != [] {
      var r := FoldTest(ts[0]);
      var step := ListConst(stop, current, r.0);
      var next := TreeUntil(ts[1..], stop, stopped, through);
      TreeSize(ts[0], if stop then stopped else next, if stop then next else stopped);
      ProbeIsVerdict(ts[0]);
      if step.1 { TreeUntilSize(ts[1..], stop, step.0, stopped, through); }
    }
  }

  lemma ProbeIsVerdict(t: Test)
    requires TestFits(t)
    ensures Probe(t).Some? && FoldTest(t).0.Constant() ==> FoldTest(t).0 == ConstantOf(Probe(t).value)
  {
    FoldTestKeepsValue(t, (op: Op) => true);
    ProbeIsValue(t, (op: Op) => true);
  }

  // Folding never makes a tree larger, and makes it smaller wherever a leaf is dropped.
  lemma {:induction false} FoldShrinks(t: Test, yes: Tree, no: Tree, yes': Tree, no': Tree)
    requires TestFits(t) && Size(yes') <= Size(yes) && Size(no') <= Size(no)
    ensures var n, n' := Size(TreeOf(t, yes, no)), Size(FoldedTree(t, yes', no'));
            var c := FoldTest(t).0;
            && n' <= n && c != Unset
            && (!Decided(t) || (c != Never && Size(yes') < Size(yes)) || (c != Always && Size(no') < Size(no))
                ==> n' < n)
    decreases t, 1
  {
    hide FoldList, Probe;
    TreeSize(t, yes, no);
    if !FoldTest(t).0.Constant() {
      match t
      case Leaf(_) =>
      case Not(t') => FoldShrinks(t', no, yes, no', yes');
      case AnyOf(ts) =>
        FoldListUnknown(ts, true);
        FoldShrinksUntil(ts, true, Unset, yes, no, yes', no');
      case AllOf(ts) =>
        FoldListUnknown(ts, false);
        FoldShrinksUntil(ts, false, Unset, no, yes, no', yes');
    }
  }

  lemma FoldListUnknown(ts: seq<Test>, stop: bool)
    requires TestsFit(ts) && FoldList(stop, ts, Unset).0 == Unknown
    ensures FoldList(stop, ts, Unset).1 != []
  {
    FoldListKeepsValue(stop, ts, Unset, (op: Op) => true);
  }

  lemma {:induction false} FoldShrinksUntil(ts: seq<Test>, stop: bool, current: Verdict,
                                            stopped: Tree, through: Tree, stopped': Tree, through': Tree)
    requires TestsFit(ts) && FoldList(stop, ts, current).0 != ConstantOf(stop)
    requires Size(stopped') <= Size(stopped) && Size(through') <= Size(through)
    ensures var kept := FoldList(stop, ts, current).1;
            var n, n' := Size(TreeUntil(ts, stop, stopped, through)), Size(TreeUntil(kept, stop, stopped', through'));
            && n' <= n
            && (!DecidedAll(ts) || Size(through') < Size(through) || (kept != [] && Size(stopped') < Size(stopped))
                ==> n' < n)
    decreases ts, 0
  {
    hide TreeOf, Decided, FoldTest;
    if ts != [] {
      var r := FoldTest(ts[0]);
      var step := ListConst(stop, current, r.0);
      var rest := FoldList(stop, ts[1..], step.0).1;
      var next, next' := TreeUntil(ts[1..], stop, stopped, through), TreeUntil(rest, stop, stopped', through');
      FoldShrinksUntil(ts[1..], stop, step.0, stopped, through, stopped', through');
      if stop {
        FoldShrinks(ts[0], stopped, next, stopped', next');
      } else {
        FoldShrinks(ts[0], next, stopped, next', stopped');
      }
      if !r.0.Constant() { assert ([r.1] + rest)[1..] == rest; }
    }
  }

  // Folding a test leaves the tests that are carried out, and their order, unchanged for every
  // outcome if and only if its constants are decided before any leaf.
  lemma FoldingKeepsTestsExactlyWhenDecided(t: Test)
    requires TestFits(t)
    ensures (forall o: Oracle, h :: FoldedEval(t, o, h) == Eval(t, o, h)) <==> Decided(t)
  {
    var yes, no := Done(true), Done(false);
    var a, b := TreeOf(t, yes, no), FoldedTree(t, yes, no);
    forall o: Oracle, h ensures Play(a, o, h) == Eval(t, o, h) && Play(b, o, h) == FoldedEval(t, o, h) {
      PlayTree(t, yes, no, o, h);
      PlayFolded(t, o, h);
    }
    if Decided(t) {
      DecidedTree(t, yes, no);
    } else {
      FoldShrinks(t, yes, no, yes, no);
      var o := TellApart(a, b, []);
    }
  }

  lemma PlayFolded(t: Test, o: Oracle, h: seq<Event>)
    requires TestFits(t)
    ensures Play(FoldedTree(t, Done(true), Done(false)), o, h) == FoldedEval(t, o, h)
  {
    FoldTestKeepsValue(t, (op: Op) => true);
    PlayTree(FoldTest(t).1, Done(true), Done(false), o, h);
  }

  // anyof (header ..., true): folding decides it without the header test.
  lemma FoldingMayDropATest(op: Op, o: Oracle, h: seq<Event>)
    requires OpFits(op) && IsTest(op.code)
    ensures var t := AnyOf([Leaf(op), True]);
            && TestFits(t) && !Decided(t)
            && Eval(t, o, h) == (true, h + [Tested(op)])
            && FoldedEval(t, o, h) == (true, h)
  {
    var ts := [Leaf(op), True];
    var rest := ts[1..];
    assert rest == [True] && rest[1..] == [];
    assert TestsFit(rest[1..]) && TestsFit(rest);
    assert FoldTest(rest[0]).0 == Always && FoldList(true, rest, Unknown).0 == Always;
    assert FoldTest(ts[0]).0 == Unknown && FoldList(true, ts, Unset).0 == Always;
    assert Eval(rest[0], o, h + [Tested(op)]) == (true, h + [Tested(op)]);
    assert EvalUntil(rest, true, o, h + [Tested(op)]) == (true, h + [Tested(op)]);
    assert Eval(ts[0], o, h) == (o(h, op), h + [Tested(op)]);
    assert EvalUntil(ts, true, o, h) == (true, h + [Tested(op)]);
    assert Probe(ts[0]) == None && ProbeUntil(ts, true) == None;
  }
}
