// What scripts mean, said without following them command by command: lists of tests, constant tests, and
// if/elsif/else chains.
module Meaning {
  import opened Bytes
  import opened Operands
  import opened Interpreter
  import opened Script
  import opened Validator

  // ----- Lists of tests -----

  // anyof is true when some test is, allof when all are.
  lemma {:induction false} ListValue(ts: seq<Test>, f: Op -> bool)
    ensures Value(AnyOf(ts), f) <==> exists i | 0 <= i < |ts| :: Value(ts[i], f)
    ensures Value(AllOf(ts), f) <==> forall i | 0 <= i < |ts| :: Value(ts[i], f)
  {
    UntilValue(ts, true, f);
    UntilValue(ts, false, f);
  }

  lemma {:induction false} UntilValue(ts: seq<Test>, stop: bool, f: Op -> bool)
    ensures ValueUntil(ts, stop, f) == stop <==> exists i | 0 <= i < |ts| :: Value(ts[i], f) == stop
    decreases |ts|
  {
    if ts != [] {
      var rest := ts[1..];
      UntilValue(rest, stop, f);
      assert forall i | 0 <= i < |rest| :: rest[i] == ts[i + 1];
      if i :| 0 <= i < |ts| && Value(ts[i], f) == stop && i > 0 { assert rest[i - 1] == ts[i]; }
    }
  }

  // The history when the first `n` tests of a list have been carried out.
  function HistoryAfter(ts: seq<Test>, n: nat, o: Oracle, h: seq<Event>): seq<Event>
    requires n <= |ts|
  {
    if n == 0 then h else Eval(ts[n - 1], o, HistoryAfter(ts, n - 1, o, h)).1
  }

  // The tests of a list are carried out in order, up to the first that decides.
  lemma {:induction false} ListStopsAtTheFirst(ts: seq<Test>, n: nat, stop: bool, o: Oracle, h: seq<Event>)
    requires n <= |ts| && forall i | 0 <= i < n :: Eval(ts[i], o, HistoryAfter(ts, i, o, h)).0 != stop
    ensures EvalUntil(ts, stop, o, h) == EvalUntil(ts[n..], stop, o, HistoryAfter(ts, n, o, h))
    ensures n < |ts| && Eval(ts[n], o, HistoryAfter(ts, n, o, h)).0 == stop
            ==> EvalUntil(ts, stop, o, h) == (stop, HistoryAfter(ts, n + 1, o, h))
    ensures n == |ts| ==> EvalUntil(ts, stop, o, h) == (!stop, HistoryAfter(ts, n, o, h))
  {
    if n == 0 {
      assert ts[0..] == ts;
    } else {
      ListStopsAtTheFirst(ts, n - 1, stop, o, h);
      assert Eval(ts[n - 1], o, HistoryAfter(ts, n - 1, o, h)).0 != stop;
      assert ts[n - 1..][0] == ts[n - 1] && ts[n - 1..][1..] == ts[n..];
    }
  }

  // ----- Constant tests -----

  // The test has this value whatever its leaves do, as can be told from its constants.
  predicate Surely(t: Test, value: bool)
    decreases t
  {
    match t
    case Leaf(_) => false
    case True => value
    case False => !value
    case Not(t') => Surely(t', !value)
    case AnyOf(ts) =>
      if value then exists i | 0 <= i < |ts| :: Surely(ts[i], true)
      else forall i | 0 <= i < |ts| :: Surely(ts[i], false)
    case AllOf(ts) =>
      if value then forall i | 0 <= i < |ts| :: Surely(ts[i], true)
      else exists i | 0 <= i < |ts| :: Surely(ts[i], false)
  }

  // Validation finds a test constant exactly when it surely is.
  lemma {:induction false} ConstantExactlyWhenSure(t: Test)
    requires TestFits(t)
    ensures FoldTest(t).0 == Always <==> Surely(t, true)
    ensures FoldTest(t).0 == Never <==> Surely(t, false)
    ensures FoldTest(t).0 != Unset
    decreases t, 1
  {
    match t
    case Leaf(_) =>
    case True =>
    case False =>
    case Not(t') => ConstantExactlyWhenSure(t');
    case AnyOf(ts) => ListConstantExactlyWhenSure(ts, true, Unset);
    case AllOf(ts) => ListConstantExactlyWhenSure(ts, false, Unset);
  }

  lemma {:induction false} ListConstantExactlyWhenSure(ts: seq<Test>, stop: bool, current: Verdict)
    requires TestsFit(ts) && current != ConstantOf(stop) && (ts == [] ==> current != Unset)
    ensures var r := FoldList(stop, ts, current).0;
            && (r == ConstantOf(stop) <==> exists i | 0 <= i < |ts| :: Surely(ts[i], stop))
            && (r == ConstantOf(!stop) <==> current != Unknown && forall i | 0 <= i < |ts| :: Surely(ts[i], !stop))
            && r != Unset
    decreases ts, 0
  {
    if ts != [] {
      var rest := ts[1..];
      ConstantExactlyWhenSure(ts[0]);
      hide FoldTest;
      var step := ListConst(stop, current, FoldTest(ts[0]).0);
      SomeOf(ts, stop);
      AllOfThem(ts, !stop);
      hide Surely;
      if step.1 { ListConstantExactlyWhenSure(rest, stop, step.0); } else { NotBoth(ts[0]); }
    }
  }

  lemma SomeOf(ts: seq<Test>, value: bool)
    requires ts != []
    ensures (exists i | 0 <= i < |ts| :: Surely(ts[i], value))
            <==> Surely(ts[0], value) || exists i | 0 <= i < |ts[1..]| :: Surely(ts[1..][i], value)
  {
    hide Surely;
    var rest := ts[1..];
    if i :| 0 <= i < |ts| && Surely(ts[i], value) && i > 0 { assert rest[i - 1] == ts[i]; }
    if i :| 0 <= i < |rest| && Surely(rest[i], value) { assert rest[i] == ts[i + 1]; }
  }

  lemma AllOfThem(ts: seq<Test>, value: bool)
    requires ts != []
    ensures (forall i | 0 <= i < |ts| :: Surely(ts[i], value))
            <==> Surely(ts[0], value) && forall i | 0 <= i < |ts[1..]| :: Surely(ts[1..][i], value)
  {
    hide Surely;
    var rest := ts[1..];
    assert forall i | 0 <= i < |rest| :: rest[i] == ts[i + 1];
    assert forall i | 1 <= i < |ts| :: ts[i] == rest[i - 1];
  }

  lemma NotBoth(t: Test)
    requires TestFits(t)
    ensures !(Surely(t, true) && Surely(t, false))
  {
    ConstantExactlyWhenSure(t);
  }

  // ----- Chains -----

  // The first `n` commands are one chain: an if, then elsifs, and perhaps an else at its end.
  predicate IsChain(cs: seq<Command>, n: nat)
  {
    && 0 < n <= |cs| && cs[0].Cond? && cs[0].kind == If
    && (forall i | 0 < i < n :: IsElsifElse(cs[i]))
    && (forall i | 0 <= i < n - 1 :: cs[i].Cond? && cs[i].kind != Else)
    && (n < |cs| ==> !IsElsifElse(cs[n]))
  }

  // The history when the tests of the first `i` branches have been carried out.
  function TestsOf(cs: seq<Command>, i: nat, o: Oracle, h: seq<Event>): seq<Event>
    requires i <= |cs| && forall j | 0 <= j < i :: cs[j].Cond?
  {
    if i == 0 then h else Eval(cs[i - 1].test, o, TestsOf(cs, i - 1, o, h)).1
  }

  // Branch `i` is chosen when its condition is asked for.
  predicate Chosen(cs: seq<Command>, i: nat, o: Oracle, h: seq<Event>)
    requires i < |cs| && forall j | 0 <= j <= i :: cs[j].Cond?
  {
    cs[i].kind == Else || Eval(cs[i].test, o, TestsOf(cs, i, o, h)).0
  }

  // Whether a branch was taken does not matter where no chain goes on.
  lemma TakenMatters(cs: seq<Command>, o: Oracle, h: seq<Event>)
    requires cs != [] ==> !IsElsifElse(cs[0])
    ensures Exec(cs, true, o, h) == Exec(cs, false, o, h)
  {
  }

  // The rest of a chain one of whose branches was taken is passed over.
  lemma {:induction false} RestOfChain(cs: seq<Command>, i: nat, n: nat, o: Oracle, h: seq<Event>)
    requires IsChain(cs, n) && 0 < i <= n
    ensures Exec(cs[i..], true, o, h) == Exec(cs[n..], false, o, h)
    decreases n - i
  {
    if i == n {
      TakenMatters(cs[n..], o, h);
    } else {
      RestOfChain(cs, i + 1, n, o, h);
      assert cs[i..][0] == cs[i] && cs[i..][1..] == cs[i + 1..] && IsElsifElse(cs[i]);
    }
  }

  lemma {:induction false} BranchesFail(cs: seq<Command>, i: nat, n: nat, taken: bool, o: Oracle, h: seq<Event>)
    requires IsChain(cs, n) && i <= n
    requires forall j | 0 <= j < i :: !Chosen(cs, j, o, h)
    ensures forall j | 0 <= j < i :: cs[j].kind != Else
    ensures Exec(cs, taken, o, h) == Exec(cs[i..], if i == 0 then taken else false, o, TestsOf(cs, i, o, h))
  {
    if i == 0 {
      assert cs[0..] == cs;
    } else {
      BranchesFail(cs, i - 1, n, taken, o, h);
      assert !Chosen(cs, i - 1, o, h);
      assert cs[i - 1..][0] == cs[i - 1] && cs[i - 1..][1..] == cs[i..];
    }
  }

  // A chain carries out the block of the first branch that is chosen, and no other.
  lemma FirstChosenBranchRuns(cs: seq<Command>, k: nat, n: nat, taken: bool, o: Oracle, h: seq<Event>)
    requires IsChain(cs, n) && k < n && Chosen(cs, k, o, h) && forall j | 0 <= j < k :: !Chosen(cs, j, o, h)
    ensures var asked := if cs[k].kind == Else then TestsOf(cs, k, o, h) else TestsOf(cs, k + 1, o, h);
            var e := Exec(cs[k].block, false, o, asked);
            Exec(cs, taken, o, h) == if e.stopped then e else Exec(cs[n..], false, o, e.trace)
  {
    BranchesFail(cs, k, n, taken, o, h);
    assert cs[k..][0] == cs[k] && cs[k..][1..] == cs[k + 1..];
    var asked := if cs[k].kind == Else then TestsOf(cs, k, o, h) else TestsOf(cs, k + 1, o, h);
    var e := Exec(cs[k].block, false, o, asked);
    RestOfChain(cs, k + 1, n, o, e.trace);
  }

  // Without any, nothing is carried out but the tests.
  lemma NoBranchRuns(cs: seq<Command>, n: nat, taken: bool, o: Oracle, h: seq<Event>)
    requires IsChain(cs, n) && forall j | 0 <= j < n :: !Chosen(cs, j, o, h)
    ensures Exec(cs, taken, o, h) == Exec(cs[n..], false, o, TestsOf(cs, n, o, h))
  {
    BranchesFail(cs, n, n, taken, o, h);
  }
}
