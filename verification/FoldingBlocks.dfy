// What constant folding does to the tests and actions of a whole script. The script is carried out
// as written, whatever its tests yield, if and only if folding drops no leaf test of a condition
// that can be reached.
module FoldingBlocks {
  import opened Bytes
  import opened Operands
  import opened Interpreter
  import opened Script
  import opened Validator
  import opened Folding

  // ----- The condition -----

  // What validation knows of a condition that is reached. An else is always taken.
  function Prospect(c: Command): Verdict
    requires c.Cond?
  {
    if c.kind == Else then Always else FoldTest(c.test).0
  }

  // Some outcome of the tests leads to the end of the block.
  predicate Falls(cs: seq<Command>, taken: bool)
    decreases cs
  {
    if cs == [] then true
    else
      match cs[0]
      case Action(_) => Falls(cs[1..], false)
      case Stop => false
      case Cond(kind, _, block) =>
        if kind != If && taken then Falls(cs[1..], true)
        else
          || (Prospect(cs[0]) != Never && Falls(block, false) && Falls(cs[1..], true))
          || (Prospect(cs[0]) != Always && Falls(cs[1..], false))
  }

  // The constants of every condition that some outcome of the tests leads to are decided before any
  // leaf.
  predicate DecidedBlock(cs: seq<Command>, taken: bool)
    decreases cs
  {
    if cs == [] then true
    else
      match cs[0]
      case Action(_) => DecidedBlock(cs[1..], false)
      case Stop => true
      case Cond(kind, test, block) =>
        if kind != If && taken then DecidedBlock(cs[1..], true)
        else
          && (kind != Else ==> Decided(test))
          && (Prospect(cs[0]) != Never
              ==> DecidedBlock(block, false) && (Falls(block, false) ==> DecidedBlock(cs[1..], true)))
          && (Prospect(cs[0]) != Always ==> DecidedBlock(cs[1..], false))
  }

  // ----- Blocks as trees -----

  // The questions and actions of a block, going on with `next` where it ends.
  function BlockTree(cs: seq<Command>, taken: bool, next: Tree): Tree
    decreases cs
  {
    if cs == [] then next
    else
      match cs[0]
      case Action(op) => Act(op, BlockTree(cs[1..], false, next))
      case Stop => Done(true)
      case Cond(kind, test, block) =>
        if kind != If && taken then BlockTree(cs[1..], true, next)
        else
          var yes := BlockTree(block, false, BlockTree(cs[1..], true, next));
          if kind == Else then yes else TreeOf(test, yes, BlockTree(cs[1..], false, next))
  }

  function VBlockTree(vs: seq<VCommand>, taken: bool, next: Tree): Tree
    decreases vs
  {
    if vs == [] then next
    else
      match vs[0]
      case VAction(op) => Act(op, VBlockTree(vs[1..], false, next))
      case VStop => Done(true)
      case VCond(kind, cond, _, _, test, block) =>
        if kind != If && taken then VBlockTree(vs[1..], true, next)
        else
          var yes, no := VBlockTree(block, false, VBlockTree(vs[1..], true, next)), VBlockTree(vs[1..], false, next);
          if cond == Unknown && kind != Else then TreeOf(test, yes, no) else if cond != Never then yes else no
  }

  function PlayOn(e: Effect, next: Tree, o: Oracle): (bool, seq<Event>)
  {
    if e.stopped then (true, e.trace) else Play(next, o, e.trace)
  }

  lemma {:induction false} PlayBlock(cs: seq<Command>, taken: bool, next: Tree, o: Oracle, h: seq<Event>)
    ensures Play(BlockTree(cs, taken, next), o, h) == PlayOn(Exec(cs, taken, o, h), next, o)
    decreases cs
  {
    hide TreeOf, Eval;
    if cs != [] {
      match cs[0]
      case Action(op) => PlayBlock(cs[1..], false, next, o, h + [Acted(op)]);
      case Stop =>
      case Cond(kind, test, block) =>
        if kind != If && taken {
          PlayBlock(cs[1..], true, next, o, h);
        } else {
          var r := if kind == Else then (true, h) else Eval(test, o, h);
          var after, no := BlockTree(cs[1..], true, next), BlockTree(cs[1..], false, next);
          if kind != Else { PlayTree(test, BlockTree(block, false, after), no, o, h); }
          PlayBlock(block, false, after, o, r.1);
          PlayBlock(cs[1..], true, next, o, Exec(block, false, o, r.1).trace);
          PlayBlock(cs[1..], false, next, o, r.1);
        }
    }
  }

  lemma {:induction false} PlayVBlock(vs: seq<VCommand>, taken: bool, next: Tree, o: Oracle, h: seq<Event>)
    ensures Play(VBlockTree(vs, taken, next), o, h) == PlayOn(VExec(vs, taken, o, h), next, o)
    decreases vs
  {
    hide TreeOf, Eval;
    if vs != [] {
      match vs[0]
      case VAction(op) => PlayVBlock(vs[1..], false, next, o, h + [Acted(op)]);
      case VStop =>
      case VCond(kind, cond, _, _, test, block) =>
        if kind != If && taken {
          PlayVBlock(vs[1..], true, next, o, h);
        } else {
          var r := if cond == Unknown && kind != Else then Eval(test, o, h) else (cond != Never, h);
          var after, no := VBlockTree(vs[1..], true, next), VBlockTree(vs[1..], false, next);
          if cond == Unknown && kind != Else { PlayTree(test, VBlockTree(block, false, after), no, o, h); }
          PlayVBlock(block, false, after, o, r.1);
          PlayVBlock(vs[1..], true, next, o, VExec(block, false, o, r.1).trace);
          PlayVBlock(vs[1..], false, next, o, r.1);
        }
    }
  }

  // ----- Folding keeps the tree of a decided block, and shrinks that of any other -----

  function CondTree(c: Command, yes: Tree, no: Tree): Tree
    requires c.Cond?
  {
    if c.kind == Else then yes else TreeOf(c.test, yes, no)
  }

  function FoldedCondTree(c: Command, yes: Tree, no: Tree): Tree
    requires c.Cond?
  {
    if c.kind == Else then yes else FoldedTree(c.test, yes, no)
  }

  // `b` is the tree `a` after folding: it is no larger, smaller if something is lost, and the same if
  // all is kept.
  ghost predicate Folded(a: Tree, b: Tree, lost: bool, kept: bool)
  {
    Size(b) <= Size(a) && (lost ==> Size(b) < Size(a)) && (kept ==> a == b)
  }

  lemma CondFolds(c: Command, yes: Tree, no: Tree, yes': Tree, no': Tree)
    requires c.Cond? && (c.kind != Else ==> TestFits(c.test))
    requires Prospect(c) != Never ==> Size(yes') <= Size(yes)
    requires Prospect(c) != Always ==> Size(no') <= Size(no)
    ensures Prospect(c) != Unset
    ensures var p, decided := Prospect(c), c.kind == Else || Decided(c.test);
            Folded(CondTree(c, yes, no), FoldedCondTree(c, yes', no'),
                   !decided || (p != Never && Size(yes') < Size(yes)) || (p != Always && Size(no') < Size(no)),
                   decided && (p != Never ==> yes == yes') && (p != Always ==> no == no'))
  {
    hide Size, TreeOf, FoldTest, Decided;
    if c.kind != Else {
      var p := Prospect(c);
      FoldShrinks(c.test, yes, no, if p == Never then yes else yes', if p == Always then no else no');
      if Decided(c.test) { DecidedTree(c.test, yes, no); }
    }
  }

  // The trees of a validated block, by the command it begins with.
  lemma FoldedCommand(cs: seq<Command>, chain: seq<Verdict>)
    requires cs != [] && BlockFits(cs) && FoldBlock(cs, chain).Some?
    ensures BlockFits(cs[1..])
    ensures var vs := FoldBlock(cs, chain).value;
            && vs != []
            && match cs[0]
               case Action(op) => vs[0] == VAction(op) && FoldBlock(cs[1..], []) == Some(vs[1..])
               case Stop => vs[0] == VStop
               case Cond(kind, test, block) =>
                 var r := FoldCondition(cs[0], chain);
                 && vs[0].VCond? && vs[0].kind == kind && vs[0].cond == r.0 && vs[0].test == r.1
                 && (kind != Else ==> TestFits(test)) && BlockFits(block)
                 && (r.0 != Never ==> FoldBlock(block, []) == Some(vs[0].block))
                 && FoldBlock(cs[1..], ChainAfter(cs[0], r.0, chain)) == Some(vs[1..])
  {
    hide FoldCondition, TestFits, OpFits;
  }

  lemma {:induction false} BlockFolds(cs: seq<Command>, chain: seq<Verdict>, taken: bool, next: Tree, next': Tree)
    requires BlockFits(cs) && FoldBlock(cs, chain).Some? && (Always in chain ==> taken) && Size(next') <= Size(next)
    ensures Folded(BlockTree(cs, taken, next), VBlockTree(FoldBlock(cs, chain).value, taken, next'),
                   !DecidedBlock(cs, taken) || (Falls(cs, taken) && Size(next') < Size(next)),
                   DecidedBlock(cs, taken) && (Falls(cs, taken) ==> next == next'))
    decreases cs, 1
  {
    hide FoldBlock, BlockFits;
    if cs == [] {
      NothingFolded(chain);
    } else {
      FoldedCommand(cs, chain);
      match cs[0]
      case Action(op) => BlockFolds(cs[1..], [], false, next, next');
      case Stop =>
      case Cond(kind, _, _) =>
        var r := FoldCondition(cs[0], chain);
        if kind != If && taken {
          BlockFolds(cs[1..], ChainAfter(cs[0], r.0, chain), true, next, next');
        } else {
          CondBlockFolds(cs, chain, taken, next, next');
        }
    }
  }

  lemma NothingFolded(chain: seq<Verdict>)
    ensures FoldBlock([], chain) == Some([])
  {
  }

  lemma {:induction false} CondBlockFolds(cs: seq<Command>, chain: seq<Verdict>, taken: bool, next: Tree, next': Tree)
    requires BlockFits(cs) && FoldBlock(cs, chain).Some? && (Always in chain ==> taken) && Size(next') <= Size(next)
    requires cs != [] && cs[0].Cond? && (cs[0].kind == If || !taken)
    ensures Folded(BlockTree(cs, taken, next), VBlockTree(FoldBlock(cs, chain).value, taken, next'),
                   !DecidedBlock(cs, taken) || (Falls(cs, taken) && Size(next') < Size(next)),
                   DecidedBlock(cs, taken) && (Falls(cs, taken) ==> next == next'))
    decreases cs, 0
  {
    hide FoldBlock, BlockFits, FoldTest, Decided, TreeOf, Size;
    FoldedCommand(cs, chain);
    var c, vs := cs[0], FoldBlock(cs, chain).value;
    var p, r := Prospect(c), FoldCondition(c, chain);
    var chain' := ChainAfter(c, r.0, chain);
    var after, after' := BlockTree(cs[1..], true, next), VBlockTree(vs[1..], true, next');
    var yes, yes' := BlockTree(c.block, false, after), VBlockTree(vs[0].block, false, after');
    var no, no' := BlockTree(cs[1..], false, next), VBlockTree(vs[1..], false, next');
    BlockFolds(cs[1..], chain', true, next, next');
    if p != Never { BlockFolds(c.block, [], false, after, after'); }
    if p != Always { BlockFolds(cs[1..], chain', false, next, next'); }
    CondFolds(c, yes, no, yes', no');
    assert BlockTree(cs, taken, next) == CondTree(c, yes, no);
    assert VBlockTree(vs, taken, next') == FoldedCondTree(c, yes', no');
  }

  // ----- When a script is carried out as written -----

  // Validating a script leaves the tests and actions carried out, their order and the ending
  // unchanged for every outcome of the tests if and only if the script is decided.
  lemma FoldingKeepsTraceExactlyWhenDecided(cs: seq<Command>)
    requires BlockFits(cs) && FoldBlock(cs, []).Some?
    ensures DecidedBlock(cs, false)
            <==> forall o: Oracle, h :: VExec(FoldBlock(cs, []).value, false, o, h) == Exec(cs, false, o, h)
    ensures DecidedBlock(cs, false)
            <==> forall o: Oracle :: VExec(FoldBlock(cs, []).value, false, o, []) == Exec(cs, false, o, [])
  {
    hide FoldBlock, BlockFits, Exec, VExec, DecidedBlock, Falls, BlockTree, VBlockTree;
    var vs := FoldBlock(cs, []).value;
    var a, b := BlockTree(cs, false, Done(false)), VBlockTree(vs, false, Done(false));
    BlockFolds(cs, [], false, Done(false), Done(false));
    forall o: Oracle, h ensures Play(a, o, h) == Play(b, o, h) <==> VExec(vs, false, o, h) == Exec(cs, false, o, h) {
      PlayBlock(cs, false, Done(false), o, h);
      PlayVBlock(vs, false, Done(false), o, h);
    }
    if !DecidedBlock(cs, false) {
      var o := TellApart(a, b, []);
      assert VExec(vs, false, o, []) != Exec(cs, false, o, []);
    }
  }
}
