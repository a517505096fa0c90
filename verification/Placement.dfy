// Which scripts validate: where an elsif or else may stand, said of positions.
module Placement {
  import opened Bytes
  import opened Operands
  import opened Script
  import opened Validator

  predicate IsBranch(c: Command) { c.Cond? && c.kind != Else }

  // Command `i` may go on with the chain of the command in front of it.
  predicate HasBranchBefore(cs: seq<Command>, i: nat)
    requires i <= |cs|
  {
    i > 0 && IsBranch(cs[i - 1])
  }

  // One of the branches that command `i` goes on with is always taken.
  predicate BehindAlways(cs: seq<Command>, i: nat)
    requires i <= |cs|
  {
    exists j | 0 <= j < i ::
      && IsBranch(cs[j]) && FoldTest(cs[j].test).0 == Always
      && forall k | j < k < i :: cs[k].Cond? && cs[k].kind == Elsif
  }

  // Command `i` is a branch whose block cannot run.
  predicate CannotRun(cs: seq<Command>, i: nat)
    requires i < |cs| && cs[i].Cond?
  {
    (cs[i].kind != If && BehindAlways(cs, i)) || (cs[i].kind != Else && FoldTest(cs[i].test).0 == Never)
  }

  // Every elsif and else follows an if or elsif, in the script and in every block of it that can run.
  predicate WellPlaced(cs: seq<Command>)
    decreases cs
  {
    forall i | 0 <= i < |cs| && cs[i].Cond? ::
      (cs[i].kind != If ==> HasBranchBefore(cs, i)) && (!CannotRun(cs, i) ==> WellPlaced(cs[i].block))
  }

  predicate Placed(cs: seq<Command>, i: nat)
    requires i < |cs|
  {
    cs[i].Cond? ==>
      (cs[i].kind != If ==> HasBranchBefore(cs, i)) && (!CannotRun(cs, i) ==> WellPlaced(cs[i].block))
  }

  // `chain` is what validation knows of the chain that command `i` could go on with.
  ghost predicate ChainAt(cs: seq<Command>, i: nat, chain: seq<Verdict>)
    requires i <= |cs|
  {
    && (chain != [] <==> HasBranchBefore(cs, i))
    && (chain != [] ==> (Always in chain <==> BehindAlways(cs, i)))
  }

  lemma ChainGrows(cs: seq<Command>, i: nat, chain: seq<Verdict>)
    requires i < |cs| && ChainAt(cs, i, chain) && cs[i].Cond? && (cs[i].kind != If ==> chain != [])
    ensures ChainAt(cs, i + 1, ChainAfter(cs[i], FoldCondition(cs[i], chain).0, chain))
    ensures FoldCondition(cs[i], chain).0 == Never <==> CannotRun(cs, i)
  {
    hide FoldTest;
    var c := cs[i];
    var r := FoldCondition(c, chain).0;
    var next := ChainAfter(c, r, chain);
    if IsBranch(c) {
      if FoldTest(c.test).0 == Always { assert BehindAlways(cs, i + 1); }
      if c.kind == Elsif {
        if BehindAlways(cs, i) {
          var j :| 0 <= j < i && IsBranch(cs[j]) && FoldTest(cs[j].test).0 == Always
            && forall k | j < k < i :: cs[k].Cond? && cs[k].kind == Elsif;
          assert BehindAlways(cs, i + 1);
        }
        assert Always in next <==> Always in chain || r == Always;
      }
      if BehindAlways(cs, i + 1) {
        var j :| 0 <= j < i + 1 && IsBranch(cs[j]) && FoldTest(cs[j].test).0 == Always
          && forall k | j < k < i + 1 :: cs[k].Cond? && cs[k].kind == Elsif;
        if j < i {
          assert cs[i].kind == Elsif;
          assert BehindAlways(cs, i);
        }
      }
    }
  }

  lemma {:induction false} FoldsFrom(cs: seq<Command>, i: nat, chain: seq<Verdict>)
    requires i <= |cs| && ChainAt(cs, i, chain)
    ensures FoldBlock(cs[i..], chain).Some? <==> forall k | i <= k < |cs| :: Placed(cs, k)
    decreases cs, |cs| - i
  {
    hide FoldCondition, CannotRun, ChainAt, WellPlaced, HasBranchBefore;
    if i < |cs| {
      var rest := cs[i..];
      assert rest[0] == cs[i] && rest[1..] == cs[i + 1..];
      NoBranchBehind(cs, i);
      assert (forall k | i <= k < |cs| :: Placed(cs, k))
             <==> Placed(cs, i) && forall k | i + 1 <= k < |cs| :: Placed(cs, k);
      match cs[i]
      case Action(_) => FoldsFrom(cs, i + 1, []);
      case Stop => FoldsFrom(cs, i + 1, []);
      case Cond(kind, _, block) =>
        ChainHere(cs, i, chain);
        if !(kind != If && chain == []) {
          ChainGrows(cs, i, chain);
          ValidatesExactlyWhenPlaced(block);
          var next := ChainAfter(cs[i], FoldCondition(cs[i], chain).0, chain);
          FoldsFrom(cs, i + 1, next);
          assert FoldBlock(rest, chain).Some? <==> Placed(cs, i) && FoldBlock(rest[1..], next).Some?;
        } else {
          assert !Placed(cs, i);
        }
    }
  }

  lemma NoBranchBehind(cs: seq<Command>, i: nat)
    requires i < |cs|
    ensures !cs[i].Cond? ==> ChainAt(cs, i + 1, []) && Placed(cs, i)
  {
  }

  lemma ChainHere(cs: seq<Command>, i: nat, chain: seq<Verdict>)
    requires i <= |cs| && ChainAt(cs, i, chain)
    ensures chain != [] <==> HasBranchBefore(cs, i)
  {
  }

  // A script validates if and only if its branches are well placed.
  lemma {:induction false} ValidatesExactlyWhenPlaced(cs: seq<Command>)
    ensures FoldBlock(cs, []).Some? <==> WellPlaced(cs)
    decreases cs, |cs| + 1
  {
    hide FoldBlock, CannotRun, HasBranchBefore;
    FirstChain(cs);
    FoldsFrom(cs, 0, []);
    assert cs[0..] == cs;
    AllPlaced(cs);
  }

  lemma AllPlaced(cs: seq<Command>)
    ensures WellPlaced(cs) <==> forall k | 0 <= k < |cs| :: Placed(cs, k)
  {
    hide CannotRun, HasBranchBefore;
    if WellPlaced(cs) {
      forall k | 0 <= k < |cs| ensures Placed(cs, k) { }
    }
    if forall k | 0 <= k < |cs| :: Placed(cs, k) {
      forall i | 0 <= i < |cs| && cs[i].Cond?
        ensures (cs[i].kind != If ==> HasBranchBefore(cs, i)) && (!CannotRun(cs, i) ==> WellPlaced(cs[i].block))
      {
        assert Placed(cs, i);
      }
    }
  }

  lemma FirstChain(cs: seq<Command>)
    ensures ChainAt(cs, 0, [])
  {
  }
}
