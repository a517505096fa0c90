// The doubly linked lists of the syntax tree, changed in place (src/lib-sieve/sieve-ast.c).
module AstList {

  // Lengths are unsigned ints.
  const LENGTH_LIMIT := 0x1_0000_0000

  class Node {
    var prev: Node?
    var next: Node?
    var list: NodeList?

    constructor ()
      ensures prev == null && next == null && list == null
    {
      prev, next, list := null, null, null;
    }
  }

  // The link in front of index `i`, and at it.
  ghost function Before(nodes: seq<Node>, i: nat): Node?
    requires i <= |nodes|
  {
    if i == 0 then null else nodes[i - 1]
  }

  ghost function At(nodes: seq<Node>, i: nat): Node?
    requires i <= |nodes|
  {
    if i == |nodes| then null else nodes[i]
  }

  ghost predicate Distinct(nodes: seq<Node>)
  {
    forall i, j | 0 <= i < j < |nodes| :: nodes[i] != nodes[j]
  }

  // Node `i` is linked to its neighbours.
  ghost predicate Linked(nodes: seq<Node>, i: nat)
    requires i < |nodes|
    reads nodes`prev, nodes`next
  {
    nodes[i].prev == Before(nodes, i) && nodes[i].next == At(nodes, i + 1)
  }

  // The nodes are linked as one sequence, apart from any list.
  ghost predicate Chain(nodes: seq<Node>)
    reads nodes`prev, nodes`next
  {
    Distinct(nodes) && forall i | 0 <= i < |nodes| :: Linked(nodes, i)
  }

  lemma DistinctJoin(a: seq<Node>, b: seq<Node>)
    requires Distinct(a) && Distinct(b) && forall n | n in a :: n !in b
    ensures Distinct(a + b)
  {
    forall i, j | 0 <= i < j < |a + b| ensures (a + b)[i] != (a + b)[j] {
      if i < |a| <= j { assert a[i] in a && b[j - |a|] in b; }
    }
  }

  lemma DistinctInsert(a: seq<Node>, at: nat, node: Node)
    requires Distinct(a) && at <= |a| && node !in a
    ensures Distinct(a[..at] + [node] + a[at..])
  {
  }

  // ----- Changing links -----

  // The chain `b` behind the chain `a`.
  method LinkChains(last: Node, first: Node, ghost a: seq<Node>, ghost b: seq<Node>)
    requires Chain(a) && Chain(b) && a != [] && b != [] && last == a[|a| - 1] && first == b[0]
    requires forall n | n in a :: n !in b
    modifies last`next, first`prev
    ensures Chain(a + b)
  {
    last.next := first;
    first.prev := last;
    DistinctJoin(a, b);
    forall i | 0 <= i < |a + b| ensures Linked(a + b, i) {
      if i < |a| {
        assert old(Linked(a, i)) && a[i] in a;
      } else {
        assert old(Linked(b, i - |a|)) && b[i - |a|] in b;
      }
    }
  }

  // A node in front of another one.
  method LinkInFront(before: Node, node: Node, ghost a: seq<Node>, ghost at: nat)
    requires Chain(a) && node !in a && at < |a| && a[at] == before
    modifies a`prev, a`next, node`prev, node`next
    ensures Chain(a[..at] + [node] + a[at..])
  {
    assert Linked(a, at) && (at > 0 ==> Linked(a, at - 1));
    node.next := before;
    if before.prev != null { before.prev.next := node; }
    node.prev := before.prev;
    before.prev := node;
    DistinctInsert(a, at, node);
    ghost var b := a[..at] + [node] + a[at..];
    forall i | 0 <= i < |b| ensures Linked(b, i) {
      if i < at { assert old(Linked(a, i)); }
      if i > at { assert old(Linked(a, i - 1)); }
    }
  }

  // A node in place of another one.
  method LinkInstead(argument: Node, replacement: Node, ghost a: seq<Node>, ghost at: nat)
    requires Chain(a) && replacement !in a && at < |a| && a[at] == argument
    modifies a`prev, a`next, replacement`prev, replacement`next
    ensures Chain(a[at := replacement]) && argument.prev == null && argument.next == null
  {
    assert Linked(a, at) && (at > 0 ==> Linked(a, at - 1)) && (at + 1 < |a| ==> Linked(a, at + 1));
    if argument.prev != null { argument.prev.next := replacement; }
    if argument.next != null { argument.next.prev := replacement; }
    replacement.prev := argument.prev;
    replacement.next := argument.next;
    argument.next := null;
    argument.prev := null;
    ghost var b := a[at := replacement];
    forall i | 0 <= i < |b| ensures Linked(b, i) {
      assert old(Linked(a, i));
    }
  }

  // The nodes from `first` to `last` leave the chain.
  method LinkOut(first: Node, last: Node, ghost a: seq<Node>, ghost from: nat, ghost to: nat)
    requires Chain(a) && from <= to < |a| && a[from] == first && a[to] == last
    modifies a`prev, a`next
    ensures Chain(a[..from] + a[to + 1..]) && Chain(a[from..to + 1])
  {
    assert Linked(a, from) && Linked(a, to);
    if first.prev != null { first.prev.next := last.next; }
    if last.next != null { last.next.prev := first.prev; }
    first.prev := null;
    last.next := null;
    ghost var b, c := a[..from] + a[to + 1..], a[from..to + 1];
    forall i | 0 <= i < from ensures Linked(b, i) {
      assert old(Linked(a, i));
    }
    forall i | from <= i < |b| ensures Linked(b, i) {
      assert old(Linked(a, i + to + 1 - from));
    }
    forall i | 0 <= i < |c| ensures Linked(c, i) {
      assert old(Linked(a, from + i));
    }
  }

  // ----- Lists -----

  class NodeList {
    var head: Node?
    var tail: Node?
    var len: nat
    ghost var nodes: seq<Node>

    // Head, tail, length and all links describe the one sequence `nodes`.
    ghost predicate Valid()
      reads this, nodes
    {
      && Chain(nodes)
      && len == |nodes| < LENGTH_LIMIT
      && head == At(nodes, 0)
      && tail == Before(nodes, |nodes|)
      && (forall n | n in nodes :: n.list == this)
    }

    constructor ()
      ensures Valid() && nodes == []
    {
      head, tail, len, nodes := null, null, 0, [];
    }

    // __LIST_ADD
    method Add(node: Node) returns (ok: bool)
      requires Valid() && node !in nodes
      modifies this, nodes, node
      ensures Valid() && ok == (old(len) + 1 < LENGTH_LIMIT)
      ensures nodes == if ok then old(nodes) + [node] else old(nodes)
    {
      if (len + 1) % LENGTH_LIMIT < len { return false; }
      node.next := null;
      if head == null {
        node.prev := null;
        head := node;
        tail := node;
      } else {
        tail.next := node;
        node.prev := tail;
        tail := node;
      }
      len := len + 1;
      node.list := this;
      nodes := nodes + [node];
      forall i | 0 <= i < |nodes| ensures Linked(nodes, i) {
        if i < |nodes| - 1 { assert old(Linked(nodes, i)); }
      }
      ok := true;
    }

    // __LIST_INSERT
    method Insert(before: Node, node: Node, ghost at: nat) returns (ok: bool)
      requires Valid() && node !in nodes && at < |nodes| && nodes[at] == before
      modifies this, nodes, node
      ensures Valid() && ok == (old(len) + 1 < LENGTH_LIMIT)
      ensures nodes == if ok then old(nodes)[..at] + [node] + old(nodes)[at..] else old(nodes)
    {
      if (len + 1) % LENGTH_LIMIT < len { return false; }
      hide Chain, At, Before;
      HeadAt(nodes, at);
      AfterInsertion(nodes, at, node);
      LinkInFront(before, node, nodes, at);
      if head == before { head := node; }
      len := len + 1;
      node.list := this;
      nodes := nodes[..at] + [node] + nodes[at..];
      ok := true;
    }

    // __LIST_JOIN
    method Join(items: NodeList) returns (ok: bool)
      requires Valid() && items.Valid() && items != this && forall n | n in nodes :: n !in items.nodes
      modifies this, nodes, items.nodes
      ensures Valid() && ok == (old(len) + old(items.len) < LENGTH_LIMIT)
      ensures nodes == if ok then old(nodes) + old(items.nodes) else old(nodes)
    {
      hide Chain, Before;
      if (len + items.len) % LENGTH_LIMIT < len { return false; }
      ghost var a, b := nodes, items.nodes;
      AfterJoin(a, b);
      LastOf(a);
      if items.len == 0 {
        assert a + b == a;
        return true;
      }
      if head == null {
        assert a + b == b;
        head := items.head;
        tail := items.tail;
      } else {
        LinkChains(tail, items.head, a, b);
        tail := items.tail;
      }
      len := len + items.len;
      nodes := a + b;
      Adopt(items.head, |a|);
      assert nodes[|a|..] == b;
      ok := true;
    }

    // The nodes behind the first `from` become nodes of this list.
    method Adopt(first: Node?, ghost from: nat)
      requires from <= |nodes| && first == At(nodes, from) && Chain(nodes)
      modifies nodes[from..]`list
      ensures forall n | n in nodes[from..] :: n.list == this
    {
      var node := first;
      ghost var i := from;
      while node != null
        invariant from <= i <= |nodes| && node == At(nodes, i)
        invariant forall j | from <= j < i :: nodes[j].list == this
        decreases |nodes| - i
      {
        assert Linked(nodes, i) && nodes[i] == nodes[from..][i - from];
        node.list := this;
        node := node.next;
        i := i + 1;
      }
    }

    // sieve_ast_arg_list_substitute
    method Substitute(argument: Node, replacement: Node, ghost at: nat)
      requires Valid() && replacement !in nodes && at < |nodes| && nodes[at] == argument
      modifies this, nodes, replacement
      ensures Valid() && nodes == old(nodes)[at := replacement]
      ensures argument.prev == null && argument.next == null
    {
      HeadAt(nodes, at);
      hide Chain;
      LinkInstead(argument, replacement, nodes, at);
      if head == argument { head := replacement; }
      if tail == argument { tail := replacement; }
      replacement.list := argument.list;
      nodes := nodes[at := replacement];
    }

    // __LIST_DETACH: up to `count` nodes from `first` on; the node behind them is returned.
    method Detach(first: Node, count: nat, ghost from: nat) returns (result: Node?, ghost to: nat)
      requires Valid() && from < |nodes| && nodes[from] == first && 1 <= count < LENGTH_LIMIT
      modifies this, nodes
      ensures Valid() && to == if from + count <= |old(nodes)| then from + count else |old(nodes)|
      ensures nodes == old(nodes)[..from] + old(nodes)[to..] && Chain(old(nodes)[from..to])
      ensures result == At(old(nodes), to)
    {
      hide Chain, At, Before;
      var last, left;
      last, left, to := Walk(first, count, nodes, from);
      AfterRemoval(nodes, from, to);
      HeadAt(nodes, from);
      HeadAt(nodes, to);
      LinksAt(nodes, from);
      LinksAt(nodes, to);
      result := last.next;
      var front := first.prev;
      LinkOut(first, last, nodes, from, to);
      if head == first { head := result; }
      if tail == last { tail := front; }
      len := len - (count - left);
      nodes := nodes[..from] + nodes[to + 1..];
      to := to + 1;
    }
  }

  // The last of `count` nodes, or of the chain; `left` nodes were missing.
  method Walk(first: Node, count: nat, ghost nodes: seq<Node>, ghost from: nat)
    returns (last: Node, left: nat, ghost to: nat)
    requires Chain(nodes) && from < |nodes| && nodes[from] == first && count >= 1
    ensures from <= to < |nodes| && nodes[to] == last && to - from + left == count - 1
            && (left > 0 ==> to == |nodes| - 1)
  {
    left := count - 1;
    last := first;
    to := from;
    LinksAt(nodes, to);
    while left > 0 && last.next != null
      invariant from <= to < |nodes| && nodes[to] == last && to - from + left == count - 1 && Linked(nodes, to)
      decreases left
    {
      left := left - 1;
      last := last.next;
      to := to + 1;
      LinksAt(nodes, to);
    }
  }

  lemma LinksAt(nodes: seq<Node>, i: nat)
    requires Chain(nodes) && i < |nodes|
    ensures Linked(nodes, i)
  {
  }

  // In a chain, only the first node is the head and only the last one the tail.
  lemma HeadAt(nodes: seq<Node>, at: nat)
    requires Chain(nodes) && at < |nodes|
    ensures At(nodes, 0) == nodes[at] <==> at == 0
    ensures Before(nodes, |nodes|) == nodes[at] <==> at == |nodes| - 1
  {
  }

  lemma AfterInsertion(a: seq<Node>, at: nat, node: Node)
    requires at < |a|
    ensures var b := a[..at] + [node] + a[at..];
            && At(b, 0) == (if at == 0 then node else At(a, 0))
            && Before(b, |b|) == Before(a, |a|)
            && forall n | n in b :: n in a || n == node
  {
  }

  lemma AfterJoin(a: seq<Node>, b: seq<Node>)
    ensures At(a + b, 0) == (if a == [] then At(b, 0) else At(a, 0))
    ensures Before(a + b, |a + b|) == (if b == [] then Before(a, |a|) else Before(b, |b|))
    ensures At(a + b, |a|) == At(b, 0)
    ensures forall n | n in a + b :: n in a || n in b
  {
  }

  lemma LastOf(a: seq<Node>)
    ensures Before(a, |a|) == if a == [] then null else a[|a| - 1]
  {
  }

  lemma AfterRemoval(a: seq<Node>, from: nat, to: nat)
    requires from <= to < |a|
    ensures var b := a[..from] + a[to + 1..];
            && At(b, 0) == (if from == 0 then At(a, to + 1) else At(a, 0))
            && Before(b, |b|) == (if to + 1 == |a| then Before(a, from) else Before(a, |a|))
            && forall n | n in b :: n in a
  {
  }
}
