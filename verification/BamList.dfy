// The three segment mutators of libEp90_Aeplib: they cut a linked list behind a2, update every
// node from a1 to the end of what is left, and put the cut link back. The list may be a ring.
module BamList {

  class Node {
    var link: Node?
    var bam: bv32
  }

  datatype Op = SetBam | AddBam | DelBam

  function Applied(op: Op, bam: bv32, a3: bv32): bv32 {
    match op
    case SetBam => a3
    case AddBam => bam | a3
    case DelBam => bam & !a3
  }

  // path is the chain of nodes from a1 up to a2, or up to the end of the list if that comes first.
  ghost predicate Walk(a1: Node?, a2: Node, path: seq<Node>)
    reads path
  {
    && (a1 == null <==> path == [])
    && (path != [] ==>
          && path[0] == a1
          && (forall i | 0 <= i < |path| - 1 :: path[i] != a2 && path[i].link == path[i + 1])
          && (path[|path| - 1] == a2 || path[|path| - 1].link == null))
  }

  // Such a path never meets a node twice, whatever the list looks like behind it.
  lemma {:induction false} WalkIsSimple(a1: Node?, a2: Node, path: seq<Node>, i: nat, j: nat)
    requires Walk(a1, a2, path) && i < j < |path|
    ensures path[i] != path[j]
    decreases |path| - j
  {
    assert path[i] != a2 && path[i].link == path[i + 1];
    if j + 1 < |path| {
      assert path[j].link == path[j + 1];
      WalkIsSimple(a1, a2, path, i + 1, j + 1);
    }
  }

  ghost predicate Chain(p: seq<Node>)
    reads p
  {
    forall i | 0 <= i < |p| - 1 :: p[i].link == p[i + 1]
  }

  // Whenever the links lead from a1 to a2, in a ring after any number of rounds, or to the end of
  // the list, there is a walk: up to the first a2.
  lemma ReachableHasWalk(a2: Node, p: seq<Node>) returns (path: seq<Node>)
    requires p != [] && Chain(p) && (p[|p| - 1] == a2 || p[|p| - 1].link == null)
    ensures path <= p && Walk(p[0], a2, path)
    ensures a2 in p ==> path[|path| - 1] == a2
  {
    var n := 0;
    while n < |p| - 1 && p[n] != a2
      invariant n < |p| && forall i | 0 <= i < n :: p[i] != a2
    {
      n := n + 1;
    }
    path := p[..n + 1];
  }

  // Cut, walk, restore. Exactly the nodes of the path are updated, each by the operation applied
  // to its old value; every link is as before, so the same walk can be made again.
  method Mutate(op: Op, a1: Node?, a2: Node, a3: bv32, ghost path: seq<Node>)
    requires Walk(a1, a2, path)
    modifies path, a2
    ensures forall n | n in path :: n.bam == Applied(op, old(n.bam), a3)
    ensures forall n | n in path :: n.link == old(n.link)
    ensures a2.link == old(a2.link) && (a2 !in path ==> a2.bam == old(a2.bam))
    ensures Walk(a1, a2, path)
  {
    forall i, j | 0 <= i < j < |path| ensures path[i] != path[j] {
      WalkIsSimple(a1, a2, path, i, j);
    }
    var r, v4 := a1, a2.link;
    a2.link := null;
    ghost var i := 0;
    while r != null
      invariant i <= |path| && r == (if i < |path| then path[i] else null)
      invariant a2.link == null && forall n | n in path && n != a2 :: n.link == old(n.link)
      invariant forall j | 0 <= j < i :: path[j].bam == Applied(op, old(path[j].bam), a3)
      invariant forall j | i <= j < |path| :: path[j].bam == old(path[j].bam)
      invariant a2 !in path ==> a2.bam == old(a2.bam)
      decreases |path| - i
    {
      r.bam := Applied(op, r.bam, a3);
      assert i < |path| - 1 ==> path[i].link == path[i + 1];
      r, i := r.link, i + 1;
    }
    a2.link := v4;
  }

  // Set replaces the field; add sets and del clears the bits of a3, and both keep all others.
  lemma SetReplaces(bam: bv32, a3: bv32)
    ensures Applied(SetBam, bam, a3) == a3
  {
  }

  lemma AddSets(bam: bv32, a3: bv32)
    ensures Applied(AddBam, bam, a3) & a3 == a3
  {
  }

  lemma AddKeeps(bam: bv32, a3: bv32)
    ensures Applied(AddBam, bam, a3) & !a3 == bam & !a3
  {
  }

  lemma DelClears(bam: bv32, a3: bv32)
    ensures Applied(DelBam, bam, a3) & a3 == 0
  {
  }

  lemma DelKeeps(bam: bv32, a3: bv32)
    ensures Applied(DelBam, bam, a3) & !a3 == bam & !a3
  {
  }

  // Adding bits and deleting them again restores a node exactly when it had none of them.
  lemma AddUndoneIff(bam: bv32, a3: bv32)
    ensures Applied(DelBam, Applied(AddBam, bam, a3), a3) == bam <==> bam & a3 == 0
  {
  }
}
