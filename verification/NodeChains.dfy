/** Doubly linked chains of the nodes that hold pointers. */
module NodeChains {

  // void*
  type Pointer = nat
  const NULL: Pointer := 0

  class Node {
    var next: Node?
    var prev: Node?
    var data: Pointer

    // zeroed memory
    constructor ()
      ensures next == null && prev == null && data == NULL
    {
      next, prev, data := null, null, NULL;
    }
  }

  ghost predicate Distinct(ns: seq<Node>) {
    forall i, j :: 0 <= i < j < |ns| ==> ns[i] != ns[j]
  }

  ghost predicate Apart(a: seq<Node>, b: seq<Node>) {
    forall i, j :: 0 <= i < |a| && 0 <= j < |b| ==> a[i] != b[j]
  }

  ghost predicate Within(ns: seq<Node>, all: set<Node>) {
    forall i :: 0 <= i < |ns| ==> ns[i] in all
  }

  /** ns is linked in both directions, between `before` and `after`. */
  ghost predicate Links(ns: seq<Node>, before: Node?, after: Node?)
    reads ns
  {
    && (forall i {:trigger ns[i].next} :: 0 <= i < |ns| ==> ns[i].next == if i + 1 < |ns| then ns[i + 1] else after)
    && (forall i {:trigger ns[i].prev} :: 0 <= i < |ns| ==> ns[i].prev == if i > 0 then ns[i - 1] else before)
  }

  /** ns is a whole doubly linked chain. */
  ghost predicate Chain(ns: seq<Node>)
    reads ns
  {
    Distinct(ns) && Links(ns, null, null)
  }

  ghost function DataOf(ns: seq<Node>): (s: seq<Pointer>)
    reads ns
    ensures |s| == |ns|
  {
    seq(|ns|, i requires 0 <= i < |ns| reads ns => ns[i].data)
  }

  // ----- chains apart from each other

  lemma ApartSwap(a: seq<Node>, b: seq<Node>)
    requires Apart(a, b)
    ensures Apart(b, a)
  {}

  lemma ApartNone(b: seq<Node>)
    ensures Chain([]) && Apart([], b) && Apart(b, [])
  {}

  lemma FirstApart(ns: seq<Node>, other: seq<Node>)
    requires Chain(ns) && |ns| > 0 && Apart(other, ns)
    ensures Apart([ns[0]], ns[1..]) && Apart([ns[0]], other) && Apart(other, ns[1..]) && Apart(ns[1..], other)
    ensures ns[0] !in ns[1..] && ns[0] !in other
  {
    assert forall i :: 0 <= i < |ns| - 1 ==> ns[1..][i] == ns[i + 1];
  }

  lemma NotAmong(n: Node, ns: seq<Node>)
    requires n !in ns
    ensures Apart([n], ns) && Apart(ns, [n])
  {}

  lemma FreshApart(block: seq<Node>, a: seq<Node>, b: seq<Node>, all: set<Node>)
    requires Within(a, all) && Within(b, all) && forall i :: 0 <= i < |block| ==> block[i] !in all
    ensures Apart(block, a) && Apart(a, block) && Apart(block, b) && Apart(b, block)
  {}

  lemma DataFirst(ns: seq<Node>)
    requires |ns| > 0
    ensures DataOf(ns)[0] == ns[0].data
  {}

  // ----- linking

  lemma FirstPrev(ns: seq<Node>)
    requires Chain(ns) && |ns| > 0
    ensures Distinct(ns) && Links(ns, null, null) && ns[0].prev == null
  {}

  lemma Joined(a: seq<Node>, b: seq<Node>)
    requires Distinct(a) && Distinct(b) && Apart(a, b) && |a| > 0 && |b| > 0
    requires Links(a, null, b[0]) && Links(b, a[|a| - 1], null)
    ensures Chain(a + b)
  {
    var c := a + b;
    forall i | 0 <= i < |c|
      ensures c[i].next == if i + 1 < |c| then c[i + 1] else null
      ensures c[i].prev == if i > 0 then c[i - 1] else null
    {
      if i < |a| {
        assert c[i] == a[i];
      } else {
        assert c[i] == b[i - |a|];
      }
    }
  }

  /** The chain a after b has been linked behind its node k; if there is no such node, it stays as it is. */
  ghost function Joint(a: seq<Node>, k: nat, b: seq<Node>): seq<Node> {
    if k < |a| then a[..k + 1] + b else a
  }

  /** Links the nodes of b behind node k of the chain a, from which what followed it is cut off, or behind some
    * node that is not in the chain at all. */
  method Attach(end: Node, first: Node, ghost a: seq<Node>, ghost k: nat, ghost b: seq<Node>, ghost other: seq<Node>)
    requires Chain(a) && (if k < |a| then end == a[k] else end !in a)
    requires Distinct(b) && |b| > 0 && first == b[0] && Links(b, first.prev, null) && Apart(a, b)
    requires Chain(other) && end !in other && Apart(other, b)
    modifies end`next, first`prev
    ensures Chain(Joint(a, k, b)) && Chain(other)
    ensures DataOf(Joint(a, k, b)) == if k < |a| then old(DataOf(a))[..k + 1] + old(DataOf(b)) else old(DataOf(a))
    ensures DataOf(other) == old(DataOf(other))
  {
    end.next := first;
    first.prev := end;
    if k < |a| {
      assert Links(a[..k + 1], null, first) && Links(b, end, null);
      Joined(a[..k + 1], b);
    }
  }

  /** Takes the first node off a chain. */
  method Detach(first: Node, ghost ns: seq<Node>, ghost other: seq<Node>) returns (rest: Node?)
    requires Chain(ns) && |ns| > 0 && first == ns[0]
    requires Chain(other) && Apart(other, ns)
    modifies ns`prev
    ensures Chain(ns[1..]) && rest == (if |ns| > 1 then ns[1] else null)
    ensures Chain(other) && DataOf(ns[1..]) == old(DataOf(ns))[1..] && DataOf(other) == old(DataOf(other))
  {
    assert forall k :: 0 <= k < |ns| - 1 ==> ns[1..][k] == ns[k + 1];
    rest := first.next;
    if rest != null {
      rest.prev := null;
    }
  }

  /** Takes the first node off a chain and clears it. */
  method Unhook(first: Node, ghost ns: seq<Node>, ghost other: seq<Node>) returns (rest: Node?)
    requires Chain(ns) && |ns| > 0 && first == ns[0]
    requires Chain(other) && Apart(other, ns)
    modifies ns
    ensures Chain(ns[1..]) && rest == (if |ns| > 1 then ns[1] else null)
    ensures Chain(other) && DataOf(other) == old(DataOf(other))
    ensures first.next == null && first.prev == null
  {
    rest := Detach(first, ns, other);
    first.next, first.data, first.prev := null, NULL, null;
  }

  // ----- blocks

  /** The zeroed memory of one block, away from the memory in use. */
  method NewBlock(size: nat, ghost memory: set<Node>) returns (block: seq<Node>)
    ensures |block| == size && Distinct(block) && fresh(block)
    ensures forall i :: 0 <= i < |block| ==> block[i] !in memory
  {
    block := [];
    for i := 0 to size
      invariant |block| == i && Distinct(block) && fresh(block)
      invariant forall i :: 0 <= i < |block| ==> block[i] !in memory
    {
      var n := new Node();
      block := block + [n];
    }
  }

  /** Links the nodes of a block, front to back. */
  method LinkBlock(block: seq<Node>) returns (last: Node)
    requires |block| >= 2 && Distinct(block)
    modifies block
    ensures Chain(block) && last == block[|block| - 1]
  {
    var i := 1;
    var prev, obj := block[0], block[0];
    obj.prev := null;
    obj.next := block[1];
    obj := block[1];
    i := i + 1;
    while i < |block|
      invariant 2 <= i <= |block| && obj == block[i - 1] && prev == block[i - 2]
      invariant forall k {:trigger block[k].next} :: 0 <= k < i - 1 ==> block[k].next == block[k + 1]
      invariant block[0].prev == null
      invariant forall k {:trigger block[k].prev} :: 0 < k < i - 1 ==> block[k].prev == block[k - 1]
    {
      assert forall k :: 0 <= k < i - 1 ==> block[k] != obj;
      obj.next := block[i];
      obj.prev := prev;
      prev := obj;
      obj := block[i];
      i := i + 1;
    }
    assert forall k :: 0 <= k < i - 1 ==> block[k] != obj;
    obj.next := null;
    obj.prev := prev;
    last := obj;
  }

  // ----- counting

  lemma {:induction false} CountSet(ns: seq<Node>) returns (all: set<Node>)
    requires Distinct(ns)
    ensures |all| == |ns| && forall n :: n in all <==> n in ns
  {
    if |ns| == 0 {
      all := {};
    } else {
      var last := ns[|ns| - 1];
      var front := CountSet(ns[..|ns| - 1]);
      assert ns == ns[..|ns| - 1] + [last];
      all := front + {last};
    }
  }

  /** Two chains that are apart and have as many nodes as there are share them out. */
  lemma SharedOut(a: seq<Node>, b: seq<Node>, all: set<Node>)
    requires Distinct(a) && Distinct(b) && Apart(a, b) && Within(a, all) && Within(b, all)
    ensures |a| + |b| <= |all|
    ensures |a| + |b| == |all| ==> forall n :: n in all ==> (n in a <==> n !in b)
  {
    var sa := CountSet(a);
    var sb := CountSet(b);
    assert sa !! sb && sa + sb <= all;
    SubsetSize(sa + sb, all);
  }

  lemma {:induction false} SubsetSize(a: set<Node>, b: set<Node>)
    requires a <= b
    ensures |a| <= |b| && (|a| == |b| ==> a == b)
  {
    assert b == a + (b - a);
  }
}
