/** The singly linked list, sorted by sequence number and kept with a head and an end pointer, that the
  * connection uses three times: for received buffers, for unpacked messages and for packets to send. */
module SortedList {

  datatype Entry<T> = Entry(num: nat, item: T)

  /** How many leading entries do not exceed num. */
  function Place<T>(s: seq<Entry<T>>, num: nat): (k: nat)
    ensures k <= |s|
    ensures forall i :: 0 <= i < k ==> s[i].num <= num
    ensures k < |s| ==> num < s[k].num
  {
    if |s| == 0 || num < s[0].num then 0 else 1 + Place(s[1..], num)
  }

  /** A number equal to the last one is dropped without a trace; any other entry goes to its place. */
  function Insert<T>(s: seq<Entry<T>>, e: Entry<T>): (r: seq<Entry<T>>)
  {
    if |s| > 0 && s[|s| - 1].num == e.num then s
    else var k := Place(s, e.num); s[..k] + [e] + s[k..]
  }

  ghost predicate Increasing<T>(s: seq<Entry<T>>) {
    forall i, j :: 0 <= i < j < |s| ==> s[i].num < s[j].num
  }

  ghost predicate Has<T>(s: seq<Entry<T>>, num: nat) {
    exists i :: 0 <= i < |s| && s[i].num == num
  }

  /** For a number not yet in the list nothing is lost and the order stays strict. */
  lemma InsertFresh<T>(s: seq<Entry<T>>, e: Entry<T>)
    requires Increasing(s) && !Has(s, e.num)
    ensures Increasing(Insert(s, e)) && |Insert(s, e)| == |s| + 1
    ensures forall n :: Has(Insert(s, e), n) <==> Has(s, n) || n == e.num
  {
    hide Place, Insert;
    InsertPlaced(s, e);
    var k, r := Place(s, e.num), Insert(s, e);
    forall i, j | 0 <= i < j < |r|
      ensures r[i].num < r[j].num
    {
      var i', j' := if i < k then i else i - 1, if j < k then j else j - 1;
      assert i != k ==> r[i] == s[i'];
      assert j != k ==> r[j] == s[j'];
    }
    forall n
      ensures Has(r, n) <==> Has(s, n) || n == e.num
    {
      InsertHas(s, e, n);
    }
  }

  lemma InsertMembers<T>(s: seq<Entry<T>>, e: Entry<T>, x: Entry<T>)
    ensures x in Insert(s, e) ==> x == e || x in s
  {}

  lemma InsertHas<T>(s: seq<Entry<T>>, e: Entry<T>, n: nat)
    ensures Has(Insert(s, e), n) <==> Has(s, n) || n == e.num
  {
    hide Place, Insert;
    if |s| > 0 && s[|s| - 1].num == e.num {
      InsertDropped(s, e);
    } else {
      InsertPlaced(s, e);
      var k, r := Place(s, e.num), Insert(s, e);
      if Has(s, n) {
        var i :| 0 <= i < |s| && s[i].num == n;
        assert r[if i < k then i else i + 1] == s[i];
      }
      if Has(r, n) {
        var i :| 0 <= i < |r| && r[i].num == n;
        assert i == k || r[i] == s[if i < k then i else i - 1];
      }
    }
  }

  /** The new entry is found afterwards unless its number was the last one already. */
  lemma InsertKeeps<T>(s: seq<Entry<T>>, e: Entry<T>)
    ensures multiset(Insert(s, e)) == multiset(s) + multiset{e} <==> |s| == 0 || s[|s| - 1].num != e.num
  {
    var k := Place(s, e.num);
    assert s == s[..k] + s[k..];
    assert |multiset(s) + multiset{e}| == |s| + 1;
  }

  lemma InsertDropped<T>(s: seq<Entry<T>>, e: Entry<T>)
    requires |s| > 0 && s[|s| - 1].num == e.num
    ensures Insert(s, e) == s
  {}

  lemma InsertPlaced<T>(s: seq<Entry<T>>, e: Entry<T>)
    requires !(|s| > 0 && s[|s| - 1].num == e.num)
    ensures |Insert(s, e)| == |s| + 1 && Insert(s, e)[Place(s, e.num)] == e
    ensures forall i :: 0 <= i < Place(s, e.num) ==> Insert(s, e)[i] == s[i]
    ensures forall i :: Place(s, e.num) < i <= |s| ==> Insert(s, e)[i] == s[i - 1]
    ensures forall i :: Place(s, e.num) <= i < |s| ==> Insert(s, e)[i + 1] == s[i]
  {}

  class Node<T> {
    const num: nat
    var item: T
    var next: Node?<T>

    constructor (num: nat, item: T)
      ensures this.num == num && this.item == item && next == null
    {
      this.num, this.item, next := num, item, null;
    }
  }

  class List<T> {
    var head: Node?<T>
    var end: Node?<T>
    ghost var nodes: seq<Node<T>>

    ghost predicate Valid()
      reads this, nodes
    {
      && Ordered(nodes)
      && (forall i {:trigger nodes[i].next} :: 0 <= i < |nodes| - 1 ==> nodes[i].next == nodes[i + 1])
      && (if |nodes| == 0 then head == null && end == null
          else head == nodes[0] && end == nodes[|nodes| - 1] && nodes[|nodes| - 1].next == null)
    }

    static ghost predicate Ordered(ns: seq<Node<T>>) {
      && (forall i, j :: 0 <= i < j < |ns| ==> ns[i] != ns[j])
      && (forall i, j :: 0 <= i < j < |ns| ==> ns[i].num <= ns[j].num)
    }

    ghost function Cells(): set<Node<T>>
      reads this
    {
      set n | n in nodes
    }

    ghost function Entries(): (s: seq<Entry<T>>)
      reads this, nodes
      ensures |s| == |nodes|
    {
      seq(|nodes|, i requires 0 <= i < |nodes| reads this, nodes => Entry(nodes[i].num, nodes[i].item))
    }

    lemma Ends()
      requires Valid()
      ensures (head == null <==> |nodes| == 0) && (head != null ==> head == nodes[0])
    {}

    constructor ()
      ensures Valid() && nodes == []
    {
      head, end, nodes := null, null, [];
    }

    /** The chain of ns, cut open before position k and closed again around n. */
    ghost predicate Spliced(ns: seq<Node<T>>, n: Node<T>, k: nat)
      requires k <= |ns|
      reads this, n, ns
    {
      && nodes == NodesWith(ns, n, k)
      && n !in ns && Ordered(ns)
      && (forall i {:trigger ns[i].next} :: 0 <= i < |ns| - 1 && i + 1 != k ==> ns[i].next == ns[i + 1])
      && (k > 0 ==> ns[k - 1].next == n && ns[k - 1].num <= n.num)
      && (if k < |ns| then n.next == ns[k] && n.num < ns[k].num && ns[|ns| - 1].next == null else n.next == null)
      && head == (if k == 0 then n else ns[0])
      && end == (if k == |ns| then n else ns[|ns| - 1])
    }

    lemma SplicedValid(ns: seq<Node<T>>, n: Node<T>, k: nat)
      requires k <= |ns| && Spliced(ns, n, k)
      ensures Valid()
    {
      hide Ordered;
      assert |nodes| == |ns| + 1 && nodes[k] == n;
      assert forall i :: 0 <= i < k ==> nodes[i] == ns[i];
      assert forall i :: k < i < |nodes| ==> nodes[i] == ns[i - 1];
      OrderedWith(ns, n, k);
      forall i {:trigger nodes[i].next} | 0 <= i < |nodes| - 1
        ensures nodes[i].next == nodes[i + 1]
      {
        if i < k {
          assert ns[i].next == if i + 1 == k then n else ns[i + 1];
        } else if i > k {
          assert ns[i - 1].next == ns[i];
        }
      }
    }

    lemma Different()
      requires Valid()
      ensures forall i, j :: 0 <= i < j < |nodes| ==> nodes[i] != nodes[j]
    {}

    /** What remains of the list behind its first k nodes. */
    lemma ValidFrom(ns: seq<Node<T>>, k: nat)
      requires k <= |ns| && Ordered(ns) && nodes == ns[k..]
      requires forall i {:trigger ns[i].next} :: 0 <= i < |ns| - 1 ==> ns[i].next == ns[i + 1]
      requires if k == |ns| then head == null && end == null
               else head == ns[k] && end == ns[|ns| - 1] && ns[|ns| - 1].next == null
      ensures Valid()
    {
      assert forall i :: 0 <= i < |nodes| ==> nodes[i] == ns[k + i];
    }

    static lemma OrderedWith(ns: seq<Node<T>>, n: Node<T>, k: nat)
      requires k <= |ns| && n !in ns && Ordered(ns)
      requires (k > 0 ==> ns[k - 1].num <= n.num) && (k < |ns| ==> n.num < ns[k].num)
      ensures Ordered(NodesWith(ns, n, k))
    {
      var nodes := NodesWith(ns, n, k);
      assert forall i :: 0 <= i < k ==> nodes[i] == ns[i] && ns[i].num <= n.num;
      assert forall i :: k < i < |nodes| ==> nodes[i] == ns[i - 1] && n.num < ns[i - 1].num;
    }

    lemma EntriesWith(ns: seq<Node<T>>, before: seq<Entry<T>>, n: Node<T>)
      requires |before| == |ns| && nodes == NodesWith(ns, n, Place(before, n.num))
      requires forall i :: 0 <= i < |ns| ==> before[i] == Entry(ns[i].num, ns[i].item)
      requires !Dropped(ns, n.num)
      ensures Entries() == Insert(before, Entry(n.num, n.item))
    {
      hide Place, Insert;
      var k := Place(before, n.num);
      var e := Entry(n.num, n.item);
      InsertPlaced(before, e);
      forall i | 0 <= i < |nodes|
        ensures Entries()[i] == Insert(before, e)[i]
      {
        if i < k {
          assert nodes[i] == ns[i] && Insert(before, e)[i] == before[i];
        } else if i > k {
          assert nodes[i] == ns[i - 1] && Insert(before, e)[i] == before[i - 1];
        }
      }
    }

    // Place in terms of the nodes
    lemma PlaceOf(num: nat) returns (k: nat)
      requires Valid()
      ensures k == Place(Entries(), num) && k <= |nodes|
      ensures k > 0 ==> nodes[k - 1].num <= num
      ensures k < |nodes| ==> num < nodes[k].num
    {
      hide Place;
      var es := Entries();
      k := Place(es, num);
      assert forall i :: 0 <= i < |es| ==> es[i].num == nodes[i].num;
    }

    /** The three identical Push routines. The branches that report a broken list are dead code. */
    method Push(n: Node<T>)
      requires Valid() && n !in nodes
      modifies this, n`next, nodes`next
      ensures Valid()
      ensures nodes == if Dropped(old(nodes), n.num) then old(nodes)
                       else NodesWith(old(nodes), n, Place(old(Entries()), n.num))
      ensures Cells() <= old(Cells()) + {n}
      ensures Entries() == Insert(old(Entries()), Entry(n.num, n.item))
    {
      hide Place, Insert, Valid;
      ghost var ns, before := nodes, Entries();
      ghost var k := PlaceOf(n.num);
      Link(n, k);
      if !Dropped(ns, n.num) {
        SplicedValid(ns, n, k);
        EntriesWith(ns, before, n);
      } else {
        InsertDropped(before, Entry(n.num, n.item));
      }
    }

    lemma PlaceAtEnds(num: nat, k: nat)
      requires Valid() && k <= |nodes|
      requires k > 0 ==> nodes[k - 1].num <= num
      requires k < |nodes| ==> num < nodes[k].num
      ensures |nodes| > 0 && nodes[|nodes| - 1].num < num ==> k == |nodes|
      ensures |nodes| > 0 && num < nodes[0].num ==> k == 0
      ensures |nodes| > 0 ==> nodes[0].num <= nodes[|nodes| - 1].num
      ensures forall i, j :: 0 <= i < j < |nodes| ==> nodes[i] != nodes[j]
    {}

    method Link(n: Node<T>, ghost k: nat)
      requires Valid() && n !in nodes
      requires k <= |nodes|
      requires k > 0 ==> nodes[k - 1].num <= n.num
      requires k < |nodes| ==> n.num < nodes[k].num
      modifies this, n`next, nodes`next
      ensures if Dropped(old(nodes), n.num) then Valid() && nodes == old(nodes)
              else Spliced(old(nodes), n, k)
    {
      hide Ordered;
      PlaceAtEnds(n.num, k);
      n.next := null;
      if head == null && end == null {
        head, end := n, n;
      } else if end != null && end.num < n.num {
        end.next := n;
        end := n;
        if head == null {
          assert false;
        }
      } else if head != null && head.num > n.num {
        n.next := head;
        head := n;
        if end == null {
          assert false;
        }
      } else {
        PushMiddle(n, k);
      }
      if !Dropped(nodes, n.num) {
        nodes := NodesWith(nodes, n, k);
      }
    }

    static ghost predicate Dropped(ns: seq<Node<T>>, num: nat) {
      |ns| > 0 && ns[|ns| - 1].num == num
    }

    static ghost function NodesWith(ns: seq<Node<T>>, n: Node<T>, k: nat): seq<Node<T>>
      requires k <= |ns|
    {
      ns[..k] + [n] + ns[k..]
    }

    // links n in, without touching head and end
    method PushMiddle(n: Node<T>, ghost k: nat)
      requires Valid() && n !in nodes && |nodes| > 0 && n.next == null
      requires nodes[0].num <= n.num <= nodes[|nodes| - 1].num
      requires k <= |nodes|
      requires k > 0 ==> nodes[k - 1].num <= n.num
      requires k < |nodes| ==> n.num < nodes[k].num
      modifies n`next, nodes`next
      ensures Dropped(nodes, n.num) ==> Valid()
      ensures !Dropped(nodes, n.num) ==>
        && 0 < k < |nodes|
        && nodes[k - 1].next == n && n.next == nodes[k]
        && forall i {:trigger nodes[i].next} :: 0 <= i < |nodes| && i != k - 1 ==> nodes[i].next == old(nodes[i].next)
    {
      var cur, prev := head.next, head;
      ghost var i := 1;
      while cur != null
        invariant 1 <= i <= |nodes| && prev == nodes[i - 1] && prev.num <= n.num
        invariant if i == |nodes| then cur == null else cur == nodes[i]
        decreases |nodes| - i
      {
        if cur.num > n.num {
          prev.next := n;
          n.next := cur;
          return;
        }
        prev, cur := cur, cur.next;
        i := i + 1;
      }
    }

    /** Unlinks the first node, as the send and the dispatch loop do. */
    method RemoveHead() returns (n: Node<T>)
      requires Valid() && |nodes| > 0
      modifies this
      ensures Valid() && nodes == old(nodes)[1..] && n == old(nodes)[0]
      ensures Entries() == old(Entries())[1..]
    {
      n := head;
      head := n.next;
      if head == null {
        end := null;
      }
      nodes := nodes[1..];
    }
  }
}
