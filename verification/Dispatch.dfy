/** Dispatch of unpacked messages. Worker threads pick messages up in any order, sort them into the
  * connection's list under its lock, and run the handlers strictly by number: the lock is dropped between
  * two messages, and a message that goes asynchronous holds up its successors until its end is reported. */
module Dispatch {
  import opened LittleEndian
  import opened SortedList

  type Body = seq<byte>

  /** What the lock protects: m_uiLastProcessedMessageSequenceNum, m_uiNumberOfReceivedPacketInQueue and the
    * sorted message list. */
  datatype Dx = Dx(last: nat, queued: int, list: seq<Entry<Body>>)
  {
    predicate Ready() { |list| > 0 && list[0].num == last + 1 }

    function Push(e: Entry<Body>): Dx { this.(list := Insert(list, e)) }

    // a message is done with
    function Count(): Dx { this.(last := last + 1, queued := queued - 1) }

    /** The head leaves the list after its handler; an asynchronous one is not counted yet. */
    function Retire(async: bool): Dx
      requires Ready()
    {
      var rest := this.(list := list[1..]);
      if async then rest else rest.Count()
    }
  }

  // ----- one thread alone

  /** The loop of ProcessUnpackedMessage when no other thread comes between: every handler call takes its
    * outcome, asynchronous or not, from asyncs; without one it is synchronous. `handed` collects the messages
    * given to handlers. */
  function Drain(d: Dx, asyncs: seq<bool>, handed: seq<Entry<Body>>): (r: (Dx, seq<Entry<Body>>))
    ensures handed <= r.1
    decreases |d.list|
  {
    if !d.Ready() then (d, handed)
    else if First(asyncs) then (d.Retire(true), handed + [d.list[0]])
    else Drain(d.Retire(false), Rest(asyncs), handed + [d.list[0]])
  }

  predicate First(asyncs: seq<bool>) { |asyncs| > 0 && asyncs[0] }

  function Rest(asyncs: seq<bool>): seq<bool> { if |asyncs| > 0 then asyncs[1..] else [] }

  /** The same by positions: the k messages handed out are the first ones listed, with the numbers behind the last
    * one processed, and leave the list. None but the last of them goes asynchronous. If that one does, it is not
    * counted, and the call ends; otherwise the call ends because the next number does not head the list. */
  ghost predicate Drained(d: Dx, asyncs: seq<bool>, e: Dx, handed: seq<Entry<Body>>) {
    var k := |handed|;
    && k <= |d.list| && handed == d.list[..k] && e.list == d.list[k..]
    && (forall i :: 0 <= i < k ==> d.list[i].num == d.last + 1 + i)
    && (forall i :: 0 <= i < k - 1 && i < |asyncs| ==> !asyncs[i])
    && if 0 < k <= |asyncs| && asyncs[k - 1]
       then e.last == d.last + k - 1 && e.queued == d.queued - (k - 1)
       else
         && e.last == d.last + k && e.queued == d.queued - k
         && (k < |d.list| ==> d.list[k].num != e.last + 1)
  }

  lemma {:induction false} DrainIs(d: Dx, asyncs: seq<bool>)
    ensures var r := Drain(d, asyncs, []); Drained(d, asyncs, r.0, r.1)
    decreases |d.list|
  {
    if !d.Ready() {
      assert d.list[..0] == [] && d.list[0..] == d.list;
    } else {
      var one := [d.list[0]];
      assert [] + one == one && d.list[..1] == one;
      if !First(asyncs) {
        hide Drained;
        var r := Drain(d.Retire(false), Rest(asyncs), []);
        DrainIs(d.Retire(false), Rest(asyncs));
        DrainMore(d.Retire(false), Rest(asyncs), one);
        OneFirst(d, asyncs, r.0, r.1);
      }
    }
  }

  lemma OneFirst(d: Dx, asyncs: seq<bool>, e: Dx, more: seq<Entry<Body>>)
    requires d.Ready() && !First(asyncs) && Drained(d.Retire(false), Rest(asyncs), e, more)
    ensures Drained(d, asyncs, e, [d.list[0]] + more)
  {
    var k := |more|;
    assert d.list[..k + 1] == [d.list[0]] + d.list[1..][..k];
    assert forall i :: 0 <= i < |asyncs| - 1 ==> Rest(asyncs)[i] == asyncs[i + 1];
    forall i | 0 <= i < k && i < |asyncs|
      ensures !asyncs[i]
    {
      if i > 0 {
        assert !Rest(asyncs)[i - 1];
      }
    }
  }

  // what has been handed out before does not matter
  lemma {:induction false} DrainMore(d: Dx, asyncs: seq<bool>, before: seq<Entry<Body>>)
    ensures var r := Drain(d, asyncs, []); Drain(d, asyncs, before) == (r.0, before + r.1)
    decreases |d.list|
  {
    if !d.Ready() {
      assert before + [] == before;
    } else {
      var one := [d.list[0]];
      assert [] + one == one;
      if !First(asyncs) {
        var d1 := d.Retire(false);
        DrainMore(d1, Rest(asyncs), before + one);
        DrainMore(d1, Rest(asyncs), one);
        var more := Drain(d1, Rest(asyncs), []).1;
        assert before + one + more == before + (one + more);
      }
    }
  }

  class DispatchSide {
    const list: List<Body>
    var last: nat
    var queued: int

    ghost predicate Valid()
      reads this, list, list.nodes
    {
      list.Valid()
    }

    ghost function Value(): Dx
      reads this, list, list.nodes
    {
      Dx(last, queued, list.Entries())
    }

    constructor ()
      ensures Valid() && fresh(list) && Value() == Dx(0, 0, [])
    {
      list := new List();
      last, queued := 0, 0;
    }

    /** n == null asks for what is already listed. */
    method ProcessUnpackedMessage(n: Node?<Body>, asyncs: seq<bool>) returns (handed: seq<Entry<Body>>)
      requires Valid() && (n != null ==> n !in list.nodes)
      modifies this, list, list.nodes, n
      ensures Valid()
      ensures var d := if n == null then old(Value()) else old(Value()).Push(Entry(n.num, old(n.item)));
        (Value(), handed) == Drain(d, asyncs, []) && Drained(d, asyncs, Value(), handed)
    {
      hide Insert, List.Valid, Drained, Drain;
      if n != null {
        list.Push(n);
      }
      DrainIs(Value(), asyncs);
      handed := Loop(asyncs);
    }

    // with the lock held
    method Loop(asyncs: seq<bool>) returns (handed: seq<Entry<Body>>)
      requires Valid()
      modifies this, list
      ensures Valid()
      ensures (Value(), handed) == Drain(old(Value()), asyncs, [])
    {
      hide List.Valid;
      handed := [];
      var cur, outcomes := list.head, asyncs;
      list.Ends();
      if cur == null {
        return;
      }
      while cur != null && cur.num == last + 1
        invariant Valid() && cur == list.head
        invariant Drain(old(Value()), asyncs, []) == Drain(Value(), outcomes, handed)
        modifies this, list
        decreases |list.nodes|
      {
        list.Ends();
        var async := First(outcomes);
        handed, outcomes := handed + [Entry(cur.num, cur.item)], Rest(outcomes);
        var _ := list.RemoveHead();
        if async {
          return;
        }
        last, queued := last + 1, queued - 1;
        cur := list.head;
      }
      list.Ends();
    }

    method ProcessAsyncMessageEnd()
      requires Valid()
      modifies this
      ensures Valid() && Value() == old(Value()).Count()
    {
      last, queued := last + 1, queued - 1;
    }
  }
}
