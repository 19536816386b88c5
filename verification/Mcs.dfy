/** The MCS queue lock: every thread brings its own queue node and spins on a flag in it. Every load, store
  * and read-modify-write is one step, and steps of the threads interleave in any order. */
module Mcs {
  import opened Waiters

  /** A node is named by the thread that owns it. */
  datatype Ptr = Null | Node(t: nat)

  /** The access a thread does next. In lock_mcs: ClearNext and ClearSpin store to its own node, Swap exchanges
    * *m, Link stores tail->next, Spin reads me->spin. Held is the critical section, up to the read of me->next
    * in unlock_mcs; then SwapNull compares and exchanges *m, WaitNext reads me->next in the loop, ReadNext
    * reads it again, and Wake stores the successor's spin flag. */
  datatype Pc = Out | ClearNext | ClearSpin | Swap | Link | Spin | Held | SwapNull | WaitNext | ReadNext | Wake
  {
    // from the return of lock_mcs up to the hand-over
    predicate Holds() { Held? || SwapNull? || WaitNext? || ReadNext? || Wake? }

    predicate Queued() { Link? || Spin? || Holds() }
  }

  datatype Thread = Thread(pc: Pc, next: Ptr, spin: bool, tail: Ptr, succ: Ptr)

  /** History variables: arrivals logs the threads in the order of their exchange on *m, entered in the order
    * in which they got the lock; q are those between exchange and hand-over, and done those that have handed
    * over. */
  datatype State = State(m: Ptr, threads: seq<Thread>,
                         arrivals: seq<nat>, entered: seq<nat>, q: seq<nat>, done: seq<nat>)
  {
    function At(t: nat, th: Thread): State
      requires t < |threads|
    {
      this.(threads := threads[t := th])
    }

    function Enter(t: nat): State { this.(entered := entered + [t]) }

    function Leave(t: nat): State { this.(done := done + [t], q := if |q| > 0 then q[1..] else q) }

    // no thread ever stores through a null pointer, see NeverThroughNull
    function StoreNext(p: Ptr, v: Ptr): State {
      if p.Node? && p.t < |threads| then At(p.t, threads[p.t].(next := v)) else this
    }

    function SetSpin(p: Ptr): State {
      if p.Node? && p.t < |threads| then At(p.t, threads[p.t].(spin := true)) else this
    }
  }

  /** The nodes start with whatever is in their memory. */
  function Init(nodes: seq<(Ptr, bool)>): State {
    State(Null, seq(|nodes|, i requires 0 <= i < |nodes| => Thread(Out, nodes[i].0, nodes[i].1, Null, Null)),
          [], [], [], [])
  }

  function Step(s: State, t: nat): (r: State)
    ensures |r.threads| == |s.threads|
  {
    if t >= |s.threads| then s
    else
      var th := s.threads[t];
      match th.pc
      case Out => s.At(t, th.(pc := ClearNext))
      case ClearNext => s.At(t, th.(next := Null, pc := ClearSpin))
      case ClearSpin => s.At(t, th.(spin := false, pc := Swap))
      case Swap =>
        var s1 := s.(m := Node(t), arrivals := s.arrivals + [t], q := s.q + [t]);
        if s.m == Null then s1.Enter(t).At(t, th.(tail := s.m, pc := Held)) else s1.At(t, th.(tail := s.m, pc := Link))
      case Link => var s1 := s.StoreNext(th.tail, Node(t)); s1.At(t, s1.threads[t].(pc := Spin))
      case Spin => if th.spin then s.Enter(t).At(t, th.(pc := Held)) else s
      case Held => s.At(t, th.(pc := if th.next == Null then SwapNull else ReadNext))
      case SwapNull =>
        if s.m == Node(t) then s.(m := Null).Leave(t).At(t, th.(pc := Out)) else s.At(t, th.(pc := WaitNext))
      case WaitNext => if th.next == Null then s else s.At(t, th.(pc := ReadNext))
      case ReadNext => s.At(t, th.(succ := th.next, pc := Wake))
      case Wake => var s1 := s.SetSpin(th.succ).Leave(t); s1.At(t, s1.threads[t].(pc := Out))
  }

  function Run(nodes: seq<(Ptr, bool)>, ts: seq<nat>): State {
    if |ts| == 0 then Init(nodes) else Step(Run(nodes, ts[..|ts| - 1]), ts[|ts| - 1])
  }

  // ----- the invariant

  ghost predicate Queue(s: State) {
    && (forall i :: 0 <= i < |s.q| ==> s.q[i] < |s.threads| && s.threads[s.q[i]].pc.Queued())
    && (forall i, j :: 0 <= i < j < |s.q| ==> s.q[i] != s.q[j])
    && (forall t :: 0 <= t < |s.threads| && s.threads[t].pc.Queued() ==> t in s.q)
    && (forall t :: 0 <= t < |s.threads| && (s.threads[t].pc.ClearSpin? || s.threads[t].pc.Swap?) ==>
          s.threads[t].next == Null)
    && (forall t :: 0 <= t < |s.threads| && s.threads[t].pc.Swap? ==> !s.threads[t].spin)
  }

  /** All but the first in the queue wait. */
  ghost predicate Turns(s: State)
    requires Queue(s)
  {
    forall i :: 0 < i < |s.q| ==> !s.threads[s.q[i]].pc.Holds() && !s.threads[s.q[i]].spin
  }

  /** The chain of next pointers; a waiter that has not linked itself in yet knows where to. */
  ghost predicate Chain(s: State)
    requires Queue(s)
  {
    && s.m == (if |s.q| == 0 then Null else Node(s.q[|s.q| - 1]))
    && (|s.q| > 0 ==> s.threads[s.q[|s.q| - 1]].next == Null)
    && forall i :: 0 < i < |s.q| ==> ChainAt(s, i)
  }

  ghost predicate ChainAt(s: State, i: nat)
    requires Queue(s) && 0 < i < |s.q|
  {
    var prev, t := s.q[i - 1], s.q[i];
    && s.threads[prev].next == (if s.threads[t].pc.Spin? then Node(t) else Null)
    && (s.threads[t].pc.Link? ==> s.threads[t].tail == Node(prev))
  }

  /** Where the first in the queue stands. */
  ghost predicate Head(s: State)
    requires Queue(s)
  {
    |s.q| > 0 ==> HeadOk(s, s.threads[s.q[0]])
  }

  ghost predicate HeadOk(s: State, h: Thread)
    requires Queue(s) && |s.q| > 0
  {
    && !h.pc.Link? && (h.pc.Spin? ==> h.spin)
    && (h.pc.WaitNext? ==> |s.q| > 1)
    && (h.pc.ReadNext? ==> h.next != Null)
    && (h.pc.Wake? ==> |s.q| > 1 && h.succ == Node(s.q[1]) && s.threads[s.q[1]].pc.Spin?)
  }

  ghost predicate Logs(s: State)
    requires Queue(s)
  {
    && s.arrivals == s.done + s.q
    && s.entered == s.done + if |s.q| > 0 && s.threads[s.q[0]].pc.Holds() then [s.q[0]] else []
  }

  ghost predicate Inv(s: State) {
    Queue(s) && Turns(s) && Chain(s) && Head(s) && Logs(s)
  }

  lemma InitInv(nodes: seq<(Ptr, bool)>)
    ensures Inv(Init(nodes))
  {}

  // ----- every step keeps it

  /** A thread that does not wait for another one is the first in the queue. */
  lemma First(s: State, t: nat)
    requires Inv(s) && t < |s.threads| && (s.threads[t].pc.Holds() || (s.threads[t].pc.Spin? && s.threads[t].spin))
    ensures |s.q| > 0 && s.q[0] == t
  {
    hide Chain, Head, Logs;
    var i :| 0 <= i < |s.q| && s.q[i] == t;
  }

  /** What the first in the queue can see of the second. */
  lemma Second(s: State)
    requires Inv(s) && |s.q| > 0
    ensures s.threads[s.q[0]].next != Null ==>
      |s.q| > 1 && s.threads[s.q[1]].pc.Spin? && s.threads[s.q[0]].next == Node(s.q[1])
    ensures s.m == Node(s.q[0]) <==> |s.q| == 1
  {
    hide Turns, Head, Logs;
    assert |s.q| > 1 ==> ChainAt(s, 1);
  }

  lemma ChainHolds(s: State, i: nat)
    requires Queue(s) && Chain(s) && 0 < i < |s.q|
    ensures ChainAt(s, i)
  {}

  lemma OutsideInv(s: State, t: nat, th: Thread)
    requires Inv(s) && t < |s.threads| && !s.threads[t].pc.Queued() && !th.pc.Queued()
    requires (th.pc.ClearSpin? || th.pc.Swap? ==> th.next == Null) && (th.pc.Swap? ==> !th.spin)
    ensures Inv(s.At(t, th))
  {
    var s' := s.At(t, th);
    assert Queue(s');
    forall i | 0 < i < |s.q|
      ensures ChainAt(s', i)
    {
      assert ChainAt(s, i);
    }
  }

  lemma PrepareInv(s: State, t: nat)
    requires Inv(s) && t < |s.threads| && !s.threads[t].pc.Queued() && !s.threads[t].pc.Swap?
    ensures Inv(Step(s, t))
  {
    hide Turns, Chain, Head, Logs;
    OutsideInv(s, t, Step(s, t).threads[t]);
  }

  /** Steps of the first in the queue that touch its own variables only. */
  lemma LocalInv(s: State, t: nat, th: Thread, entered: seq<nat>)
    requires Inv(s) && |s.q| > 0 && s.q[0] == t
    requires th.pc.Holds() && th.next == s.threads[t].next && HeadOk(s, th)
    requires entered == s.done + [t]
    ensures Inv(s.At(t, th).(entered := entered))
  {
    var s' := s.At(t, th).(entered := entered);
    assert Queue(s');
    forall i | 0 < i < |s.q|
      ensures ChainAt(s', i)
    {
      assert ChainAt(s, i);
    }
  }

  lemma MoveInv(s: State, t: nat)
    requires Inv(s) && t < |s.threads|
    requires var th := s.threads[t];
      th.pc.Spin? || th.pc.Held? || th.pc.WaitNext? || th.pc.ReadNext? || (th.pc.SwapNull? && s.m != Node(t))
    ensures Inv(Step(s, t))
  {
    hide Turns, Chain;
    if Step(s, t) != s {
      First(s, t);
      Second(s);
      assert s.done + [] + [t] == s.done + [t];
      LocalInv(s, t, Step(s, t).threads[t], Step(s, t).entered);
    }
  }

  lemma SwapPlaces(s: State, t: nat)
    requires Inv(s) && t < |s.threads| && s.threads[t].pc.Swap?
    ensures Queue(Step(s, t)) && Turns(Step(s, t))
  {
    hide ChainAt, Head, Logs;
    var s' := Step(s, t);
    forall u: nat | u < |s'.threads| && s'.threads[u].pc.Queued()
      ensures u in s'.q
    {
      assert u == t || u in s.q;
    }
    assert Queue(s');
  }

  lemma SwapHead(s: State, t: nat)
    requires Inv(s) && t < |s.threads| && s.threads[t].pc.Swap? && Queue(Step(s, t))
    ensures Head(Step(s, t)) && Logs(Step(s, t))
  {
    hide ChainAt;
    assert s.done + s.q + [t] == s.done + (s.q + [t]);
    assert s.done + [] + [t] == s.done + [t];
  }

  lemma SwapChain(s: State, t: nat)
    requires Inv(s) && t < |s.threads| && s.threads[t].pc.Swap? && Queue(Step(s, t))
    ensures Chain(Step(s, t))
  {
    hide Logs;
    var s' := Step(s, t);
    forall i | 0 < i < |s'.q|
      ensures ChainAt(s', i)
    {
      assert i < |s.q| ==> ChainAt(s, i);
    }
  }

  lemma LinkStep(s: State, k: nat)
    requires Inv(s) && k < |s.q| && s.threads[s.q[k]].pc.Link?
    ensures k > 0
    ensures var t, prev := s.q[k], s.q[k - 1];
      Step(s, t) == s.(threads := s.threads[prev := s.threads[prev].(next := Node(t))][t := s.threads[t].(pc := Spin)])
  {
    assert ChainAt(s, k);
  }

  lemma LinkPlaces(s: State, k: nat)
    requires Inv(s) && k < |s.q| && s.threads[s.q[k]].pc.Link?
    ensures var s' := Step(s, s.q[k]); Queue(s') && Turns(s')
  {
    hide Step, Chain, Head, Logs;
    LinkStep(s, k);
    assert Queue(Step(s, s.q[k]));
  }

  lemma LinkHead(s: State, k: nat)
    requires Inv(s) && k < |s.q| && s.threads[s.q[k]].pc.Link? && Queue(Step(s, s.q[k]))
    ensures Head(Step(s, s.q[k])) && Logs(Step(s, s.q[k]))
  {
    hide Step, ChainAt;
    LinkStep(s, k);
  }

  lemma LinkChain(s: State, k: nat)
    requires Inv(s) && k < |s.q| && s.threads[s.q[k]].pc.Link? && Queue(Step(s, s.q[k]))
    ensures Chain(Step(s, s.q[k]))
  {
    hide Step, Logs, Head, Turns;
    LinkStep(s, k);
    forall i | 0 < i < |s.q|
      ensures ChainAt(Step(s, s.q[k]), i)
    {
      ChainHolds(s, i);
      assert i != k ==> s.q[i] != s.q[k] && s.q[i - 1] != s.q[k - 1];
    }
  }

  lemma LinkInv(s: State, t: nat)
    requires Inv(s) && t < |s.threads| && s.threads[t].pc.Link?
    ensures Inv(Step(s, t))
  {
    hide Turns, Chain, Head, Logs, Step;
    var k := IndexOf(s.q, t);
    LinkPlaces(s, k);
    LinkHead(s, k);
    LinkChain(s, k);
  }

  // a holder that finds its own node in the tail is alone
  lemma SwapNullInv(s: State, t: nat)
    requires Inv(s) && t < |s.threads| && s.threads[t].pc.SwapNull? && s.m == Node(t)
    ensures Inv(Step(s, t))
  {
    hide ChainAt;
    First(s, t);
    Second(s);
    var s' := Step(s, t);
    assert s'.q == [] && s.q == [t];
    assert Queue(s');
  }

  lemma WakeStep(s: State, t: nat)
    requires Inv(s) && t < |s.threads| && s.threads[t].pc.Wake?
    ensures |s.q| > 1 && s.q[0] == t && s.q[1] != t && s.threads[s.q[1]].pc.Spin?
    ensures Step(s, t) == s.(done := s.done + [t], q := s.q[1..],
      threads := s.threads[s.q[1] := s.threads[s.q[1]].(spin := true)][t := s.threads[t].(pc := Out)])
  {
    hide ChainAt;
    First(s, t);
  }

  lemma WakePlaces(s: State, t: nat)
    requires Inv(s) && t < |s.threads| && s.threads[t].pc.Wake?
    ensures Queue(Step(s, t)) && Turns(Step(s, t))
  {
    hide Step, ChainAt, Logs;
    WakeStep(s, t);
    var s' := Step(s, t);
    forall u: nat | u < |s'.threads| && s'.threads[u].pc.Queued()
      ensures u in s'.q
    {
      var j :| 0 <= j < |s.q| && s.q[j] == u;
      assert s'.q[j - 1] == u;
    }
    assert Queue(s');
  }

  lemma WakeHead(s: State, t: nat)
    requires Inv(s) && t < |s.threads| && s.threads[t].pc.Wake? && Queue(Step(s, t))
    ensures Head(Step(s, t)) && Logs(Step(s, t))
  {
    hide Step, Chain, Turns;
    WakeStep(s, t);
    Shift(s.done, s.q);
    var s' := Step(s, t);
    assert s'.threads[s'.q[0]].pc.Spin?;
    assert s'.done + [] == s'.done;
  }

  lemma WakeChain(s: State, t: nat)
    requires Inv(s) && t < |s.threads| && s.threads[t].pc.Wake? && Queue(Step(s, t))
    ensures Chain(Step(s, t))
  {
    hide Step, Logs, Head;
    WakeStep(s, t);
    var s' := Step(s, t);
    forall i | 0 < i < |s'.q|
      ensures ChainAt(s', i)
    {
      assert ChainAt(s, i + 1);
    }
  }

  lemma Stay(s: State, t: nat)
    requires t >= |s.threads|
    ensures Step(s, t) == s
  {}

  lemma {:induction false} StepInv(s: State, t: nat)
    requires Inv(s)
    ensures Inv(Step(s, t))
  {
    hide Queue, Turns, Chain, Head, Logs, Step;
    if t >= |s.threads| {
      Stay(s, t);
    } else {
      match s.threads[t].pc {
        case Swap =>
          SwapPlaces(s, t);
          SwapHead(s, t);
          SwapChain(s, t);
        case Link => LinkInv(s, t);
        case Wake =>
          WakePlaces(s, t);
          WakeHead(s, t);
          WakeChain(s, t);
        case SwapNull =>
          if s.m == Node(t) {
            SwapNullInv(s, t);
          } else {
            MoveInv(s, t);
          }
        case _ =>
          if s.threads[t].pc.Queued() {
            MoveInv(s, t);
          } else {
            PrepareInv(s, t);
          }
      }
    }
  }

  lemma {:induction false} RunInv(nodes: seq<(Ptr, bool)>, ts: seq<nat>)
    ensures Inv(Run(nodes, ts)) && |Run(nodes, ts).threads| == |nodes|
  {
    hide Inv, Step;
    if |ts| == 0 {
      InitInv(nodes);
    } else {
      RunInv(nodes, ts[..|ts| - 1]);
      StepInv(Run(nodes, ts[..|ts| - 1]), ts[|ts| - 1]);
    }
  }

  // ----- what the lock is for

  lemma MutualExclusion(nodes: seq<(Ptr, bool)>, ts: seq<nat>)
    ensures var s := Run(nodes, ts);
      forall t, u :: 0 <= t < u < |s.threads| && s.threads[t].pc.Holds() ==> !s.threads[u].pc.Holds()
  {
    hide Run, Chain, Head, Logs;
    RunInv(nodes, ts);
  }

  // whose step it was that took the thread into the queue, or to the return of the call
  function Arrival(s: State, s': State, t: nat): seq<nat> {
    if t < |s.threads| == |s'.threads| && !s.threads[t].pc.Queued() && s'.threads[t].pc.Queued() then [t] else []
  }

  function Entry(s: State, s': State, t: nat): seq<nat> {
    if t < |s.threads| == |s'.threads| && !s.threads[t].pc.Holds() && s'.threads[t].pc.Holds() then [t] else []
  }

  /** The threads in the order in which they got into the queue, and in which they got the lock, as their program
    * counters tell. */
  function Arrivals(nodes: seq<(Ptr, bool)>, ts: seq<nat>): seq<nat> {
    if |ts| == 0 then []
    else Arrivals(nodes, ts[..|ts| - 1]) + Arrival(Run(nodes, ts[..|ts| - 1]), Run(nodes, ts), ts[|ts| - 1])
  }

  function Entries(nodes: seq<(Ptr, bool)>, ts: seq<nat>): seq<nat> {
    if |ts| == 0 then []
    else Entries(nodes, ts[..|ts| - 1]) + Entry(Run(nodes, ts[..|ts| - 1]), Run(nodes, ts), ts[|ts| - 1])
  }

  lemma StoresKeep(s: State, p: Ptr, v: Ptr)
    ensures s.StoreNext(p, v) == s.(threads := s.StoreNext(p, v).threads)
    ensures s.SetSpin(p) == s.(threads := s.SetSpin(p).threads)
    ensures |s.StoreNext(p, v).threads| == |s.SetSpin(p).threads| == |s.threads|
    ensures forall u :: 0 <= u < |s.threads| ==>
      s.StoreNext(p, v).threads[u].pc == s.SetSpin(p).threads[u].pc == s.threads[u].pc
  {}

  lemma StepLogs(s: State, t: nat)
    ensures Step(s, t).arrivals == s.arrivals + Arrival(s, Step(s, t), t)
    ensures Step(s, t).entered == s.entered + Entry(s, Step(s, t), t)
  {
    hide State.StoreNext, State.SetSpin;
    if t < |s.threads| {
      StoresKeep(s, s.threads[t].tail, Node(t));
      StoresKeep(s, s.threads[t].succ, Null);
    }
  }

  /** The history variables log just that. */
  lemma {:induction false} LogsAreTrue(nodes: seq<(Ptr, bool)>, ts: seq<nat>)
    ensures Run(nodes, ts).arrivals == Arrivals(nodes, ts) && Run(nodes, ts).entered == Entries(nodes, ts)
  {
    hide Step, Arrival, Entry;
    if |ts| > 0 {
      LogsAreTrue(nodes, ts[..|ts| - 1]);
      StepLogs(Run(nodes, ts[..|ts| - 1]), ts[|ts| - 1]);
    }
  }

  /** Threads get the lock in the order of their exchange on *m. */
  lemma FirstComeFirstServed(nodes: seq<(Ptr, bool)>, ts: seq<nat>)
    ensures Entries(nodes, ts) <= Arrivals(nodes, ts)
  {
    hide Run, Turns, Chain, Head, Entries, Arrivals;
    RunInv(nodes, ts);
    LogsAreTrue(nodes, ts);
  }

  /** The thread's next access would find it still has to wait. */
  predicate Spinning(s: State, t: nat)
    requires t < |s.threads|
  {
    var th := s.threads[t];
    (th.pc.Spin? && !th.spin) || (th.pc.WaitNext? && th.next == Null)
  }

  /** No lost hand-over: as long as somebody is queued, the first in the queue can go on, or the second one
    * can, and will link itself in. */
  lemma SomeoneMoves(nodes: seq<(Ptr, bool)>, ts: seq<nat>)
    requires |Run(nodes, ts).q| > 0
    ensures var s := Run(nodes, ts);
      && s.q[0] < |s.threads| && s.threads[s.q[0]].pc.Queued()
      && (!Spinning(s, s.q[0]) || (|s.q| > 1 && s.q[1] < |s.threads| && s.threads[s.q[1]].pc.Link?))
  {
    hide Run, Logs;
    RunInv(nodes, ts);
    var s := Run(nodes, ts);
    assert |s.q| > 1 ==> ChainAt(s, 1);
  }

  // ----- everybody who has called gets the lock

  // how many accesses a thread has before it, if each of its loops ends at once
  function Weight(pc: Pc): nat {
    match pc
    case ClearNext => 10 case ClearSpin => 9 case Swap => 8 case Link => 7 case Spin => 6 case Held => 5
    case SwapNull => 4 case WaitNext => 3 case ReadNext => 2 case Wake => 1 case Out => 0
  }

  function Weights(s: State): seq<nat> {
    seq(|s.threads|, i requires 0 <= i < |s.threads| => Weight(s.threads[i].pc))
  }

  /** An upper bound for the number of accesses that are left, apart from those that find they have to wait, if
    * nobody calls any more. */
  function Remaining(s: State): nat { Sum(Weights(s)) }

  // of the other threads a step changes the fields of nodes only
  lemma OthersStay(s: State, t: nat, u: nat)
    requires t < |s.threads| && u < |s.threads| && u != t
    ensures Step(s, t).threads[u].pc == s.threads[u].pc
  {
    hide State.StoreNext, State.SetSpin;
    StoresKeep(s, s.threads[t].tail, Node(t));
    StoresKeep(s, s.threads[t].succ, Null);
  }

  lemma Advances(s: State, t: nat)
    requires t < |s.threads| && !s.threads[t].pc.Out? && !Spinning(s, t)
    ensures Weight(Step(s, t).threads[t].pc) < Weight(s.threads[t].pc)
  {
    hide State.StoreNext, State.SetSpin;
    StoresKeep(s, s.threads[t].tail, Node(t));
    StoresKeep(s, s.threads[t].succ, Null);
  }

  /** Whoever takes the next step, unless it waits or calls, uses up some of it. */
  lemma EveryStepCounts(s: State, t: nat)
    requires t < |s.threads| && !s.threads[t].pc.Out? && !Spinning(s, t)
    ensures Remaining(Step(s, t)) < Remaining(s)
  {
    hide Sum, Step, Weight, Spinning;
    var s' := Step(s, t);
    forall u: nat | u < |s.threads| && u != t
      ensures s'.threads[u].pc == s.threads[u].pc
    {
      OthersStay(s, t, u);
    }
    Advances(s, t);
    assert Weights(s') == Weights(s)[t := Weight(s'.threads[t].pc)];
    SumChange(Weights(s), t, Weight(s'.threads[t].pc));
  }

  /** The thread has called lock_mcs, which has not returned yet. */
  predicate Locking(s: State, t: nat) {
    t < |s.threads| && !s.threads[t].pc.Out? && !s.threads[t].pc.Holds()
  }

  lemma LockingOn(s: State, t: nat, u: nat)
    requires Locking(s, t)
    ensures Locking(Step(s, u), t) || Step(s, u).threads[t].pc.Held?
  {
    if u != t {
      hide Step;
      if u < |s.threads| {
        OthersStay(s, u, t);
      } else {
        Stay(s, u);
      }
    }
  }

  lemma Mover(nodes: seq<(Ptr, bool)>, ts: seq<nat>, t: nat) returns (u: nat)
    requires Locking(Run(nodes, ts), t)
    ensures var s := Run(nodes, ts); u < |s.threads| && !s.threads[u].pc.Out? && !Spinning(s, u)
  {
    hide Run, Turns, Chain, Head, Logs;
    var s := Run(nodes, ts);
    if s.threads[t].pc.Queued() {
      RunInv(nodes, ts);
      SomeoneMoves(nodes, ts);
      u := if Spinning(s, s.q[0]) then s.q[1] else s.q[0];
    } else {
      u := t;
    }
  }

  lemma RunMore(nodes: seq<(Ptr, bool)>, ts: seq<nat>, t: nat)
    ensures Run(nodes, ts + [t]) == Step(Run(nodes, ts), t)
  {
    assert (ts + [t])[..|ts|] == ts;
  }

  /** The steps are all taken by threads inside the lock's routines. */
  ghost predicate Inside(nodes: seq<(Ptr, bool)>, ts: seq<nat>, more: seq<nat>) {
    forall i :: 0 <= i < |more| ==>
      var s, u := Run(nodes, ts + more[..i]), more[i]; u < |s.threads| && !s.threads[u].pc.Out?
  }

  lemma InsideMore(nodes: seq<(Ptr, bool)>, ts: seq<nat>, t: nat, rest: seq<nat>)
    requires var s := Run(nodes, ts); t < |s.threads| && !s.threads[t].pc.Out?
    requires Inside(nodes, ts + [t], rest)
    ensures Inside(nodes, ts, [t] + rest)
  {
    hide Run;
    var more := [t] + rest;
    forall i | 0 <= i < |more|
      ensures var s, u := Run(nodes, ts + more[..i]), more[i]; u < |s.threads| && !s.threads[u].pc.Out?
    {
      if i == 0 {
        assert ts + more[..0] == ts;
      } else {
        assert ts + more[..i] == ts + [t] + rest[..i - 1] && more[i] == rest[i - 1];
      }
    }
  }

  lemma NothingInside(nodes: seq<(Ptr, bool)>, ts: seq<nat>)
    ensures Inside(nodes, ts, [])
  {}

  lemma LockingThread(s: State, t: nat)
    requires Locking(s, t)
    ensures t < |s.threads|
  {}

  /** From every reachable state every thread that has called lock_mcs can be brought to the return of the call,
    * within the bound and without anybody calling again. */
  lemma {:induction false} CanEnter(nodes: seq<(Ptr, bool)>, ts: seq<nat>, t: nat) returns (more: seq<nat>)
    requires Locking(Run(nodes, ts), t)
    ensures var s := Run(nodes, ts + more); t < |s.threads| && s.threads[t].pc.Held?
    ensures |more| <= Remaining(Run(nodes, ts)) && Inside(nodes, ts, more)
    decreases Remaining(Run(nodes, ts))
  {
    hide Run, Step, Remaining, Inside, Locking, Spinning;
    var u := Mover(nodes, ts, t);
    RunMore(nodes, ts, u);
    EveryStepCounts(Run(nodes, ts), u);
    LockingOn(Run(nodes, ts), t, u);
    LockingThread(Run(nodes, ts), t);
    var rest := [];
    if Locking(Run(nodes, ts + [u]), t) {
      rest := CanEnter(nodes, ts + [u], t);
    } else {
      NothingInside(nodes, ts + [u]);
      assert ts + [u] + rest == ts + [u];
    }
    more := [u] + rest;
    assert ts + more == ts + [u] + rest;
    InsideMore(nodes, ts, u, rest);
  }

  /** So every thread outside can call lock_mcs, and get the lock, with nobody else calling. */
  lemma CanLock(nodes: seq<(Ptr, bool)>, ts: seq<nat>, t: nat) returns (more: seq<nat>)
    requires t < |Run(nodes, ts).threads| && Run(nodes, ts).threads[t].pc.Out?
    ensures var s := Run(nodes, ts + [t] + more);
      t < |s.threads| && s.threads[t].pc.Held? && Inside(nodes, ts + [t], more)
  {
    hide Run, Inside;
    RunMore(nodes, ts, t);
    more := CanEnter(nodes, ts + [t], t);
  }

  /** And whatever the schedule: when nobody inside can do anything but wait, nobody is inside. */
  lemma NothingStuck(nodes: seq<(Ptr, bool)>, ts: seq<nat>)
    requires var s := Run(nodes, ts); forall u :: 0 <= u < |s.threads| && !s.threads[u].pc.Out? ==> Spinning(s, u)
    ensures var s := Run(nodes, ts); forall u :: 0 <= u < |s.threads| ==> s.threads[u].pc.Out?
  {
    hide Run, Turns, Chain, Head, Logs;
    RunInv(nodes, ts);
    var s := Run(nodes, ts);
    if |s.q| > 0 {
      SomeoneMoves(nodes, ts);
    }
  }

  /** A thread outside may reuse or free its node: nobody will follow a pointer to it. */
  lemma {:induction false} NodeRetired(nodes: seq<(Ptr, bool)>, ts: seq<nat>, t: nat)
    requires t < |Run(nodes, ts).threads| && !Run(nodes, ts).threads[t].pc.Queued()
    ensures Run(nodes, ts).m != Node(t)
    ensures var s := Run(nodes, ts);
      forall u :: 0 <= u < |s.threads| && s.threads[u].pc.Queued() ==>
        && s.threads[u].next != Node(t)
        && (s.threads[u].pc.Link? ==> s.threads[u].tail != Node(t))
        && (s.threads[u].pc.Wake? ==> s.threads[u].succ != Node(t))
  {
    hide Run, Logs;
    RunInv(nodes, ts);
    var s := Run(nodes, ts);
    forall u: nat | u < |s.threads| && s.threads[u].pc.Queued()
      ensures s.threads[u].next != Node(t)
      ensures s.threads[u].pc.Link? ==> s.threads[u].tail != Node(t)
      ensures s.threads[u].pc.Wake? ==> s.threads[u].succ != Node(t)
    {
      var k := IndexOf(s.q, u);
      assert k > 0 ==> ChainAt(s, k);
      assert k + 1 < |s.q| ==> ChainAt(s, k + 1);
    }
  }

  /** Whenever a thread stores through a pointer, to link itself in or to wake its successor, it points to another
    * thread's node. */
  lemma NeverThroughNull(nodes: seq<(Ptr, bool)>, ts: seq<nat>, t: nat)
    requires t < |Run(nodes, ts).threads|
    ensures var th := Run(nodes, ts).threads[t];
      && (th.pc.Link? ==> th.tail.Node? && th.tail.t < |nodes| && th.tail.t != t)
      && (th.pc.Wake? ==> th.succ.Node? && th.succ.t < |nodes| && th.succ.t != t)
  {
    hide Run, Logs;
    RunInv(nodes, ts);
    var s := Run(nodes, ts);
    if s.threads[t].pc.Queued() {
      var k := IndexOf(s.q, t);
      assert k > 0 ==> ChainAt(s, k);
    }
  }
}
