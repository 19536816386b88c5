/** Any number of worker threads dispatching the messages of one connection. */
module DispatchRun {
  import opened SortedList
  import opened Dispatch
  import opened Waiters

  /** Where a worker stands. It holds the lock while Deciding or Handling, and waits for it while
    * Arriving (with a message to sort in), Released (between two messages), Ending (in
    * ProcessAsyncMessageEnd) or Calling (about to ask for the listed messages). */
  datatype Pc =
    | Idle
    | Arriving(num: nat)
    | Deciding
    | Handling(num: nat, async: bool)
    | Released
    | Ending(num: nat)
    | Calling
  {
    predicate Holds() { Deciding? || Handling? }

    // will look at the list once more before it goes idle
    predicate Looks() { Deciding? || Handling? || Released? || Calling? }

    // answers for the message handed out last
    predicate Bears() { Ending? || (Handling? && !async) }
  }

  /** bodies[i] is message i + 1; posted and ended are the messages and the completions no worker has picked
    * up yet; deferred are the messages whose asynchronous work goes on; handed are the messages given to
    * ProcessMessage, in this order. */
  datatype Ds = Ds(dx: Dx, bodies: seq<Body>, posted: set<nat>, deferred: set<nat>, ended: set<nat>,
                   pcs: seq<Pc>, owner: int, handed: seq<Entry<Body>>)
  {
    function At(t: nat, pc: Pc): Ds
      requires t < |pcs|
    {
      this.(pcs := pcs[t := pc])
    }

    predicate Free() { owner == -1 }
  }

  function Init(n: nat): Ds {
    Ds(Dx(0, 0, []), [], {}, {}, {}, seq(n, i => Idle), -1, [])
  }

  datatype Event =
    | Unpack(body: Body)
    | Pick(t: nat, num: nat)
    | PickEnd(t: nat, num: nat)
    | Lock(t: nat)
    | Decide(t: nat)
    | Defer(t: nat)
    | Return(t: nat)
    | Finish(num: nat)

  predicate Enabled(s: Ds, e: Event) {
    match e
    case Unpack(_) => true
    case Pick(t, num) => t < |s.pcs| && s.pcs[t].Idle? && num in s.posted && 0 < num <= |s.bodies|
    case PickEnd(t, num) => t < |s.pcs| && s.pcs[t].Idle? && num in s.ended
    case Lock(t) => t < |s.pcs| && s.Free() && !s.pcs[t].Idle? && !s.pcs[t].Holds()
                 && (s.pcs[t].Arriving? ==> 0 < s.pcs[t].num <= |s.bodies|)
    case Decide(t) => t < |s.pcs| && s.pcs[t].Deciding?
    case Defer(t) => t < |s.pcs| && s.pcs[t].Handling? && !s.pcs[t].async
    case Return(t) => t < |s.pcs| && s.pcs[t].Handling? && s.dx.Ready()
    case Finish(num) => num in s.deferred
  }

  /** A handler may go asynchronous any time before it returns, and the completion may be reported, picked up
    * and wait for the lock while it still runs. */
  function Effect(s: Ds, e: Event): Ds
    requires Enabled(s, e)
  {
    match e
    case Unpack(body) =>
      s.(bodies := s.bodies + [body], posted := s.posted + {|s.bodies| + 1}, dx := s.dx.(queued := s.dx.queued + 1))
    case Pick(t, num) => s.(posted := s.posted - {num}).At(t, Arriving(num))
    case PickEnd(t, num) => s.(ended := s.ended - {num}).At(t, Ending(num))
    case Lock(t) => Locked(s, t)
    case Decide(t) =>
      if s.dx.Ready() then s.(handed := s.handed + [s.dx.list[0]]).At(t, Handling(s.dx.list[0].num, false))
      else s.(owner := -1).At(t, Idle)
    case Defer(t) => s.(deferred := s.deferred + {s.pcs[t].num}).At(t, Handling(s.pcs[t].num, true))
    case Return(t) =>
      s.(dx := s.dx.Retire(s.pcs[t].async), owner := -1).At(t, if s.pcs[t].async then Idle else Released)
    case Finish(num) => s.(deferred := s.deferred - {num}, ended := s.ended + {num})
  }

  // what a thread does first when it gets the lock
  function Locked(s: Ds, t: nat): Ds
    requires Enabled(s, Lock(t))
  {
    var pc := s.pcs[t];
    if pc.Ending? then s.(dx := s.dx.Count()).At(t, Calling)
    else
      var dx := if pc.Arriving? then s.dx.Push(Entry(pc.num, s.bodies[pc.num - 1])) else s.dx;
      s.(dx := dx, owner := t).At(t, Deciding)
  }

  function Step(s: Ds, e: Event): Ds { if Enabled(s, e) then Effect(s, e) else s }

  function Run(n: nat, es: seq<Event>): Ds {
    if |es| == 0 then Init(n) else Step(Run(n, es[..|es| - 1]), es[|es| - 1])
  }

  // ----- the invariant

  /** Only the owner of the lock is in the critical section. */
  ghost predicate Exclusive(s: Ds) {
    && -1 <= s.owner < |s.pcs|
    && forall t :: 0 <= t < |s.pcs| ==> (s.pcs[t].Holds() <==> s.owner == t)
  }

  /** The last message handed out is processed, or exactly one of these has it: a synchronous handler, the
    * asynchronous work, a posted completion, a worker about to end it. */
  ghost predicate InFlight(s: Ds) {
    var k := |s.handed|;
    && s.dx.last <= k <= s.dx.last + 1
    && s.deferred <= {k} && s.ended <= {k} && s.deferred !! s.ended
    && (k == s.dx.last ==> s.deferred == {} && s.ended == {})
    && (k > s.dx.last ==> s.deferred != {} || s.ended != {} || exists t :: 0 <= t < |s.pcs| && s.pcs[t].Bears())
    && OneBearer(s)
  }

  ghost predicate OneBearer(s: Ds) {
    && (forall t :: 0 <= t < |s.pcs| && s.pcs[t].Bears() ==>
          s.pcs[t].num == |s.handed| == s.dx.last + 1 && s.deferred == {} && s.ended == {})
    && (forall t, t' :: 0 <= t < t' < |s.pcs| && s.pcs[t].Bears() ==> !s.pcs[t'].Bears())
    && (forall t :: 0 <= t < |s.pcs| && s.pcs[t].Handling? ==>
          s.pcs[t].num == |s.handed| == s.dx.last + 1 && s.dx.Ready())
  }

  /** Every message not handed out yet is posted, on its way to the list, or listed. */
  ghost predicate Placed(s: Ds) {
    && Increasing(s.dx.list)
    && Listed(s)
    && (forall n :: n in s.posted ==> Pending(s, n))
    && (forall t :: 0 <= t < |s.pcs| && s.pcs[t].Arriving? ==> Pending(s, s.pcs[t].num) && s.pcs[t].num !in s.posted)
    && (forall t, t' :: 0 <= t < t' < |s.pcs| && s.pcs[t].Arriving? && s.pcs[t'].Arriving? ==>
          s.pcs[t].num != s.pcs[t'].num)
    && Covered(s)
    && s.dx.queued == |s.bodies| - s.dx.last
  }

  ghost predicate Covered(s: Ds) {
    forall n: nat :: |s.handed| < n <= |s.bodies| ==> n in s.posted || Has(s.dx.list, n) || Coming(s.pcs, n)
  }

  ghost predicate Pending(s: Ds, n: nat) { |s.handed| < n <= |s.bodies| && !Has(s.dx.list, n) }

  ghost predicate Coming(pcs: seq<Pc>, n: nat) { exists t :: 0 <= t < |pcs| && pcs[t] == Arriving(n) }

  // the head stays listed while its handler runs
  ghost predicate Listed(s: Ds) {
    forall i :: 0 <= i < |s.dx.list| ==>
      && 0 < s.dx.list[i].num <= |s.bodies|
      && s.dx.list[i].item == s.bodies[s.dx.list[i].num - 1]
      && (s.dx.list[i].num > |s.handed| || (i == 0 && s.dx.list[i].num == |s.handed| && Running(s)))
  }

  predicate Running(s: Ds) { 0 <= s.owner < |s.pcs| && s.pcs[s.owner].Handling? }

  /** handed out: 1, 2, 3, ... with their bodies */
  ghost predicate InOrder(s: Ds) {
    |s.handed| <= |s.bodies| && forall i :: 0 <= i < |s.handed| ==> s.handed[i] == Entry(i + 1, s.bodies[i])
  }

  /** No lost dispatch: if the next message is listed, some thread is going to look. */
  ghost predicate Watched(s: Ds) {
    s.dx.Ready() ==> exists t :: 0 <= t < |s.pcs| && s.pcs[t].Looks()
  }

  ghost predicate Inv(s: Ds) {
    Exclusive(s) && InFlight(s) && Placed(s) && InOrder(s) && Watched(s)
  }

  // ----- every step keeps it

  lemma ExclusiveKept(s: Ds, e: Event)
    requires Inv(s) && Enabled(s, e)
    ensures Exclusive(Effect(s, e))
  {
    hide Insert, InFlight, Placed, InOrder, Watched;
  }

  lemma WatchedKept(s: Ds, e: Event)
    requires Inv(s) && Enabled(s, e)
    ensures Watched(Effect(s, e))
  {
    hide Insert, InOrder;
    var s' := Effect(s, e);
    if e.Lock? {
      assert s'.pcs[e.t].Looks();
    } else if e.Return? && !s.pcs[e.t].async {
      assert s'.pcs[e.t].Looks();
    } else if w: nat :| w < |s.pcs| && s.pcs[w].Looks() {
      assert s'.pcs[w] == s.pcs[w] || s'.pcs[w].Looks() || !s'.dx.Ready();
    }
  }

  lemma InOrderKept(s: Ds, e: Event)
    requires Inv(s) && Enabled(s, e)
    ensures InOrder(Effect(s, e))
  {
    hide Insert, Watched;
  }

  lemma InFlightPicked(s: Ds, e: Event)
    requires Inv(s) && Enabled(s, e) && !e.Lock? && !e.Decide? && !e.Return?
    ensures InFlight(Effect(s, e))
  {
    hide Insert, InOrder, Watched, Placed;
    var s' := Effect(s, e);
    if e.PickEnd? {
      assert s'.pcs[e.t].Bears();
    } else if w: nat :| w < |s.pcs| && s.pcs[w].Bears() {
      assert s'.pcs[w] == s.pcs[w] || s'.deferred != {};
    }
  }

  lemma InFlightLocked(s: Ds, t: nat)
    requires Inv(s) && Enabled(s, Lock(t))
    ensures InFlight(Effect(s, Lock(t)))
  {
    hide Insert, InOrder, Watched, Placed;
    var s' := Effect(s, Lock(t));
    if w: nat :| w < |s.pcs| && s.pcs[w].Bears() {
      assert s'.pcs[w] == s.pcs[w] || s'.dx.last == |s'.handed|;
    }
  }

  lemma InFlightHandler(s: Ds, e: Event)
    requires Inv(s) && Enabled(s, e) && (e.Decide? || e.Return?)
    ensures InFlight(Effect(s, e))
  {
    hide Insert, InOrder, Watched;
    var s' := Effect(s, e);
    if e.Decide? && s.dx.Ready() {
      assert s'.pcs[e.t].Bears();
    } else if w: nat :| w < |s.pcs| && s.pcs[w].Bears() {
      assert s'.pcs[w] == s.pcs[w] || s'.dx.last == |s'.handed|;
    }
  }

  lemma StillComing(pcs: seq<Pc>, t: nat, pc: Pc)
    requires t < |pcs|
    ensures forall n: nat :: Coming(pcs, n) && pcs[t] != Arriving(n) ==> Coming(pcs[t := pc], n)
    ensures pc.Arriving? ==> Coming(pcs[t := pc], pc.num)
  {
    var pcs' := pcs[t := pc];
    assert pcs'[t] == pc;
    forall n: nat | Coming(pcs, n) && pcs[t] != Arriving(n)
      ensures Coming(pcs', n)
    {
      var w :| 0 <= w < |pcs| && pcs[w] == Arriving(n);
      assert pcs'[w] == pcs[w];
    }
  }

  lemma UnpackPlaced(s: Ds, body: Body)
    requires Inv(s) && Enabled(s, Unpack(body))
    ensures Placed(Effect(s, Unpack(body)))
  {
    hide Insert, Watched;
    var s' := Effect(s, Unpack(body));
    assert Covered(s');
  }

  lemma PickPlaced(s: Ds, e: Event)
    requires Inv(s) && Enabled(s, e) && (e.Pick? || e.PickEnd? || e.Defer?)
    ensures Placed(Effect(s, e))
  {
    hide Insert, InOrder, Watched;
    var s' := Effect(s, e);
    StillComing(s.pcs, e.t, s'.pcs[e.t]);
    assert Covered(s');
  }

  lemma HandlerPlaced(s: Ds, e: Event)
    requires Inv(s) && Enabled(s, e) && (e.Decide? || e.Return?)
    ensures Placed(Effect(s, e))
  {
    hide Insert, InOrder, Watched;
    var s' := Effect(s, e);
    StillComing(s.pcs, e.t, s'.pcs[e.t]);
    assert Covered(s');
  }

  lemma ArrivingPlaced(s: Ds, t: nat)
    requires Inv(s) && Enabled(s, Lock(t)) && s.pcs[t].Arriving?
    ensures Listed(Effect(s, Lock(t))) && Increasing(Effect(s, Lock(t)).dx.list)
    ensures forall n: nat :: Has(Effect(s, Lock(t)).dx.list, n) <==> Has(s.dx.list, n) || n == s.pcs[t].num
  {
    hide Insert, InOrder, Watched, InFlight, Increasing, Has;
    var s' := Effect(s, Lock(t));
    var e := Entry(s.pcs[t].num, s.bodies[s.pcs[t].num - 1]);
    InsertFresh(s.dx.list, e);
    forall i | 0 <= i < |s'.dx.list|
      ensures |s.handed| < s'.dx.list[i].num <= |s.bodies| && s'.dx.list[i].item == s.bodies[s'.dx.list[i].num - 1]
    {
      InsertMembers(s.dx.list, e, s'.dx.list[i]);
    }
  }

  lemma LockPlaced(s: Ds, t: nat)
    requires Inv(s) && Enabled(s, Lock(t))
    ensures Placed(Effect(s, Lock(t)))
  {
    hide Insert, InOrder, Watched;
    var s' := Effect(s, Lock(t));
    StillComing(s.pcs, t, s'.pcs[t]);
    if s.pcs[t].Arriving? {
      ArrivingPlaced(s, t);
    }
    assert Covered(s');
  }

  lemma PlacedKept(s: Ds, e: Event)
    requires Inv(s) && Enabled(s, e)
    ensures Placed(Effect(s, e))
  {
    if e.Unpack? {
      UnpackPlaced(s, e.body);
    } else if e.Lock? {
      LockPlaced(s, e.t);
    } else if e.Decide? || e.Return? {
      HandlerPlaced(s, e);
    } else if !e.Finish? {
      PickPlaced(s, e);
    }
  }

  lemma StepInv(s: Ds, e: Event)
    requires Inv(s)
    ensures Inv(Step(s, e))
  {
    hide Exclusive, InFlight, Placed, InOrder, Watched, Effect;
    if Enabled(s, e) {
      ExclusiveKept(s, e);
      PlacedKept(s, e);
      InOrderKept(s, e);
      WatchedKept(s, e);
      if e.Lock? {
        InFlightLocked(s, e.t);
      } else if e.Decide? || e.Return? {
        InFlightHandler(s, e);
      } else {
        InFlightPicked(s, e);
      }
    }
  }

  lemma {:induction false} RunInv(n: nat, es: seq<Event>)
    ensures Inv(Run(n, es)) && |Run(n, es).pcs| == n
  {
    hide Inv;
    if |es| == 0 {
      assert Inv(Init(n)) by {
        InitInv(n);
      }
    } else {
      RunInv(n, es[..|es| - 1]);
      StepInv(Run(n, es[..|es| - 1]), es[|es| - 1]);
    }
  }

  lemma InitInv(n: nat)
    ensures Inv(Init(n))
  {}

  // ----- what this means for the handlers

  /** However n threads interleave, the messages handed to ProcessMessage are 1, 2, 3, ... with no gap and no
    * repeat, each with the body it was unpacked with. */
  lemma ExactlyOnceInOrder(n: nat, es: seq<Event>)
    ensures var s := Run(n, es);
      |s.handed| <= |s.bodies| && forall i :: 0 <= i < |s.handed| ==> s.handed[i] == Entry(i + 1, s.bodies[i])
  {
    hide Run, Exclusive, InFlight, Placed, Watched;
    RunInv(n, es);
  }

  /** One handler at a time. While message m is asynchronous - its work going on, its completion posted or
    * waiting for the lock - it is the only one, no successor has been handed out, and m is not counted. */
  lemma OneAtATime(n: nat, es: seq<Event>)
    ensures var s := Run(n, es);
      forall t, t' :: 0 <= t < t' < n && |s.pcs| == n && s.pcs[t].Handling? ==> !s.pcs[t'].Handling?
    ensures var s := Run(n, es);
      forall m :: m in s.deferred || m in s.ended ==> m == |s.handed| == s.dx.last + 1
    ensures var s := Run(n, es);
      forall t :: 0 <= t < |s.pcs| && s.pcs[t].Ending? ==>
        s.pcs[t].num == |s.handed| == s.dx.last + 1 && s.deferred == {} && s.ended == {}
    ensures var s := Run(n, es);
      forall t, t' :: 0 <= t < t' < |s.pcs| && s.pcs[t].Ending? ==> !s.pcs[t'].Ending?
  {
    hide Run, InOrder, Placed, Watched;
    RunInv(n, es);
  }

  /** The queue counter is the number of messages unpacked but not processed, and never wraps below zero. */
  lemma MessageLedger(n: nat, es: seq<Event>)
    ensures var s := Run(n, es);
      s.dx.queued == |s.bodies| - s.dx.last >= 0 && s.dx.last <= |s.handed| <= s.dx.last + 1
  {
    hide Run, Exclusive, Watched, Listed, Increasing, Has;
    RunInv(n, es);
  }

  /** No message gets stuck: when there is nothing left to do for any worker, and no asynchronous work goes
    * on, every message unpacked so far has been handed out and counted. */
  lemma NothingStuck(n: nat, es: seq<Event>)
    requires n > 0 && forall e :: Enabled(Run(n, es), e) ==> e.Unpack?
    ensures var s := Run(n, es); |s.handed| == |s.bodies| == s.dx.last && s.dx.list == [] && s.dx.queued == 0
  {
    hide Run, Inv;
    RunInv(n, es);
    AllDone(Run(n, es));
  }

  lemma AllDone(s: Ds)
    requires Inv(s) && |s.pcs| > 0 && forall e :: Enabled(s, e) ==> e.Unpack?
    ensures |s.handed| == |s.bodies| == s.dx.last && s.dx.list == [] && s.dx.queued == 0
  {
    AllIdle(s);
    assert forall m :: m !in s.posted by {
      assert forall m :: m in s.posted ==> Pending(s, m) && Enabled(s, Pick(0, m));
    }
    assert !s.dx.Ready();
    FirstListed(s);
  }

  lemma OwnerMoves(s: Ds)
    requires Inv(s) && s.owner >= 0
    ensures Enabled(s, Decide(s.owner)) || Enabled(s, Return(s.owner))
  {
    hide Placed, InOrder, Watched;
  }

  lemma AllIdle(s: Ds)
    requires Inv(s) && |s.pcs| > 0 && forall e :: Enabled(s, e) ==> e.Unpack?
    ensures forall t :: 0 <= t < |s.pcs| ==> s.pcs[t].Idle?
    ensures s.deferred == {} && s.ended == {}
  {
    hide InOrder, Watched;
    if s.owner >= 0 {
      OwnerMoves(s);
    }
    assert forall m :: m in s.deferred ==> Enabled(s, Finish(m));
    forall t | 0 <= t < |s.pcs|
      ensures s.pcs[t].Idle?
    {
      assert !Enabled(s, Lock(t));
    }
    assert forall m :: m in s.ended ==> Enabled(s, PickEnd(0, m));
  }

  // a message not handed out yet would be the first in the list
  lemma FirstListed(s: Ds)
    requires Inv(s) && !s.dx.Ready() && s.posted == {} && s.dx.last == |s.handed|
    requires forall t :: 0 <= t < |s.pcs| ==> s.pcs[t].Idle?
    ensures |s.handed| == |s.bodies| && s.dx.list == []
  {
    hide InFlight, Watched;
    LeastFirst(s.dx.list, |s.handed| + 1);
  }

  lemma LeastFirst(list: seq<Entry<Body>>, k: nat)
    requires Increasing(list) && forall i :: 0 <= i < |list| ==> k <= list[i].num
    ensures Has(list, k) <==> |list| > 0 && list[0].num == k
  {
    if Has(list, k) {
      var i :| 0 <= i < |list| && list[i].num == k;
      assert list[0].num <= list[i].num;
    }
  }

  // ----- the end of an asynchronous message

  /** ProcessAsyncMessageEnd is the step of an Ending thread that gets the lock. */
  method EndStep(side: DispatchSide, ghost s: Ds, ghost t: nat)
    requires side.Valid() && side.Value() == s.dx && Enabled(s, Lock(t)) && s.pcs[t].Ending?
    modifies side
    ensures side.Valid() && side.Value() == Step(s, Lock(t)).dx
  {
    side.ProcessAsyncMessageEnd();
  }

  /** Whenever it is done, the message it counts is the one in flight, and none is left in flight. So the
    * successor, held up until then, may go: the thread that reported the end will look, and what it finds
    * ready is exactly the successor. */
  lemma EndReleases(n: nat, es: seq<Event>, t: nat)
    requires Enabled(Run(n, es), Lock(t)) && Run(n, es).pcs[t].Ending?
    ensures var s, s' := Run(n, es), Step(Run(n, es), Lock(t));
      && s.pcs[t].num == |s.handed| == s.dx.last + 1 && !s.dx.Ready()
      && s'.dx.last == |s'.handed| && s'.handed == s.handed && s'.deferred == {} && s'.ended == {}
      && s'.pcs[t].Looks() && (forall u :: 0 <= u < |s'.pcs| ==> !s'.pcs[u].Bears())
      && (s'.dx.Ready() <==> Has(s.dx.list, |s.handed| + 1))
  {
    hide Run, InOrder, Watched, Covered;
    RunInv(n, es);
    var s := Run(n, es);
    LeastFirst(s.dx.list, |s.handed| + 1);
  }

  // ----- dispatch comes to an end

  function Weight(pc: Pc): nat {
    match pc
    case Idle => 0
    case Arriving(_) => 2
    case Deciding => 1
    case Handling(_, async) => if async then 1 else 7
    case Released => 2
    case Ending(_) => 3
    case Calling => 2
  }

  function Weights(pcs: seq<Pc>): seq<nat> {
    seq(|pcs|, i requires 0 <= i < |pcs| => Weight(pcs[i]))
  }

  /** An upper bound for the number of steps that are left, if nothing more is unpacked. */
  function Remaining(s: Ds): int {
    7 * (|s.bodies| - |s.handed|) + 3 * |s.posted| + 5 * |s.deferred| + 4 * |s.ended| + Sum(Weights(s.pcs))
  }

  lemma PcCounts(pcs: seq<Pc>, t: nat, pc: Pc)
    requires t < |pcs|
    ensures Sum(Weights(pcs[t := pc])) == Sum(Weights(pcs)) - Weight(pcs[t]) + Weight(pc)
  {
    assert Weights(pcs[t := pc]) == Weights(pcs)[t := Weight(pc)];
    SumChange(Weights(pcs), t, Weight(pc));
  }

  /** Every step but the arrival of another message uses up some of it, whichever thread takes it and however its
    * handler behaves: no schedule keeps the workers busy for ever. */
  lemma EveryStepCounts(s: Ds, e: Event)
    requires Inv(s) && Enabled(s, e) && !e.Unpack?
    ensures 0 <= Remaining(Step(s, e)) < Remaining(s)
  {
    hide Inv, InOrder, Enabled, Effect, Remaining;
    InOrderKept(s, e);
    RemainsSome(Step(s, e));
    if e.Finish? {
      FinishCounts(s, e.num);
    } else if e.Pick? || e.PickEnd? || e.Defer? {
      PickCounts(s, e);
    } else {
      TurnCounts(s, e);
    }
  }

  lemma FinishCounts(s: Ds, num: nat)
    requires Enabled(s, Finish(num))
    ensures Remaining(Effect(s, Finish(num))) < Remaining(s)
  {
    hide Sum, Weights;
    assert |s.ended + {num}| <= |s.ended| + 1;
  }

  lemma PickCounts(s: Ds, e: Event)
    requires Enabled(s, e) && (e.Pick? || e.PickEnd? || e.Defer?)
    ensures Remaining(Effect(s, e)) < Remaining(s)
  {
    hide Sum;
    PcCounts(s.pcs, e.t, Effect(s, e).pcs[e.t]);
    if e.Defer? {
      assert |s.deferred + {s.pcs[e.t].num}| <= |s.deferred| + 1;
    }
  }

  lemma TurnCounts(s: Ds, e: Event)
    requires Enabled(s, e) && (e.Lock? || e.Decide? || e.Return?)
    ensures Remaining(Effect(s, e)) < Remaining(s)
  {
    hide Sum, Insert;
    PcCounts(s.pcs, e.t, Effect(s, e).pcs[e.t]);
  }

  lemma RemainsSome(s: Ds)
    requires InOrder(s)
    ensures Remaining(s) >= 0
  {}

  function After(s: Ds, es: seq<Event>): Ds
    decreases |es|
  {
    if |es| == 0 then s else After(Step(s, es[0]), es[1..])
  }

  /** So whatever has been unpacked is handled, within that many steps. */
  lemma {:induction false} ComesToRest(s: Ds) returns (more: seq<Event>)
    requires Inv(s) && |s.pcs| > 0
    ensures |more| <= Remaining(s) && forall i :: 0 <= i < |more| ==> !more[i].Unpack?
    ensures var s' := After(s, more);
      s'.bodies == s.bodies && |s'.handed| == |s.bodies| == s'.dx.last && s'.dx.list == []
    ensures forall e :: Enabled(After(s, more), e) ==> e.Unpack?
    decreases Remaining(s)
  {
    hide Inv, Enabled, Step, Remaining;
    if e :| Enabled(s, e) && !e.Unpack? {
      EveryStepCounts(s, e);
      StepInv(s, e);
      BodiesStay(s, e);
      var rest := ComesToRest(Step(s, e));
      more := [e] + rest;
      assert more[1..] == rest;
    } else {
      more := [];
      AllDone(s);
      SomeLeft(s);
    }
  }

  lemma SomeLeft(s: Ds)
    requires Inv(s)
    ensures Remaining(s) >= 0
  {
    hide Remaining;
    RemainsSome(s);
  }

  lemma BodiesStay(s: Ds, e: Event)
    requires !e.Unpack?
    ensures Step(s, e).bodies == s.bodies && |Step(s, e).pcs| == |s.pcs|
  {}

  // ----- a thread alone

  /** Thread t goes on by itself, with the handler outcomes of asyncs. */
  function Alone(s: Ds, t: nat, asyncs: seq<bool>): Ds
    decreases |s.dx.list|
  {
    var s1 := Step(s, Decide(t));
    if t >= |s.pcs| || !s.pcs[t].Deciding? || !s.dx.Ready() then s1
    else if First(asyncs) then Step(Step(s1, Defer(t)), Return(t))
    else Alone(Step(Step(s1, Return(t)), Lock(t)), t, Rest(asyncs))
  }

  /** Left alone, a thread does in its steps exactly what the method does in one go. */
  lemma {:induction false} AloneIsDrain(s: Ds, t: nat, asyncs: seq<bool>)
    requires t < |s.pcs| && s.pcs[t].Deciding? && s.owner == t
    ensures var s', r := Alone(s, t, asyncs), Drain(s.dx, asyncs, s.handed);
      (s'.dx, s'.handed) == r && s'.Free() && s'.pcs == s.pcs[t := Idle]
    decreases |s.dx.list|
  {
    if s.dx.Ready() {
      var s1 := Step(s, Decide(t));
      if !First(asyncs) {
        var s3 := Step(Step(s1, Return(t)), Lock(t));
        AloneIsDrain(s3, t, Rest(asyncs));
        assert s3.pcs[t := Idle] == s.pcs[t := Idle];
      }
    }
  }

  /** So it hands out messages as the method does: up to the first that goes asynchronous, or to a gap. */
  lemma AloneDrains(s: Ds, t: nat, asyncs: seq<bool>)
    requires t < |s.pcs| && s.pcs[t].Deciding? && s.owner == t
    ensures var s' := Alone(s, t, asyncs);
      s.handed <= s'.handed && Drained(s.dx, asyncs, s'.dx, s'.handed[|s.handed|..])
  {
    hide Alone, Drained;
    AloneIsDrain(s, t, asyncs);
    DrainMore(s.dx, asyncs, s.handed);
    DrainIs(s.dx, asyncs);
  }
}
