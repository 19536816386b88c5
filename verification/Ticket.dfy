/** The ticket lock, with its two 16-bit counters packed into one word. Every load, store and
  * read-modify-write is one step; the counters wrap around. */
module Ticket {
  import opened Waiters

  const WRAP: nat := 0x1_0000

  /** An unsigned short. */
  function Short(n: nat): (w: nat)
    ensures w < WRAP
  {
    n % WRAP
  }

  lemma ShortNext(n: nat)
    ensures Short(Short(n) + 1) == Short(n + 1)
  {}

  /** Spin reads t->s.ticket in the loop of ticket_lock. Held is the critical section, up to the load of
    * ticket++ in ticket_unlock; Writing does its store. Trying is ticket_trylock between its load of the users
    * counter and its compare-exchange on the whole word. */
  datatype Pc = Out | Spin | Held | Writing | Trying
  {
    predicate Holds() { Held? || Writing? }

    predicate Queued() { Spin? || Holds() }
  }

  /** me and copy are unsigned short variables: the ticket drawn or expected, and ticket++'s loaded value. */
  datatype Thread = Thread(pc: Pc, me: nat, copy: nat)

  /** ticket and users are the halves of the word. History variables: arrivals logs the threads in the order
    * in which they drew a ticket, entered in the order in which they got the lock; q are those between drawing
    * a ticket and handing over, and done those that have handed over. */
  datatype State = State(ticket: nat, users: nat, threads: seq<Thread>,
                         arrivals: seq<nat>, entered: seq<nat>, q: seq<nat>, done: seq<nat>)
  {
    function At(t: nat, th: Thread): State
      requires t < |threads|
    {
      this.(threads := threads[t := th])
    }

    function Arrive(t: nat): State {
      this.(users := Short(users + 1), arrivals := arrivals + [t], q := q + [t])
    }

    function Enter(t: nat): State { this.(entered := entered + [t]) }

    function Leave(t: nat): State { this.(done := done + [t], q := if |q| > 0 then q[1..] else q) }

    /** The unsigned u that overlays the two counters. */
    function Word(): nat { users * WRAP + ticket }
  }

  function Init(n: nat): State {
    State(0, 0, seq(n, i => Thread(Out, 0, 0)), [], [], [], [])
  }

  /** What a thread outside does. */
  datatype Choice = Call | Try

  function Step(s: State, t: nat, c: Choice): (r: State)
    ensures |r.threads| == |s.threads|
  {
    if t >= |s.threads| then s
    else
      var th := s.threads[t];
      match th.pc
      case Out =>
        (match c
         case Call => s.Arrive(t).At(t, th.(pc := Spin, me := s.users))
         case Try => s.At(t, th.(pc := Trying, me := s.users)))
      case Spin => if s.ticket == th.me then s.Enter(t).At(t, th.(pc := Held)) else s
      case Held => s.At(t, th.(pc := Writing, copy := s.ticket))
      case Writing => s.(ticket := Short(th.copy + 1)).Leave(t).At(t, th.(pc := Out))
      case Trying =>
        // cmp and cmpnew have the expected users counter in the high half and equal low halves
        if s.Word() == th.me * WRAP + th.me then s.Arrive(t).Enter(t).At(t, th.(pc := Held))
        else s.At(t, th.(pc := Out))
  }

  function Run(n: nat, es: seq<(nat, Choice)>): State {
    if |es| == 0 then Init(n) else Step(Run(n, es[..|es| - 1]), es[|es| - 1].0, es[|es| - 1].1)
  }

  // ----- the invariant, as long as no more tickets are out than the counter can tell apart

  ghost predicate Queue(s: State) {
    && (forall i :: 0 <= i < |s.q| ==> s.q[i] < |s.threads| && s.threads[s.q[i]].pc.Queued())
    && (forall i, j :: 0 <= i < j < |s.q| ==> s.q[i] != s.q[j])
    && (forall t :: 0 <= t < |s.threads| && s.threads[t].pc.Queued() ==> t in s.q)
  }

  ghost predicate Counters(s: State)
    requires Queue(s)
  {
    && s.arrivals == s.done + s.q
    && s.ticket == Short(|s.done|)
    && s.users == Short(|s.arrivals|)
    && (forall i :: 0 <= i < |s.q| ==> s.threads[s.q[i]].me == Short(|s.done| + i))
    && (forall t :: 0 <= t < |s.threads| ==> s.threads[t].me < WRAP)
  }

  ghost predicate Turns(s: State)
    requires Queue(s)
  {
    && (forall i :: 0 < i < |s.q| ==> s.threads[s.q[i]].pc.Spin?)
    && (|s.q| > 0 && s.threads[s.q[0]].pc.Writing? ==> s.threads[s.q[0]].copy == s.ticket)
    && s.entered == s.done + if |s.q| > 0 && s.threads[s.q[0]].pc.Holds() then [s.q[0]] else []
  }

  ghost predicate Inv(s: State) { Queue(s) && Counters(s) && Turns(s) }

  lemma WordHalves(s: State, me: nat)
    requires s.ticket < WRAP && me < WRAP
    ensures s.Word() == me * WRAP + me <==> s.users == me && s.ticket == me
  {}

  /** Numbers less than a wrap apart are told apart by their low halves. */
  lemma SameShort(a: nat, i: nat)
    requires i < WRAP
    ensures Short(a) == Short(a + i) <==> i == 0
  {}

  lemma ArriveQueue(s: State, t: nat, th: Thread)
    requires Inv(s) && t < |s.threads| && !s.threads[t].pc.Queued() && th.pc.Queued()
    ensures Queue(s.Arrive(t).At(t, th))
  {
    hide Counters, Turns;
    var s' := s.Arrive(t).At(t, th);
    forall u: nat | u < |s'.threads| && s'.threads[u].pc.Queued()
      ensures u in s'.q
    {
      assert u == t || u in s.q;
    }
  }

  lemma ArriveCounters(s: State, t: nat, th: Thread)
    requires Inv(s) && t < |s.threads| && !s.threads[t].pc.Queued() && th.me == s.users && Queue(s.Arrive(t).At(t, th))
    ensures Counters(s.Arrive(t).At(t, th))
  {
    hide Turns, Short;
    assert s.done + s.q + [t] == s.done + (s.q + [t]);
    ShortNext(|s.arrivals|);
  }

  lemma CallInv(s: State, t: nat, th: Thread)
    requires Inv(s) && t < |s.threads| && !s.threads[t].pc.Queued()
    requires th.pc.Spin? && th.me == s.users
    ensures Inv(s.Arrive(t).At(t, th))
  {
    hide Short, Counters;
    ArriveQueue(s, t, th);
    ArriveCounters(s, t, th);
  }

  lemma GrabInv(s: State, t: nat, th: Thread)
    requires Inv(s) && t < |s.threads| && !s.threads[t].pc.Queued() && |s.q| == 0
    requires th.pc.Held? && th.me == s.users
    ensures Inv(s.Arrive(t).Enter(t).At(t, th))
  {
    hide Short;
    ArriveQueue(s, t, th);
    ArriveCounters(s, t, th);
    assert s.Arrive(t).At(t, th).(entered := s.entered + [t]) == s.Arrive(t).Enter(t).At(t, th);
    assert s.done + [] + [t] == s.done + [t];
  }

  lemma OutsideInv(s: State, t: nat, th: Thread)
    requires Inv(s) && t < |s.threads| && !s.threads[t].pc.Queued() && !th.pc.Queued() && th.me < WRAP
    ensures Inv(s.At(t, th))
  {
    hide Short;
    assert Queue(s.At(t, th));
  }

  lemma SpinInv(s: State, t: nat, c: Choice)
    requires Inv(s) && t < |s.threads| && s.threads[t].pc.Spin? && |s.q| <= WRAP
    ensures Inv(Step(s, t, c))
  {
    hide Short;
    var k := IndexOf(s.q, t);
    SameShort(|s.done|, k);
    assert s.done + [] + [t] == s.done + [t];
    assert Queue(Step(s, t, c));
  }

  lemma HeldInv(s: State, t: nat, c: Choice)
    requires Inv(s) && t < |s.threads| && s.threads[t].pc.Held?
    ensures Inv(Step(s, t, c))
  {
    hide Short;
    var k := IndexOf(s.q, t);
    assert Queue(Step(s, t, c));
  }

  lemma WritingQueue(s: State, t: nat, c: Choice)
    requires Inv(s) && t < |s.threads| && s.threads[t].pc.Writing?
    ensures Queue(Step(s, t, c)) && |s.q| > 0 && s.q[0] == t
  {
    hide Short, Counters;
    var k := IndexOf(s.q, t);
    var s' := Step(s, t, c);
    forall u: nat | u < |s'.threads| && s'.threads[u].pc.Queued()
      ensures u in s'.q
    {
      var j := IndexOf(s.q, u);
      assert s'.q[j - 1] == u;
    }
  }

  lemma WritingInv(s: State, t: nat, c: Choice)
    requires Inv(s) && t < |s.threads| && s.threads[t].pc.Writing?
    ensures Inv(Step(s, t, c))
  {
    hide Short;
    WritingQueue(s, t, c);
    ShortNext(|s.done|);
    Shift(s.done, s.q);
    assert s.done + [t] + [] == s.done + [t];
  }

  lemma TryingInv(s: State, t: nat, c: Choice)
    requires Inv(s) && t < |s.threads| && s.threads[t].pc.Trying? && |Step(s, t, c).q| <= WRAP
    ensures Inv(Step(s, t, c))
  {
    hide Short, Turns, State.Word, Queue;
    WordHalves(s, s.threads[t].me);
    if |s.q| < WRAP {
      SameShort(|s.done|, |s.q|);
    }
    if Step(s, t, c).threads[t].pc.Held? {
      GrabInv(s, t, s.threads[t].(pc := Held));
    } else {
      OutsideInv(s, t, s.threads[t].(pc := Out));
    }
  }

  lemma StepInv(s: State, t: nat, c: Choice)
    requires Inv(s) && |s.q| <= WRAP && |Step(s, t, c).q| <= WRAP
    ensures Inv(Step(s, t, c))
  {
    hide Queue, Turns, Short;
    if t < |s.threads| {
      match s.threads[t].pc {
        case Out =>
          match c {
            case Call => CallInv(s, t, s.threads[t].(pc := Spin, me := s.users));
            case Try => OutsideInv(s, t, s.threads[t].(pc := Trying, me := s.users));
          }
        case Spin => SpinInv(s, t, c);
        case Held => HeldInv(s, t, c);
        case Writing => WritingInv(s, t, c);
        case Trying => TryingInv(s, t, c);
      }
    }
  }

  lemma InitInv(n: nat)
    ensures Inv(Init(n))
  {}

  /** At no point of the run are more than 2^16 tickets out. */
  ghost predicate Bounded(n: nat, es: seq<(nat, Choice)>) {
    forall k :: 0 <= k <= |es| ==> |Run(n, es[..k]).q| <= WRAP
  }

  lemma {:induction false} RunInv(n: nat, es: seq<(nat, Choice)>)
    requires Bounded(n, es)
    ensures Inv(Run(n, es)) && |Run(n, es).threads| == n && |Run(n, es).q| <= WRAP
  {
    hide Inv, Step;
    assert es[..|es|] == es;
    if |es| == 0 {
      InitInv(n);
    } else {
      var front := es[..|es| - 1];
      forall k | 0 <= k <= |front|
        ensures |Run(n, front[..k]).q| <= WRAP
      {
        assert front[..k] == es[..k];
      }
      RunInv(n, front);
      StepInv(Run(n, front), es[|es| - 1].0, es[|es| - 1].1);
    }
  }

  // ----- how many threads it is good for

  lemma {:induction false} Pigeons(q: seq<nat>, n: nat)
    requires forall i :: 0 <= i < |q| ==> q[i] < n
    requires forall i, j :: 0 <= i < j < |q| ==> q[i] != q[j]
    ensures |q| <= n
  {
    if |q| > 0 {
      assert q[0] < n;
      if k: nat :| k < |q| && q[k] == n - 1 {
        Pigeons(q[..k] + q[k + 1..], n - 1);
      } else {
        Pigeons(q, n - 1);
      }
    }
  }

  lemma StepBound(s: State, t: nat, c: Choice)
    requires Inv(s)
    ensures |Step(s, t, c).q| <= |s.threads|
  {
    hide Counters, Turns;
    Pigeons(s.q, |s.threads|);
    if t < |s.threads| && !s.threads[t].pc.Queued() {
      Pigeons(s.q + [t], |s.threads|);
    }
  }

  lemma {:induction false} FewThreads(n: nat, es: seq<(nat, Choice)>)
    requires n <= WRAP
    ensures Inv(Run(n, es)) && |Run(n, es).threads| == n && |Run(n, es).q| <= n
  {
    hide Inv, Step;
    if |es| == 0 {
      InitInv(n);
    } else {
      var s, e := Run(n, es[..|es| - 1]), es[|es| - 1];
      FewThreads(n, es[..|es| - 1]);
      StepBound(s, e.0, e.1);
      StepInv(s, e.0, e.1);
    }
  }

  lemma FewThreadsBounded(n: nat, es: seq<(nat, Choice)>)
    requires n <= WRAP
    ensures Bounded(n, es)
  {
    hide Inv, Run;
    forall k | 0 <= k <= |es|
      ensures |Run(n, es[..k]).q| <= WRAP
    {
      FewThreads(n, es[..k]);
    }
  }

  ghost predicate Exclusive(s: State) {
    forall t, u :: 0 <= t < u < |s.threads| && s.threads[t].pc.Holds() ==> !s.threads[u].pc.Holds()
  }

  /** At most one holder, as long as no more than 2^16 tickets are out at a time. */
  lemma {:induction false} MutualExclusion(n: nat, es: seq<(nat, Choice)>)
    requires Bounded(n, es)
    ensures Exclusive(Run(n, es))
  {
    hide Run, Counters, Bounded;
    RunInv(n, es);
  }

  /** The bound is exact: the lock is safe in every run if and only if there are at most 2^16 threads. */
  lemma ExclusiveIff(n: nat)
    ensures (forall es :: Exclusive(Run(n, es))) <==> n <= WRAP
  {
    hide Run, Exclusive, Bounded;
    if n <= WRAP {
      forall es
        ensures Exclusive(Run(n, es))
      {
        FewThreadsBounded(n, es);
        MutualExclusion(n, es);
      }
    } else {
      var es := TooMany(n);
    }
  }

  // threads 0 to k - 1 each draw a ticket
  function Draws(k: nat): (es: seq<(nat, Choice)>)
    ensures |es| == k
  {
    if k == 0 then [] else Draws(k - 1) + [(k - 1, Call)]
  }

  lemma RunMore(n: nat, es: seq<(nat, Choice)>, e: (nat, Choice))
    ensures Run(n, es + [e]) == Step(Run(n, es), e.0, e.1)
  {
    assert (es + [e])[..|es|] == es;
  }

  lemma {:induction false} AfterDraws(n: nat, k: nat)
    requires k <= n
    ensures var s := Run(n, Draws(k));
      && |s.threads| == n && s.ticket == 0 && s.users == Short(k)
      && (forall i :: 0 <= i < k ==> s.threads[i] == Thread(Spin, Short(i), 0))
      && (forall i :: k <= i < n ==> s.threads[i] == Thread(Out, 0, 0))
  {
    hide Run, Short;
    if k == 0 {
      RunNone(n);
    } else {
      AfterDraws(n, k - 1);
      RunMore(n, Draws(k - 1), (k - 1, Call));
      ShortNext(k - 1);
    }
  }

  lemma RunNone(n: nat)
    ensures Run(n, []) == Init(n) && Short(0) == 0
  {}

  /** With one thread more, the first ticket is drawn a second time while it is still out. */
  lemma TooMany(n: nat) returns (es: seq<(nat, Choice)>)
    requires n > WRAP
    ensures !Exclusive(Run(n, es))
  {
    hide Run, Draws;
    var draws := Draws(WRAP + 1);
    AfterDraws(n, WRAP + 1);
    RunMore(n, draws, (0, Call));
    RunMore(n, draws + [(0, Call)], (WRAP, Call));
    es := draws + [(0, Call)] + [(WRAP, Call)];
    var s := Run(n, es);
    assert s.threads[0].pc.Held? && s.threads[WRAP].pc.Held?;
  }

  // ----- what else holds within the bound

  // whose step it was that drew a ticket, or took the thread to the return of the call
  function Arrival(s: State, s': State, t: nat): seq<nat> {
    if t < |s.threads| == |s'.threads| && !s.threads[t].pc.Queued() && s'.threads[t].pc.Queued() then [t] else []
  }

  function Entry(s: State, s': State, t: nat): seq<nat> {
    if t < |s.threads| == |s'.threads| && !s.threads[t].pc.Holds() && s'.threads[t].pc.Holds() then [t] else []
  }

  /** The threads in the order in which they drew a ticket, and in which they got the lock, as their program counters
    * tell. */
  function Arrivals(n: nat, es: seq<(nat, Choice)>): seq<nat> {
    if |es| == 0 then []
    else Arrivals(n, es[..|es| - 1]) + Arrival(Run(n, es[..|es| - 1]), Run(n, es), es[|es| - 1].0)
  }

  function Entries(n: nat, es: seq<(nat, Choice)>): seq<nat> {
    if |es| == 0 then []
    else Entries(n, es[..|es| - 1]) + Entry(Run(n, es[..|es| - 1]), Run(n, es), es[|es| - 1].0)
  }

  lemma StepLogs(s: State, t: nat, c: Choice)
    ensures Step(s, t, c).arrivals == s.arrivals + Arrival(s, Step(s, t, c), t)
    ensures Step(s, t, c).entered == s.entered + Entry(s, Step(s, t, c), t)
  {
    hide Short, State.Word;
  }

  /** The history variables log just that. */
  lemma {:induction false} LogsAreTrue(n: nat, es: seq<(nat, Choice)>)
    ensures Run(n, es).arrivals == Arrivals(n, es) && Run(n, es).entered == Entries(n, es)
  {
    hide Step, Arrival, Entry;
    if |es| > 0 {
      LogsAreTrue(n, es[..|es| - 1]);
      StepLogs(Run(n, es[..|es| - 1]), es[|es| - 1].0, es[|es| - 1].1);
    }
  }

  /** Service follows the order in which the tickets are drawn. */
  lemma FirstComeFirstServed(n: nat, es: seq<(nat, Choice)>)
    requires Bounded(n, es)
    ensures Entries(n, es) <= Arrivals(n, es)
  {
    hide Run, Bounded, Short, Entries, Arrivals;
    RunInv(n, es);
    LogsAreTrue(n, es);
  }

  /** The tickets out are pairwise different. */
  lemma TicketsDiffer(n: nat, es: seq<(nat, Choice)>)
    requires Bounded(n, es)
    ensures var s := Run(n, es);
      forall t, u :: 0 <= t < u < |s.threads| && s.threads[t].pc.Queued() && s.threads[u].pc.Queued() ==>
        s.threads[t].me != s.threads[u].me
  {
    hide Run, Bounded, Short;
    RunInv(n, es);
    var s := Run(n, es);
    forall t: nat, u: nat | t < u < |s.threads| && s.threads[t].pc.Queued() && s.threads[u].pc.Queued()
      ensures s.threads[t].me != s.threads[u].me
    {
      var i := IndexOf(s.q, t);
      var j := IndexOf(s.q, u);
      if i < j {
        SameShort(|s.done| + i, j - i);
      } else {
        SameShort(|s.done| + j, i - j);
      }
    }
  }

  /** Between the load and the store of ticket++ nobody else writes the counter. */
  lemma {:induction false} IncrementUnraced(n: nat, es: seq<(nat, Choice)>, t: nat)
    requires Bounded(n, es) && t < |Run(n, es).threads| && Run(n, es).threads[t].pc.Writing?
    ensures Run(n, es).threads[t].copy == Run(n, es).ticket
  {
    hide Run, Bounded, Counters;
    RunInv(n, es);
    var k := IndexOf(Run(n, es).q, t);
  }

  // ----- everybody who has drawn a ticket gets the lock

  /** The thread's next access would find it still has to wait. */
  predicate Spinning(s: State, t: nat)
    requires t < |s.threads|
  {
    s.threads[t].pc.Spin? && s.ticket != s.threads[t].me
  }

  /** No lost hand-over: the first in the queue can always go on. */
  lemma FirstMoves(n: nat, es: seq<(nat, Choice)>)
    requires Bounded(n, es) && |Run(n, es).q| > 0
    ensures var s := Run(n, es);
      s.q[0] < |s.threads| && s.threads[s.q[0]].pc.Queued() && !Spinning(s, s.q[0])
  {
    hide Run, Bounded, Short;
    RunInv(n, es);
  }

  // how many accesses a thread has before it, if its loop ends at once
  function Weight(pc: Pc): nat {
    match pc
    case Trying => 4 case Spin => 3 case Held => 2 case Writing => 1 case Out => 0
  }

  function Weights(s: State): seq<nat> {
    seq(|s.threads|, i requires 0 <= i < |s.threads| => Weight(s.threads[i].pc))
  }

  /** An upper bound for the number of accesses that are left, apart from those that find they have to wait, if
    * nobody calls any more. */
  function Remaining(s: State): nat { Sum(Weights(s)) }

  /** Whoever takes the next step, unless it waits or calls, uses up some of it. */
  lemma EveryStepCounts(s: State, t: nat, c: Choice)
    requires t < |s.threads| && !s.threads[t].pc.Out? && !Spinning(s, t)
    ensures Remaining(Step(s, t, c)) < Remaining(s)
  {
    hide Sum, Short;
    var s' := Step(s, t, c);
    assert Weights(s') == Weights(s)[t := Weight(s'.threads[t].pc)];
    SumChange(Weights(s), t, Weight(s'.threads[t].pc));
  }

  lemma StillBounded(n: nat, es: seq<(nat, Choice)>, e: (nat, Choice))
    requires Bounded(n, es) && |Step(Run(n, es), e.0, e.1).q| <= WRAP
    ensures Bounded(n, es + [e])
  {
    hide Run, Step;
    RunMore(n, es, e);
    forall k | 0 <= k <= |es + [e]|
      ensures |Run(n, (es + [e])[..k]).q| <= WRAP
    {
      if k <= |es| {
        assert (es + [e])[..k] == es[..k];
      } else {
        assert (es + [e])[..k] == es + [e];
      }
    }
  }

  // the first in the queue draws no ticket, and whoever waits goes on waiting or gets the lock
  lemma FirstStep(n: nat, es: seq<(nat, Choice)>, t: nat, c: Choice)
    requires Bounded(n, es) && t < |Run(n, es).threads| && Run(n, es).threads[t].pc.Spin?
    ensures var s := Run(n, es);
      && |s.q| > 0 && |Step(s, s.q[0], c).q| <= |s.q| <= WRAP
      && (Step(s, s.q[0], c).threads[t].pc.Spin? || Step(s, s.q[0], c).threads[t].pc.Held?)
  {
    hide Run, Bounded, Short, Counters, Turns;
    RunInv(n, es);
  }

  /** From every state that is reached with at most 2^16 tickets out, everybody who waits can be brought to the
    * return of ticket_lock, within the bound, and it takes but steps of whoever is first in the queue. */
  lemma {:induction false} CanEnter(n: nat, es: seq<(nat, Choice)>, t: nat) returns (more: seq<(nat, Choice)>)
    requires Bounded(n, es) && t < |Run(n, es).threads| && Run(n, es).threads[t].pc.Spin?
    ensures Bounded(n, es + more)
    ensures var s := Run(n, es + more); t < |s.threads| && s.threads[t].pc.Held?
    ensures |more| <= Remaining(Run(n, es))
    ensures forall i :: 0 <= i < |more| ==> var q := Run(n, es + more[..i]).q; |q| > 0 && more[i].0 == q[0]
    decreases Remaining(Run(n, es))
  {
    hide Run, Step, Remaining, Bounded, Spinning;
    var s := Run(n, es);
    FirstStep(n, es, t, Try);
    FirstMoves(n, es);
    var e := (s.q[0], Try);
    RunMore(n, es, e);
    StillBounded(n, es, e);
    EveryStepCounts(s, s.q[0], Try);
    var rest := [];
    if Run(n, es + [e]).threads[t].pc.Spin? {
      rest := CanEnter(n, es + [e], t);
    } else {
      assert es + [e] + rest == es + [e];
    }
    more := [e] + rest;
    assert es + more == es + [e] + rest;
    forall i | 0 <= i < |more|
      ensures var q := Run(n, es + more[..i]).q; |q| > 0 && more[i].0 == q[0]
    {
      if i == 0 {
        assert es + more[..0] == es;
      } else {
        assert es + more[..i] == es + [e] + rest[..i - 1] && more[i] == rest[i - 1];
      }
    }
  }

  /** So every thread outside can call ticket_lock, and get the lock, as long as the bound leaves room for it. */
  lemma CanLock(n: nat, es: seq<(nat, Choice)>, t: nat) returns (more: seq<(nat, Choice)>)
    requires Bounded(n, es) && |Run(n, es).q| < WRAP
    requires t < |Run(n, es).threads| && Run(n, es).threads[t].pc.Out?
    ensures var called := es + [(t, Call)]; var s := Run(n, called + more);
      && t < |s.threads| && s.threads[t].pc.Held?
      && forall i :: 0 <= i < |more| ==> var q := Run(n, called + more[..i]).q; |q| > 0 && more[i].0 == q[0]
  {
    hide Run, Bounded, Short;
    RunMore(n, es, (t, Call));
    StillBounded(n, es, (t, Call));
    more := CanEnter(n, es + [(t, Call)], t);
  }

  /** And whatever the schedule: when nobody inside can do anything but wait, nobody is inside. */
  lemma NothingStuck(n: nat, es: seq<(nat, Choice)>)
    requires Bounded(n, es)
    requires var s := Run(n, es); forall u :: 0 <= u < |s.threads| && !s.threads[u].pc.Out? ==> Spinning(s, u)
    ensures var s := Run(n, es); forall u :: 0 <= u < |s.threads| ==> s.threads[u].pc.Out?
  {
    hide Run, Bounded, Counters, Turns;
    RunInv(n, es);
    if |Run(n, es).q| > 0 {
      FirstMoves(n, es);
    }
  }

  // ----- trylock

  /** With less than 2^16 tickets out, the two counters are equal - ticket_lockable - exactly if nobody holds
    * the lock or waits. */
  lemma {:induction false} EqualIffIdle(n: nat, es: seq<(nat, Choice)>)
    requires Bounded(n, es) && |Run(n, es).q| < WRAP
    ensures var s := Run(n, es);
      s.ticket == s.users <==> forall t :: 0 <= t < |s.threads| ==> !s.threads[t].pc.Queued()
  {
    hide Run, Bounded, Short, Turns;
    RunInv(n, es);
    var s := Run(n, es);
    SameShort(|s.done|, |s.q|);
    assert |s.q| > 0 ==> s.threads[s.q[0]].pc.Queued();
  }

  /** ticket_trylock succeeds exactly if nobody holds the lock or waits at its compare-exchange and the users
    * counter still is what it read before. */
  lemma {:induction false} TrySucceedsIff(n: nat, es: seq<(nat, Choice)>, t: nat, c: Choice)
    requires Bounded(n, es) && |Run(n, es).q| < WRAP
    requires t < |Run(n, es).threads| && Run(n, es).threads[t].pc.Trying?
    ensures var s := Run(n, es);
      Step(s, t, c).threads[t].pc.Held? <==>
        s.users == s.threads[t].me && forall u :: 0 <= u < |s.threads| ==> !s.threads[u].pc.Queued()
  {
    hide Run, Bounded, Short, Turns, State.Word;
    var s := Run(n, es);
    RunInv(n, es);
    EqualIffIdle(n, es);
    WordHalves(s, s.threads[t].me);
  }

  /** Otherwise it fails, and nothing but its own program counter has changed: neither counter, nobody's place. */
  lemma TryRefused(n: nat, es: seq<(nat, Choice)>, t: nat, c: Choice)
    requires Bounded(n, es) && |Run(n, es).q| < WRAP
    requires t < |Run(n, es).threads| && Run(n, es).threads[t].pc.Trying?
    requires var s := Run(n, es);
      s.users != s.threads[t].me || exists u :: 0 <= u < |s.threads| && s.threads[u].pc.Queued()
    ensures var s, s' := Run(n, es), Run(n, es + [(t, c)]);
      && s'.threads == s.threads[t := s.threads[t].(pc := Out)]
      && s' == s.(threads := s'.threads)
  {
    hide Run, Bounded, Short, Queue, Counters, Turns, State.Word;
    TrySucceedsIff(n, es, t, c);
    RunMore(n, es, (t, c));
  }

  // ----- trylock from its load to its compare-exchange

  /** The load changes nothing either. */
  lemma TryReads(n: nat, es: seq<(nat, Choice)>, t: nat)
    requires t < |Run(n, es).threads| && Run(n, es).threads[t].pc.Out?
    ensures var s, s' := Run(n, es), Run(n, es + [(t, Try)]);
      && |s'.threads| == |s.threads| && s'.threads[t] == Thread(Trying, s.users, s.threads[t].copy)
      && s' == s.(threads := s.threads[t := s'.threads[t]])
  {
    hide Run;
    RunMore(n, es, (t, Try));
  }

  // the steps of the others leave a thread's variables alone, and arrivals only grow
  lemma {:induction false} OthersLeave(n: nat, es: seq<(nat, Choice)>, t: nat, between: seq<(nat, Choice)>)
    requires t < |Run(n, es).threads| && forall e :: e in between ==> e.0 != t
    ensures var s, s' := Run(n, es), Run(n, es + between);
      |s'.threads| == |s.threads| && s'.threads[t] == s.threads[t] && s.arrivals <= s'.arrivals
    decreases |between|
  {
    hide Run, Short, State.Word;
    if |between| == 0 {
      assert es + between == es;
    } else {
      var before, e := between[..|between| - 1], between[|between| - 1];
      OthersLeave(n, es, t, before);
      assert es + between == es + before + [e];
      RunMore(n, es + before, e);
    }
  }

  lemma ShortsEqual(a: nat, b: nat)
    requires a <= b
    ensures Short(a) == Short(b) <==> (b - a) % WRAP == 0
  {}

  /** So, over whatever the others do in between: trylock succeeds exactly if nobody holds the lock or waits at its
    * compare-exchange, and the number of tickets drawn since its load is a multiple of 2^16. */
  lemma TrySucceedsExactly(n: nat, es: seq<(nat, Choice)>, t: nat, between: seq<(nat, Choice)>, c: Choice)
    requires t < |Run(n, es).threads| && Run(n, es).threads[t].pc.Out?
    requires forall e :: e in between ==> e.0 != t
    requires Bounded(n, es) && Bounded(n, es + [(t, Try)] + between)
    requires |Run(n, es + [(t, Try)] + between).q| < WRAP
    ensures var s, now := Run(n, es), Run(n, es + [(t, Try)] + between);
      && |now.threads| == |s.threads| && |s.arrivals| <= |now.arrivals|
      && (Step(now, t, c).threads[t].pc.Held? <==>
            && (|now.arrivals| - |s.arrivals|) % WRAP == 0
            && forall u :: 0 <= u < |now.threads| ==> !now.threads[u].pc.Queued())
  {
    hide Run, Bounded, Short, Step, Turns;
    var s, now := Run(n, es), Run(n, es + [(t, Try)] + between);
    RunInv(n, es);
    TryReads(n, es, t);
    OthersLeave(n, es + [(t, Try)], t, between);
    RunInv(n, es + [(t, Try)] + between);
    TrySucceedsIff(n, es + [(t, Try)] + between, t, c);
    ShortsEqual(|s.arrivals|, |now.arrivals|);
  }

  /** The second condition matters: trylock can fail on a lock that nobody holds or waits for, if somebody came
    * and went since it read the users counter. */
  lemma TryCanFailWhenIdle() returns (es: seq<(nat, Choice)>)
    ensures var s := Run(2, es);
      && s.q == [] && |s.threads| == 2 && s.threads[1].pc.Trying? && !s.threads[0].pc.Queued()
      && Step(s, 1, Try).threads[1].pc.Out?
  {
    hide Run;
    RunNone(2);
    RunMore(2, [], (1, Try));
    RunMore(2, [(1, Try)], (0, Call));
    RunMore(2, [(1, Try)] + [(0, Call)], (0, Call));
    RunMore(2, [(1, Try)] + [(0, Call)] + [(0, Call)], (0, Call));
    RunMore(2, [(1, Try)] + [(0, Call)] + [(0, Call)] + [(0, Call)], (0, Call));
    es := [(1, Try)] + [(0, Call)] + [(0, Call)] + [(0, Call)] + [(0, Call)];
    assert [] + [(1, Try)] == [(1, Try)];
  }
}
