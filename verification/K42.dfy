/** The K42 queue lock. Waiters queue up on nodes in their own stack frames; when a thread gets the lock its
  * place in the queue is taken over by the lock word itself, so that the frame may go. Every load, store and
  * read-modify-write is one step, and steps of the threads interleave in any order. */
module K42 {
  import opened Waiters

  /** A k42lock pointer: Lock is &l->next, Node(t) the `me` in thread t's frame. */
  datatype Ptr = Null | Lock | Node(t: nat)

  /** The access a thread does next. In k42_lock: Swapping exchanges l->tail, SetSpin stores me.tail, Link
    * stores pred->next, Spin reads me.tail, ReadNext reads me.next, ClearNext clears l->next, SwapTail
    * compares and exchanges l->tail, WaitNext reads me.next in the loop, ReadAgain reads it for the copy,
    * SetNext stores l->next. Held is the critical section, up to the read of l->next in k42_unlock; then
    * SwapNull compares and exchanges l->tail, WaitSucc reads l->next in the loop, ReadSucc reads it again,
    * and Wake clears the successor's me.tail. */
  datatype Pc = Out | Swapping | SetSpin | Link | Spin | ReadNext | ClearNext | SwapTail | WaitNext | ReadAgain
    | SetNext | Held | SwapNull | WaitSucc | ReadSucc | Wake
  {
    // in the queue, but has not got the lock handed over
    predicate Waits() { SetSpin? || Link? || Spin? }

    // has the lock, but still has to move its place into the lock word
    predicate Acquires() { ReadNext? || ClearNext? || SwapTail? || WaitNext? || ReadAgain? || SetNext? }

    // between the return of k42_lock and the hand-over in k42_unlock
    predicate Holds() { Held? || SwapNull? || WaitSucc? || ReadSucc? || Wake? }

    predicate Queued() { !Out? && !Swapping? }
  }

  /** next and spin are the fields of the thread's node, pred and succ its local variables. */
  datatype Thread = Thread(pc: Pc, next: Ptr, spin: bool, pred: Ptr, succ: Ptr)

  /** History variables: arrivals logs the threads in the order of their exchange or successful trylock,
    * entered in the order in which they got the lock; q are those between arrival and hand-over, and done
    * those that have handed over. */
  datatype State = State(tail: Ptr, next: Ptr, threads: seq<Thread>,
                         arrivals: seq<nat>, entered: seq<nat>, q: seq<nat>, done: seq<nat>)
  {
    function At(t: nat, th: Thread): State
      requires t < |threads|
    {
      this.(threads := threads[t := th])
    }

    function To(t: nat, pc: Pc): State
      requires t < |threads|
    {
      At(t, threads[t].(pc := pc))
    }

    function Arrive(t: nat): State { this.(arrivals := arrivals + [t], q := q + [t]) }

    function Enter(t: nat): State { this.(entered := entered + [t]) }

    function Leave(t: nat): State { this.(done := done + [t], q := if |q| > 0 then q[1..] else q) }

    /** p->next := v. No thread ever stores through a null pointer, see NeverThroughNull. */
    function StoreNext(p: Ptr, v: Ptr): State {
      match p
      case Null => this
      case Lock => this.(next := v)
      case Node(t) => if t < |threads| then At(t, threads[t].(next := v)) else this
    }

    function ClearSpin(p: Ptr): State {
      match p
      case Node(t) => if t < |threads| then At(t, threads[t].(spin := false)) else this
      case _ => this
    }
  }

  function Init(n: nat): State {
    State(Null, Null, seq(n, i => Thread(Out, Null, false, Null, Null)), [], [], [], [])
  }

  /** What a thread outside does: call k42_lock, whose node comes with garbage in its tail field, or
    * k42_trylock. Inside, there is no choice. */
  datatype Choice = Call(junk: bool) | Try

  function Step(s: State, t: nat, c: Choice): (r: State)
    ensures |r.threads| == |s.threads|
  {
    if t >= |s.threads| then s
    else
      var th := s.threads[t];
      match th.pc
      case Out =>
        (match c
         case Call(junk) => s.At(t, Thread(Swapping, Null, junk, Null, Null))
         case Try => if s.tail == Null then s.(tail := Lock).Arrive(t).Enter(t).To(t, Held) else s)
      case Swapping =>
        s.(tail := Node(t)).Arrive(t).At(t, th.(pred := s.tail, pc := if s.tail != Null then SetSpin else ReadNext))
      case SetSpin => s.At(t, th.(spin := true, pc := Link))
      case Link => s.StoreNext(th.pred, Node(t)).To(t, Spin)
      case Spin => if th.spin then s else s.To(t, ReadNext)
      case ReadNext => s.At(t, th.(succ := th.next, pc := if th.next == Null then ClearNext else SetNext))
      case ClearNext => s.(next := Null).To(t, SwapTail)
      case SwapTail =>
        if s.tail == Node(t) then s.(tail := Lock).Enter(t).To(t, Held) else s.To(t, WaitNext)
      case WaitNext => if th.next == Null then s else s.To(t, ReadAgain)
      case ReadAgain => s.At(t, th.(succ := th.next, pc := SetNext))
      case SetNext => s.(next := th.succ).Enter(t).To(t, Held)
      case Held => s.At(t, th.(succ := s.next, pc := if s.next == Null then SwapNull else Wake))
      case SwapNull =>
        if s.tail == Lock then s.(tail := Null).Leave(t).To(t, Out) else s.To(t, WaitSucc)
      case WaitSucc => if s.next == Null then s else s.To(t, ReadSucc)
      case ReadSucc => s.At(t, th.(succ := s.next, pc := Wake))
      case Wake => s.ClearSpin(th.succ).Leave(t).To(t, Out)
  }

  function Run(n: nat, es: seq<(nat, Choice)>): State {
    if |es| == 0 then Init(n) else Step(Run(n, es[..|es| - 1]), es[|es| - 1].0, es[|es| - 1].1)
  }

  // ----- the invariant

  // what stands for thread t in the queue
  function Rep(s: State, t: nat): Ptr
    requires t < |s.threads|
  {
    if s.threads[t].pc.Holds() then Lock else Node(t)
  }

  // the next pointer others see there
  function NextAt(s: State, t: nat): Ptr
    requires t < |s.threads|
  {
    if s.threads[t].pc.Holds() then s.next else s.threads[t].next
  }

  /** q is what its name says. */
  ghost predicate Queue(s: State) {
    && (forall i :: 0 <= i < |s.q| ==> s.q[i] < |s.threads| && s.threads[s.q[i]].pc.Queued())
    && (forall i, j :: 0 <= i < j < |s.q| ==> s.q[i] != s.q[j])
    && (forall t :: 0 <= t < |s.threads| && s.threads[t].pc.Queued() ==> t in s.q)
    && (forall t :: 0 <= t < |s.threads| && s.threads[t].pc.Swapping? ==> s.threads[t].next == Null)
  }

  /** All but the first in the queue wait. */
  ghost predicate Turns(s: State)
    requires Queue(s)
  {
    forall i :: 0 < i < |s.q| ==>
      s.threads[s.q[i]].pc.Waits() && (!s.threads[s.q[i]].pc.SetSpin? ==> s.threads[s.q[i]].spin)
  }

  /** The chain of next pointers; a waiter that has not linked itself in yet knows where to. */
  ghost predicate Chain(s: State)
    requires Queue(s)
  {
    && s.tail == (if |s.q| == 0 then Null else Rep(s, s.q[|s.q| - 1]))
    && (|s.q| == 0 ==> s.next == Null)
    && (|s.q| > 0 ==> NextAt(s, s.q[|s.q| - 1]) == Null)
    && forall i :: 0 < i < |s.q| ==> ChainAt(s, i)
  }

  ghost predicate ChainAt(s: State, i: nat)
    requires Queue(s) && 0 < i < |s.q|
  {
    var prev, t := s.q[i - 1], s.q[i];
    && NextAt(s, prev) == (if s.threads[t].pc.Spin? then Node(t) else Null)
    && (!s.threads[t].pc.Spin? ==> s.threads[t].pred == Rep(s, prev))
  }

  /** Where the first in the queue stands. */
  ghost predicate Head(s: State)
    requires Queue(s)
  {
    |s.q| > 0 ==> HeadOk(s, s.threads[s.q[0]])
  }

  ghost predicate HeadOk(s: State, h: Thread)
    requires Queue(s) && |s.q| > 0
  {
    && !h.pc.SetSpin? && !h.pc.Link? && (h.pc.Spin? ==> !h.spin)
    && (!h.pc.Holds() ==> s.next == Null || s.next == Node(s.q[0]))
    && (h.pc.SwapTail? || h.pc.WaitNext? || h.pc.ReadAgain? ==> s.next == Null)
    && (h.pc.WaitNext? || h.pc.ReadAgain? || h.pc.SetNext? || h.pc.WaitSucc? || h.pc.ReadSucc? || h.pc.Wake? ==>
          |s.q| > 1)
    && (h.pc.ReadAgain? ==> h.next != Null)
    && (h.pc.ReadSucc? ==> s.next != Null)
    && (h.pc.SetNext? || h.pc.Wake? ==> h.succ == Node(s.q[1]) && s.threads[s.q[1]].pc.Spin?)
  }

  ghost predicate Logs(s: State)
    requires Queue(s)
  {
    && s.arrivals == s.done + s.q
    && s.entered == s.done + if |s.q| > 0 && s.threads[s.q[0]].pc.Holds() then [s.q[0]] else []
  }

  ghost predicate Inv(s: State) {
    Queue(s) && Turns(s) && Chain(s) && Head(s) && Logs(s)
  }

  lemma InitInv(n: nat)
    ensures Inv(Init(n))
  {}

  // ----- every step keeps it

  /** A thread that does not wait for another one is the first in the queue. */
  lemma First(s: State, t: nat)
    requires Inv(s) && t < |s.threads| && s.threads[t].pc.Queued()
    requires !s.threads[t].pc.Waits() || (s.threads[t].pc.Spin? && !s.threads[t].spin)
    ensures |s.q| > 0 && s.q[0] == t
  {
    hide Chain, Head, Logs;
    var i :| 0 <= i < |s.q| && s.q[i] == t;
  }

  lemma OutsideInv(s: State, t: nat, th: Thread)
    requires Inv(s) && t < |s.threads| && !s.threads[t].pc.Queued() && !th.pc.Queued() && th.next == Null
    ensures Inv(s.At(t, th))
  {
    var s' := s.At(t, th);
    assert Queue(s');
    forall i | 0 < i < |s.q|
      ensures ChainAt(s', i)
    {
      assert ChainAt(s, i);
    }
  }

  /** Steps of the first in the queue that touch its own variables only. */
  lemma LocalInv(s: State, t: nat, th: Thread)
    requires Inv(s) && |s.q| > 0 && s.q[0] == t
    requires th.pc.Queued() && th.pc.Holds() == s.threads[t].pc.Holds() && th.next == s.threads[t].next && HeadOk(s, th)
    ensures Inv(s.At(t, th))
  {
    var s' := s.At(t, th);
    assert Queue(s');
    forall i | 0 < i < |s.q|
      ensures ChainAt(s', i)
    {
      assert ChainAt(s, i);
    }
  }

  lemma SetSpinPlaces(s: State, t: nat, c: Choice)
    requires Inv(s) && t < |s.threads| && s.threads[t].pc.SetSpin?
    ensures var s' := Step(s, t, c); Queue(s') && Turns(s') && Head(s') && Logs(s')
  {
    hide ChainAt;
  }

  lemma SetSpinChain(s: State, t: nat, c: Choice)
    requires Inv(s) && t < |s.threads| && s.threads[t].pc.SetSpin? && Queue(Step(s, t, c))
    ensures Chain(Step(s, t, c))
  {
    hide Logs;
    var s' := Step(s, t, c);
    forall i | 0 < i < |s'.q|
      ensures ChainAt(s', i)
    {
      assert ChainAt(s, i);
    }
  }

  lemma ClearNextPlaces(s: State, t: nat, c: Choice)
    requires Inv(s) && t < |s.threads| && s.threads[t].pc.ClearNext?
    ensures var s' := Step(s, t, c); Queue(s') && Turns(s') && Head(s') && Logs(s')
  {
    hide ChainAt;
    First(s, t);
  }

  lemma ClearNextChain(s: State, t: nat, c: Choice)
    requires Inv(s) && t < |s.threads| && s.threads[t].pc.ClearNext? && Queue(Step(s, t, c))
    ensures Chain(Step(s, t, c))
  {
    hide Logs;
    First(s, t);
    var s' := Step(s, t, c);
    forall i | 0 < i < |s'.q|
      ensures ChainAt(s', i)
    {
      assert ChainAt(s, i);
    }
  }

  lemma SwappingPlaces(s: State, t: nat, c: Choice)
    requires Inv(s) && t < |s.threads| && s.threads[t].pc.Swapping?
    ensures Queue(Step(s, t, c)) && Turns(Step(s, t, c))
  {
    hide ChainAt, Head, Logs;
    var s' := Step(s, t, c);
    forall u: nat | u < |s'.threads| && s'.threads[u].pc.Queued()
      ensures u in s'.q
    {
      assert u == t || u in s.q;
    }
    assert Queue(s');
  }

  lemma SwappingHead(s: State, t: nat, c: Choice)
    requires Inv(s) && t < |s.threads| && s.threads[t].pc.Swapping? && Queue(Step(s, t, c))
    ensures Head(Step(s, t, c)) && Logs(Step(s, t, c))
  {
    hide ChainAt;
    assert s.done + s.q + [t] == s.done + (s.q + [t]);
  }

  lemma SwappingChain(s: State, t: nat, c: Choice)
    requires Inv(s) && t < |s.threads| && s.threads[t].pc.Swapping? && Queue(Step(s, t, c))
    ensures Chain(Step(s, t, c))
  {
    hide Logs;
    var s' := Step(s, t, c);
    forall i | 0 < i < |s'.q|
      ensures ChainAt(s', i)
    {
      assert i < |s.q| ==> ChainAt(s, i);
    }
  }

  lemma EnterPlaces(s: State, t: nat, c: Choice)
    requires Inv(s) && t < |s.threads| && ((s.threads[t].pc.SwapTail? && s.tail == Node(t)) || s.threads[t].pc.SetNext?)
    ensures Queue(Step(s, t, c)) && Turns(Step(s, t, c))
  {
    hide Chain, Head, Logs;
    First(s, t);
    assert Queue(Step(s, t, c));
  }

  lemma EnterHead(s: State, t: nat, c: Choice)
    requires Inv(s) && t < |s.threads| && ((s.threads[t].pc.SwapTail? && s.tail == Node(t)) || s.threads[t].pc.SetNext?)
    requires Queue(Step(s, t, c))
    ensures Head(Step(s, t, c)) && Logs(Step(s, t, c))
  {
    hide ChainAt;
    First(s, t);
    assert s.done + [] + [t] == s.done + [t];
  }

  lemma EnterChainAt(s: State, t: nat, c: Choice, i: nat)
    requires Inv(s) && t < |s.threads| && ((s.threads[t].pc.SwapTail? && s.tail == Node(t)) || s.threads[t].pc.SetNext?)
    requires Queue(Step(s, t, c)) && 0 < i < |s.q|
    ensures ChainAt(Step(s, t, c), i)
  {
    hide Logs;
    First(s, t);
    assert ChainAt(s, i);
    assert s.q[i] != t && (i > 1 ==> s.q[i - 1] != t);
  }

  lemma EnterChain(s: State, t: nat, c: Choice)
    requires Inv(s) && t < |s.threads| && ((s.threads[t].pc.SwapTail? && s.tail == Node(t)) || s.threads[t].pc.SetNext?)
    requires Queue(Step(s, t, c))
    ensures Chain(Step(s, t, c))
  {
    hide Logs, ChainAt;
    First(s, t);
    forall i | 0 < i < |s.q|
      ensures ChainAt(Step(s, t, c), i)
    {
      EnterChainAt(s, t, c, i);
    }
    if |s.q| > 1 {
      assert s.q[|s.q| - 1] != t;
    }
  }

  lemma LinkStep(s: State, k: nat, c: Choice)
    requires Inv(s) && k < |s.q| && s.threads[s.q[k]].pc.Link?
    ensures k > 0
    ensures var t, prev := s.q[k], s.q[k - 1];
      && s.threads[prev].pc.Holds() ==> k == 1 && Step(s, t, c) == s.(next := Node(t)).To(t, Spin)
    ensures var t, prev := s.q[k], s.q[k - 1];
      !s.threads[prev].pc.Holds() ==>
        Step(s, t, c)
          == s.(threads := s.threads[prev := s.threads[prev].(next := Node(t))][t := s.threads[t].(pc := Spin)])
  {
    assert ChainAt(s, k);
  }

  lemma LinkPlaces(s: State, k: nat, c: Choice)
    requires Inv(s) && k < |s.q| && s.threads[s.q[k]].pc.Link?
    ensures var s' := Step(s, s.q[k], c); Queue(s') && Turns(s')
  {
    hide Step, Chain, Head, Logs;
    LinkStep(s, k, c);
    assert Queue(Step(s, s.q[k], c));
  }

  lemma LinkHead(s: State, k: nat, c: Choice)
    requires Inv(s) && k < |s.q| && s.threads[s.q[k]].pc.Link? && Queue(Step(s, s.q[k], c))
    ensures var s' := Step(s, s.q[k], c); Head(s') && Logs(s')
  {
    hide Step, ChainAt;
    LinkStep(s, k, c);
  }

  lemma LinkChainAt(s: State, k: nat, c: Choice, i: nat)
    requires Inv(s) && k < |s.q| && s.threads[s.q[k]].pc.Link? && Queue(Step(s, s.q[k], c)) && 0 < i < |s.q|
    ensures ChainAt(Step(s, s.q[k], c), i)
  {
    hide Step, Logs, Head, Chain;
    LinkStep(s, k, c);
    assert ChainAt(s, i) by {
      ChainHolds(s, i);
    }
    assert i != k ==> s.q[i] != s.q[k] && s.q[i - 1] != s.q[k - 1];
  }

  lemma ChainHolds(s: State, i: nat)
    requires Queue(s) && Chain(s) && 0 < i < |s.q|
    ensures ChainAt(s, i)
  {}

  lemma LinkChain(s: State, k: nat, c: Choice)
    requires Inv(s) && k < |s.q| && s.threads[s.q[k]].pc.Link? && Queue(Step(s, s.q[k], c))
    ensures Chain(Step(s, s.q[k], c))
  {
    hide Step, Logs, Head, ChainAt;
    LinkStep(s, k, c);
    forall i | 0 < i < |s.q|
      ensures ChainAt(Step(s, s.q[k], c), i)
    {
      LinkChainAt(s, k, c, i);
    }
  }

  lemma LinkInv(s: State, t: nat, c: Choice)
    requires Inv(s) && t < |s.threads| && s.threads[t].pc.Link?
    ensures Inv(Step(s, t, c))
  {
    hide Turns, Chain, Head, Logs, Step;
    var k := IndexOf(s.q, t);
    LinkPlaces(s, k, c);
    LinkHead(s, k, c);
    LinkChain(s, k, c);
  }

  // a holder that finds the lock word still in the tail is alone
  lemma SwapNullInv(s: State, t: nat, c: Choice)
    requires Inv(s) && t < |s.threads| && s.threads[t].pc.SwapNull? && s.tail == Lock
    ensures Inv(Step(s, t, c))
  {
    hide ChainAt;
    First(s, t);
    Single(s, t);
    var s' := Step(s, t, c);
    assert s'.q == [] && s.q == [t];
    assert Queue(s');
  }

  lemma Single(s: State, t: nat)
    requires Inv(s) && |s.q| > 0 && s.q[0] == t && s.threads[t].pc.SwapNull? && s.tail == Lock
    ensures |s.q| == 1 && s.next == Null
  {
    hide ChainAt, Logs;
    assert s.threads[s.q[|s.q| - 1]].pc.Holds();
  }

  lemma WakeStep(s: State, t: nat, c: Choice)
    requires Inv(s) && t < |s.threads| && s.threads[t].pc.Wake?
    ensures |s.q| > 1 && s.q[0] == t && s.q[1] != t && s.threads[s.q[1]].pc.Spin?
    ensures Step(s, t, c) == s.(done := s.done + [t], q := s.q[1..],
      threads := s.threads[s.q[1] := s.threads[s.q[1]].(spin := false)][t := s.threads[t].(pc := Out)])
  {
    hide ChainAt;
    First(s, t);
  }

  lemma WakeQueue(s: State, t: nat, c: Choice)
    requires Inv(s) && t < |s.threads| && s.threads[t].pc.Wake?
    ensures Queue(Step(s, t, c)) && Turns(Step(s, t, c))
  {
    hide Step, ChainAt, Logs;
    WakeStep(s, t, c);
    var s' := Step(s, t, c);
    forall u: nat | u < |s'.threads| && s'.threads[u].pc.Queued()
      ensures u in s'.q
    {
      var j :| 0 <= j < |s.q| && s.q[j] == u;
      assert s'.q[j - 1] == u;
    }
    assert Queue(s');
  }

  lemma WakeLogs(s: State, t: nat, c: Choice)
    requires Inv(s) && t < |s.threads| && s.threads[t].pc.Wake? && Queue(Step(s, t, c))
    ensures Logs(Step(s, t, c))
  {
    hide Step, Chain, Head, Turns;
    WakeStep(s, t, c);
    Shift(s.done, s.q);
    var s' := Step(s, t, c);
    assert s'.threads[s'.q[0]].pc.Spin?;
    assert s'.done + [] == s'.done;
  }

  lemma WakeChain(s: State, t: nat, c: Choice)
    requires Inv(s) && t < |s.threads| && s.threads[t].pc.Wake? && Queue(Step(s, t, c))
    ensures Chain(Step(s, t, c))
  {
    hide Step, Logs, Head;
    WakeStep(s, t, c);
    var s' := Step(s, t, c);
    forall i | 0 < i < |s'.q|
      ensures ChainAt(s', i)
    {
      assert ChainAt(s, i + 1);
    }
  }

  lemma WakeHead(s: State, t: nat, c: Choice)
    requires Inv(s) && t < |s.threads| && s.threads[t].pc.Wake? && Queue(Step(s, t, c))
    ensures Head(Step(s, t, c))
  {
    hide Step, Logs;
    WakeStep(s, t, c);
    assert ChainAt(s, 1);
  }

  lemma TryInv(s: State, t: nat)
    requires Inv(s) && t < |s.threads| && s.threads[t].pc.Out?
    ensures Inv(Step(s, t, Try))
  {}

  lemma {:induction false} StepInv(s: State, t: nat, c: Choice)
    requires Inv(s)
    ensures Inv(Step(s, t, c))
  {
    hide Queue, Turns, Chain, Head, Logs, Step;
    if t < |s.threads| {
      match s.threads[t].pc {
        case Out => OutInv(s, t, c);
        case Swapping =>
          SwappingPlaces(s, t, c);
          SwappingHead(s, t, c);
          SwappingChain(s, t, c);
        case SetSpin =>
          SetSpinPlaces(s, t, c);
          SetSpinChain(s, t, c);
        case Link => LinkInv(s, t, c);
        case ClearNext =>
          ClearNextPlaces(s, t, c);
          ClearNextChain(s, t, c);
        case Wake =>
          WakeQueue(s, t, c);
          WakeLogs(s, t, c);
          WakeChain(s, t, c);
          WakeHead(s, t, c);
        case SwapTail =>
          if s.tail == Node(t) {
            EnterPlaces(s, t, c);
            EnterHead(s, t, c);
            EnterChain(s, t, c);
          } else {
            MoveInv(s, t, c);
          }
        case SetNext =>
          EnterPlaces(s, t, c);
          EnterHead(s, t, c);
          EnterChain(s, t, c);
        case SwapNull =>
          if s.tail == Lock {
            SwapNullInv(s, t, c);
          } else {
            MoveInv(s, t, c);
          }
        case _ => MoveInv(s, t, c);
      }
    } else {
      assert Step(s, t, c) == s by {
        Stay(s, t, c);
      }
    }
  }

  lemma Stay(s: State, t: nat, c: Choice)
    requires t >= |s.threads|
    ensures Step(s, t, c) == s
  {}

  lemma OutInv(s: State, t: nat, c: Choice)
    requires Inv(s) && t < |s.threads| && s.threads[t].pc.Out?
    ensures Inv(Step(s, t, c))
  {
    hide Queue, Turns, Chain, Head, Logs;
    match c {
      case Call(junk) => OutsideInv(s, t, Thread(Swapping, Null, junk, Null, Null));
      case Try => TryInv(s, t);
    }
  }

  /** What the first in the queue can see of the second. */
  lemma Second(s: State)
    requires Inv(s) && |s.q| > 0
    ensures NextAt(s, s.q[0]) != Null ==>
      |s.q| > 1 && s.threads[s.q[1]].pc.Spin? && NextAt(s, s.q[0]) == Node(s.q[1])
    ensures s.tail != Rep(s, s.q[0]) ==> |s.q| > 1
  {
    hide Turns, Head, Logs;
    assert |s.q| > 1 ==> ChainAt(s, 1);
  }

  lemma MoveInv(s: State, t: nat, c: Choice)
    requires Inv(s) && t < |s.threads|
    requires var pc := s.threads[t].pc;
      || pc.Spin? || pc.ReadNext? || pc.WaitNext? || pc.ReadAgain? || pc.Held? || pc.WaitSucc? || pc.ReadSucc?
      || (pc.SwapTail? && s.tail != Node(t)) || (pc.SwapNull? && s.tail != Lock)
    ensures Inv(Step(s, t, c))
  {
    hide Turns, Chain, Logs;
    if Step(s, t, c) != s {
      First(s, t);
      Second(s);
      LocalInv(s, t, Step(s, t, c).threads[t]);
    }
  }

  lemma {:induction false} RunInv(n: nat, es: seq<(nat, Choice)>)
    ensures Inv(Run(n, es)) && |Run(n, es).threads| == n
  {
    hide Inv, Step;
    if |es| == 0 {
      InitInv(n);
    } else {
      RunInv(n, es[..|es| - 1]);
      StepInv(Run(n, es[..|es| - 1]), es[|es| - 1].0, es[|es| - 1].1);
    }
  }

  // ----- what the lock is for

  /** At most one thread is between the return of k42_lock and its hand-over. */
  lemma {:induction false} MutualExclusion(n: nat, es: seq<(nat, Choice)>)
    ensures var s := Run(n, es);
      forall t, u :: 0 <= t < u < |s.threads| && s.threads[t].pc.Holds() ==> !s.threads[u].pc.Holds()
  {
    hide Run, Chain, Head, Logs;
    RunInv(n, es);
  }

  // whose step it was that took the thread into the queue, or to the return of the call
  function Arrival(s: State, s': State, t: nat): seq<nat> {
    if t < |s.threads| == |s'.threads| && !s.threads[t].pc.Queued() && s'.threads[t].pc.Queued() then [t] else []
  }

  function Entry(s: State, s': State, t: nat): seq<nat> {
    if t < |s.threads| == |s'.threads| && !s.threads[t].pc.Holds() && s'.threads[t].pc.Holds() then [t] else []
  }

  /** The threads in the order in which they got into the queue, and in which they got the lock, as their program
    * counters tell. */
  function Arrivals(n: nat, es: seq<(nat, Choice)>): seq<nat> {
    if |es| == 0 then []
    else Arrivals(n, es[..|es| - 1]) + Arrival(Run(n, es[..|es| - 1]), Run(n, es), es[|es| - 1].0)
  }

  function Entries(n: nat, es: seq<(nat, Choice)>): seq<nat> {
    if |es| == 0 then []
    else Entries(n, es[..|es| - 1]) + Entry(Run(n, es[..|es| - 1]), Run(n, es), es[|es| - 1].0)
  }

  lemma StoresKeep(s: State, p: Ptr, v: Ptr)
    ensures s.StoreNext(p, v) == s.(threads := s.StoreNext(p, v).threads, next := s.StoreNext(p, v).next)
    ensures s.ClearSpin(p) == s.(threads := s.ClearSpin(p).threads)
    ensures |s.StoreNext(p, v).threads| == |s.ClearSpin(p).threads| == |s.threads|
    ensures forall u :: 0 <= u < |s.threads| ==>
      s.StoreNext(p, v).threads[u].pc == s.ClearSpin(p).threads[u].pc == s.threads[u].pc
  {}

  lemma StepLogs(s: State, t: nat, c: Choice)
    ensures Step(s, t, c).arrivals == s.arrivals + Arrival(s, Step(s, t, c), t)
    ensures Step(s, t, c).entered == s.entered + Entry(s, Step(s, t, c), t)
  {
    hide State.StoreNext, State.ClearSpin;
    if t < |s.threads| {
      StoresKeep(s, s.threads[t].pred, Node(t));
      StoresKeep(s, s.threads[t].succ, Null);
    }
  }

  /** The history variables log just that. */
  lemma {:induction false} LogsAreTrue(n: nat, es: seq<(nat, Choice)>)
    ensures Run(n, es).arrivals == Arrivals(n, es) && Run(n, es).entered == Entries(n, es)
  {
    hide Step, Arrival, Entry;
    if |es| > 0 {
      LogsAreTrue(n, es[..|es| - 1]);
      StepLogs(Run(n, es[..|es| - 1]), es[|es| - 1].0, es[|es| - 1].1);
    }
  }

  /** Threads get the lock in the order of their exchange or successful trylock on l->tail. */
  lemma FirstComeFirstServed(n: nat, es: seq<(nat, Choice)>)
    ensures Entries(n, es) <= Arrivals(n, es)
  {
    hide Run, Turns, Chain, Head, Entries, Arrivals;
    RunInv(n, es);
    LogsAreTrue(n, es);
  }

  /** A pointer to t's node that some thread may still follow. */
  predicate Mentions(s: State, u: nat, t: nat)
    requires u < |s.threads|
  {
    var th := s.threads[u];
    || ((th.pc.Swapping? || th.pc.Waits() || th.pc.Acquires()) && th.next == Node(t))
    || ((th.pc.SetSpin? || th.pc.Link?) && th.pred == Node(t))
    || ((th.pc.SetNext? || th.pc.Wake?) && th.succ == Node(t))
  }

  /** A thread that is not inside k42_lock has left no pointer to its stack frame behind. */
  lemma NodeRetired(n: nat, es: seq<(nat, Choice)>, t: nat)
    requires t < n && |Run(n, es).threads| == n
    requires !Run(n, es).threads[t].pc.Waits() && !Run(n, es).threads[t].pc.Acquires()
    ensures var s := Run(n, es); s.tail != Node(t) && s.next != Node(t)
    ensures var s := Run(n, es); forall u :: 0 <= u < n ==> !Mentions(s, u, t)
  {
    hide Run, Logs;
    RunInv(n, es);
    var s := Run(n, es);
    forall i | 0 < i < |s.q|
      ensures s.q[i] != t
    {}
    assert |s.q| > 1 ==> ChainAt(s, 1);
    forall u: nat | u < n
      ensures !Mentions(s, u, t)
    {
      if s.threads[u].pc.Queued() {
        var k := IndexOf(s.q, u);
        assert k > 0 ==> ChainAt(s, k);
        assert k + 1 < |s.q| ==> ChainAt(s, k + 1);
      }
    }
  }

  /** k42_trylock succeeds exactly if nobody holds the lock or waits for it. */
  lemma TrySucceedsIffIdle(n: nat, es: seq<(nat, Choice)>, t: nat)
    requires t < n && |Run(n, es).threads| == n && Run(n, es).threads[t].pc.Out?
    ensures var s := Run(n, es);
      Step(s, t, Try).threads[t].pc.Held? <==> forall u :: 0 <= u < n ==> !s.threads[u].pc.Queued()
  {
    hide Run, Chain, Head, Logs;
    RunInv(n, es);
    var s := Run(n, es);
    TailNull(s);
    assert |s.q| > 0 ==> s.threads[s.q[0]].pc.Queued();
  }

  lemma TailNull(s: State)
    requires Inv(s)
    ensures s.tail == Null <==> |s.q| == 0
  {}

  /** A trylock that finds anybody queued changes nothing, and the thread is outside as before. */
  lemma TryRefused(n: nat, es: seq<(nat, Choice)>, t: nat, u: nat)
    requires t < n && u < n == |Run(n, es).threads|
    requires Run(n, es).threads[t].pc.Out? && Run(n, es).threads[u].pc.Queued()
    ensures Run(n, es + [(t, Try)]) == Run(n, es)
  {
    hide Run, Chain, Head, Logs;
    RunInv(n, es);
    TailNull(Run(n, es));
    RunMore(n, es, (t, Try));
  }

  /** The thread's next access would find it still has to wait. */
  predicate Spinning(s: State, t: nat)
    requires t < |s.threads|
  {
    var th := s.threads[t];
    (th.pc.Spin? && th.spin) || (th.pc.WaitNext? && th.next == Null) || (th.pc.WaitSucc? && s.next == Null)
  }

  /** No lost hand-over: as long as somebody is queued, one of the first two in the queue can go on, and the
    * second one only has to link itself in. */
  lemma SomeoneMoves(n: nat, es: seq<(nat, Choice)>)
    requires |Run(n, es).q| > 0
    ensures var s := Run(n, es);
      && s.q[0] < |s.threads| && s.threads[s.q[0]].pc.Queued()
      && (!Spinning(s, s.q[0]) || (|s.q| > 1 && s.q[1] < |s.threads|
          && (s.threads[s.q[1]].pc.SetSpin? || s.threads[s.q[1]].pc.Link?)))
  {
    hide Run, Logs;
    RunInv(n, es);
    var s := Run(n, es);
    assert |s.q| > 1 ==> ChainAt(s, 1);
  }

  // ----- everybody who has called gets the lock

  // how many accesses a thread has before it, if each of its loops ends at once
  function Weight(pc: Pc): nat {
    match pc
    case Swapping => 17 case SetSpin => 16 case Link => 15 case Spin => 14 case ReadNext => 13 case ClearNext => 12
    case SwapTail => 11 case WaitNext => 10 case ReadAgain => 9 case SetNext => 8 case Held => 7 case SwapNull => 6
    case WaitSucc => 5 case ReadSucc => 4 case Wake => 3 case Out => 0
  }

  function Weights(s: State): seq<nat> {
    seq(|s.threads|, i requires 0 <= i < |s.threads| => Weight(s.threads[i].pc))
  }

  /** An upper bound for the number of accesses that are left, apart from those that find they have to wait, if
    * nobody calls any more. */
  function Remaining(s: State): nat { Sum(Weights(s)) }

  // of the other threads a step changes the fields of nodes only
  lemma OthersStay(s: State, t: nat, c: Choice, u: nat)
    requires t < |s.threads| && u < |s.threads| && u != t
    ensures Step(s, t, c).threads[u].pc == s.threads[u].pc
  {
    hide State.StoreNext, State.ClearSpin;
    StoresKeep(s, s.threads[t].pred, Node(t));
    StoresKeep(s, s.threads[t].succ, Null);
  }

  lemma Advances(s: State, t: nat, c: Choice)
    requires t < |s.threads| && !s.threads[t].pc.Out? && !Spinning(s, t)
    ensures Weight(Step(s, t, c).threads[t].pc) < Weight(s.threads[t].pc)
  {
    hide State.StoreNext, State.ClearSpin;
    StoresKeep(s, s.threads[t].pred, Node(t));
    StoresKeep(s, s.threads[t].succ, Null);
  }

  /** Whoever takes the next step, unless it waits or calls, uses up some of it. */
  lemma EveryStepCounts(s: State, t: nat, c: Choice)
    requires t < |s.threads| && !s.threads[t].pc.Out? && !Spinning(s, t)
    ensures Remaining(Step(s, t, c)) < Remaining(s)
  {
    hide Sum, Step, Weight, Spinning;
    var s' := Step(s, t, c);
    forall u: nat | u < |s.threads| && u != t
      ensures s'.threads[u].pc == s.threads[u].pc
    {
      OthersStay(s, t, c, u);
    }
    Advances(s, t, c);
    assert Weights(s') == Weights(s)[t := Weight(s'.threads[t].pc)];
    SumChange(Weights(s), t, Weight(s'.threads[t].pc));
  }

  /** The thread has called k42_lock, which has not returned yet. */
  predicate Locking(s: State, t: nat) {
    t < |s.threads| && (s.threads[t].pc.Swapping? || s.threads[t].pc.Waits() || s.threads[t].pc.Acquires())
  }

  lemma LockingOn(s: State, t: nat, u: nat, c: Choice)
    requires Locking(s, t)
    ensures Locking(Step(s, u, c), t) || Step(s, u, c).threads[t].pc.Held?
  {
    if u != t {
      hide Step;
      if u < |s.threads| {
        OthersStay(s, u, c, t);
      } else {
        Stay(s, u, c);
      }
    } else {
      OwnStep(s, t, c);
    }
  }

  lemma OwnStep(s: State, t: nat, c: Choice)
    requires Locking(s, t)
    ensures Locking(Step(s, t, c), t) || Step(s, t, c).threads[t].pc.Held?
  {}

  lemma Mover(n: nat, es: seq<(nat, Choice)>, t: nat) returns (u: nat)
    requires Locking(Run(n, es), t)
    ensures var s := Run(n, es); u < |s.threads| && !s.threads[u].pc.Out? && !Spinning(s, u)
  {
    hide Run, Turns, Chain, Head, Logs;
    var s := Run(n, es);
    if s.threads[t].pc.Swapping? {
      u := t;
    } else {
      RunInv(n, es);
      SomeoneMoves(n, es);
      u := if Spinning(s, s.q[0]) then s.q[1] else s.q[0];
    }
  }

  lemma RunMore(n: nat, es: seq<(nat, Choice)>, e: (nat, Choice))
    ensures Run(n, es + [e]) == Step(Run(n, es), e.0, e.1)
  {
    assert (es + [e])[..|es|] == es;
  }

  /** The steps are all taken by threads inside the lock's routines. */
  ghost predicate Inside(n: nat, es: seq<(nat, Choice)>, more: seq<(nat, Choice)>) {
    forall i :: 0 <= i < |more| ==>
      var s, u := Run(n, es + more[..i]), more[i].0; u < |s.threads| && !s.threads[u].pc.Out?
  }

  lemma InsideMore(n: nat, es: seq<(nat, Choice)>, e: (nat, Choice), rest: seq<(nat, Choice)>)
    requires e.0 < |Run(n, es).threads| && !Run(n, es).threads[e.0].pc.Out? && Inside(n, es + [e], rest)
    ensures Inside(n, es, [e] + rest)
  {
    hide Run;
    var more := [e] + rest;
    forall i | 0 <= i < |more|
      ensures var s, u := Run(n, es + more[..i]), more[i].0; u < |s.threads| && !s.threads[u].pc.Out?
    {
      if i == 0 {
        assert es + more[..0] == es;
      } else {
        assert es + more[..i] == es + [e] + rest[..i - 1] && more[i] == rest[i - 1];
      }
    }
  }

  /** From every reachable state every thread that has called k42_lock can be brought to the return of the call,
    * within the bound and without anybody calling again. */
  lemma {:induction false} CanEnter(n: nat, es: seq<(nat, Choice)>, t: nat) returns (more: seq<(nat, Choice)>)
    requires Locking(Run(n, es), t)
    ensures var s := Run(n, es + more); t < |s.threads| && s.threads[t].pc.Held?
    ensures |more| <= Remaining(Run(n, es)) && Inside(n, es, more)
    decreases Remaining(Run(n, es))
  {
    hide Run, Step, Remaining, Inside, Locking, Spinning;
    var u := Mover(n, es, t);
    var e := (u, Try);
    RunMore(n, es, e);
    EveryStepCounts(Run(n, es), u, Try);
    LockingOn(Run(n, es), t, u, Try);
    var rest := [];
    if Locking(Run(n, es + [e]), t) {
      rest := CanEnter(n, es + [e], t);
    } else {
      NothingInside(n, es + [e]);
      assert es + [e] + rest == es + [e];
      LockingThread(Run(n, es), t);
    }
    more := [e] + rest;
    assert es + more == es + [e] + rest;
    InsideMore(n, es, e, rest);
  }

  lemma LockingThread(s: State, t: nat)
    requires Locking(s, t)
    ensures t < |s.threads|
  {}

  lemma NothingInside(n: nat, es: seq<(nat, Choice)>)
    ensures Inside(n, es, [])
  {}

  /** So every thread outside can call k42_lock, and get the lock, with nobody else calling. */
  lemma CanLock(n: nat, es: seq<(nat, Choice)>, t: nat, junk: bool) returns (more: seq<(nat, Choice)>)
    requires t < |Run(n, es).threads| && Run(n, es).threads[t].pc.Out?
    ensures var called := es + [(t, Call(junk))]; var s := Run(n, called + more);
      t < |s.threads| && s.threads[t].pc.Held? && Inside(n, called, more)
  {
    hide Run, Inside;
    RunMore(n, es, (t, Call(junk)));
    more := CanEnter(n, es + [(t, Call(junk))], t);
  }

  /** And whatever the schedule: when nobody inside can do anything but wait, nobody is inside. */
  lemma NothingStuck(n: nat, es: seq<(nat, Choice)>)
    requires var s := Run(n, es); forall u :: 0 <= u < |s.threads| && !s.threads[u].pc.Out? ==> Spinning(s, u)
    ensures var s := Run(n, es); forall u :: 0 <= u < |s.threads| ==> s.threads[u].pc.Out?
  {
    hide Run, Turns, Chain, Head, Logs;
    RunInv(n, es);
    var s := Run(n, es);
    if |s.q| > 0 {
      SomeoneMoves(n, es);
    }
  }

  /** Whenever a thread stores through a pointer, in the queue or to wake its successor, it points somewhere. */
  lemma NeverThroughNull(n: nat, es: seq<(nat, Choice)>, t: nat)
    requires t < |Run(n, es).threads|
    ensures var th := Run(n, es).threads[t];
      && (th.pc.Link? ==> th.pred == Lock || (th.pred.Node? && th.pred.t < n && th.pred.t != t))
      && (th.pc.Wake? || th.pc.SetNext? ==> th.succ.Node? && th.succ.t < n && th.succ.t != t)
  {
    hide Run, Logs;
    RunInv(n, es);
    var s := Run(n, es);
    if s.threads[t].pc.Queued() {
      var k := IndexOf(s.q, t);
      assert k > 0 ==> ChainAt(s, k);
    }
  }
}
