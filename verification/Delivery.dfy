/** The whole way of a message, from its submission at the sender to its handler at the receiver. */
module Delivery {
  import opened Wire
  import opened SortedList
  import opened Receiver
  import Streams
  import S = SendRun
  import R = ReceiveRun
  import E = EndToEnd
  import D = DispatchRun
  import P = Progress

  datatype All = All(net: E.Sys, work: D.Ds)

  /** Deliver: PushReceivedMessage posts the next unpacked message to the workers. */
  datatype Event = Net(n: E.Event) | Deliver | Work(w: D.Event)

  function Step(s: All, e: Event): All {
    match e
    case Net(n) => s.(net := E.Step(s.net, n))
    case Deliver =>
      var k := |s.work.bodies|;
      if k < |s.net.rx.rx.out| then s.(work := D.Step(s.work, D.Unpack(s.net.rx.rx.out[k].body))) else s
    case Work(w) => if w.Unpack? then s else s.(work := D.Step(s.work, w))
  }

  function Run(threads: nat, es: seq<Event>): All {
    if |es| == 0 then All(E.Run([]), D.Init(threads)) else Step(Run(threads, es[..|es| - 1]), es[|es| - 1])
  }

  ghost predicate Inv(s: All) {
    && E.Inv(s.net) && D.Inv(s.work)
    && s.work.bodies <= R.Bodies(s.net.rx.rx.out)
  }

  lemma StepInv(s: All, e: Event)
    requires Inv(s)
    ensures Inv(Step(s, e))
  {
    hide E.Inv, D.Inv, E.Step;
    match e {
      case Net(n) =>
        E.StepInv(s.net, n);
        OutGrows(s.net, n);
      case Deliver =>
        var k := |s.work.bodies|;
        if k < |s.net.rx.rx.out| {
          D.StepInv(s.work, D.Unpack(s.net.rx.rx.out[k].body));
        }
      case Work(w) =>
        if !w.Unpack? {
          D.StepInv(s.work, w);
          D.BodiesStay(s.work, w);
        }
    }
  }

  // messages handed on stay handed on
  lemma OutGrows(s: E.Sys, e: E.Event)
    ensures R.Bodies(s.rx.rx.out) <= R.Bodies(E.Step(s, e).rx.rx.out)
  {
    hide Parse, Rx.Consume, Streams.Concat;
  }

  lemma {:induction false} RunInv(threads: nat, es: seq<Event>)
    ensures Inv(Run(threads, es)) && |Run(threads, es).work.pcs| == threads
  {
    hide Inv;
    if |es| == 0 {
      StartInv(threads);
    } else {
      RunInv(threads, es[..|es| - 1]);
      StepInv(Run(threads, es[..|es| - 1]), es[|es| - 1]);
    }
  }

  lemma StartInv(threads: nat)
    ensures Inv(All(E.Run([]), D.Init(threads)))
  {
    hide E.Inv, D.Inv, E.Run;
    E.RunInv([]);
    D.InitInv(threads);
  }

  /** Whatever the network, the completion order and the worker threads do: the handlers of the receiver are
    * given the first bodies submitted at the sender, in the order submitted, each exactly once. */
  lemma HandledInOrder(threads: nat, es: seq<Event>)
    ensures var s := Run(threads, es);
      |s.work.handed| <= |s.net.tx.submitted|
      && forall i :: 0 <= i < |s.work.handed| ==> s.work.handed[i] == Entry(i + 1, s.net.tx.submitted[i])
  {
    hide Run, E.Inv, D.Exclusive, D.InFlight, D.Placed, D.Watched;
    RunInv(threads, es);
    E.InOrder(Run(threads, es).net);
  }

  // ----- the network alone

  function NetEvents(es: seq<Event>): seq<E.Event> {
    if |es| == 0 then []
    else
      var e, before := es[|es| - 1], NetEvents(es[..|es| - 1]);
      if e.Net? then before + [e.n] else before
  }

  /** The workers do not get in the way of the network. */
  lemma {:induction false} NetIsRun(threads: nat, es: seq<Event>)
    ensures Run(threads, es).net == E.Run(NetEvents(es))
  {
    hide E.Step, D.Step;
    if |es| > 0 {
      NetIsRun(threads, es[..|es| - 1]);
      var e, before := es[|es| - 1], NetEvents(es[..|es| - 1]);
      if e.Net? {
        assert (before + [e.n])[..|before|] == before;
      }
    }
  }

  /** Nobody has anything left to do: neither sender, network and receiver, nor the workers. */
  ghost predicate AtRest(s: All) {
    && E.Settled(s.net)
    && |s.work.bodies| == |s.net.rx.rx.out|
    && forall e :: D.Enabled(s.work, e) ==> e.Unpack?
  }

  /** At rest every body has been handled that was submitted before the first one too big for any message
    * buffer. */
  lemma AllHandled(threads: nat, es: seq<Event>)
    requires threads > 0 && AtRest(Run(threads, es))
    requires E.Generous(NetEvents(es), |Run(threads, es).net.tx.submitted|)
    ensures var s := Run(threads, es); |s.work.handed| == E.Fitting(s.net.tx.submitted)
  {
    hide Run, E.Run, E.Inv, E.Settled, E.Generous, E.Fitting, D.Inv, D.Enabled;
    RunInv(threads, es);
    NetIsRun(threads, es);
    E.AllDelivered(NetEvents(es));
    D.AllDone(Run(threads, es).work);
  }

  // ----- everything can still be handled

  lemma RunMore(threads: nat, es: seq<Event>, e: Event)
    ensures Run(threads, es + [e]) == Step(Run(threads, es), e)
  {
    assert (es + [e])[..|es|] == es;
  }

  lemma NetMore(es: seq<Event>, e: Event)
    ensures NetEvents(es + [e]) == if e.Net? then NetEvents(es) + [e.n] else NetEvents(es)
  {
    assert (es + [e])[..|es|] == es;
  }

  /** The network goes on by itself. */
  lemma {:induction false} NetGoesOn(es: seq<Event>, ns: seq<E.Event>) returns (more: seq<Event>)
    ensures NetEvents(es + more) == NetEvents(es) + ns
  {
    more := [];
    assert es + more == es;
    for i := 0 to |ns|
      invariant NetEvents(es + more) == NetEvents(es) + ns[..i]
    {
      NetMore(es + more, Net(ns[i]));
      assert es + more + [Net(ns[i])] == es + (more + [Net(ns[i])]);
      assert ns[..i + 1] == ns[..i] + [ns[i]];
      more := more + [Net(ns[i])];
    }
    assert ns[..|ns|] == ns;
  }

  /** Every message handed on is posted to the workers. */
  lemma {:induction false} PostAll(threads: nat, es: seq<Event>) returns (more: seq<Event>)
    ensures NetEvents(es + more) == NetEvents(es)
    ensures var s := Run(threads, es + more); s.net == Run(threads, es).net && |s.work.bodies| == |s.net.rx.rx.out|
    decreases |Run(threads, es).net.rx.rx.out| - |Run(threads, es).work.bodies|
  {
    hide Run, E.Inv, D.Inv;
    RunInv(threads, es);
    RunMore(threads, es, Deliver);
    NetMore(es, Deliver);
    if |Run(threads, es).work.bodies| == |Run(threads, es).net.rx.rx.out| {
      more := [];
      assert es + more == es;
    } else {
      var rest := PostAll(threads, es + [Deliver]);
      more := [Deliver] + rest;
      assert es + more == es + [Deliver] + rest;
    }
  }

  /** The workers go on by themselves. */
  lemma {:induction false} WorkGoesOn(threads: nat, es: seq<Event>, ws: seq<D.Event>) returns (more: seq<Event>)
    requires forall i :: 0 <= i < |ws| ==> !ws[i].Unpack?
    ensures NetEvents(es + more) == NetEvents(es)
    ensures Run(threads, es + more) == Run(threads, es).(work := D.After(Run(threads, es).work, ws))
    decreases |ws|
  {
    hide Run, D.Step;
    if |ws| == 0 {
      more := [];
      assert es + more == es;
    } else {
      RunMore(threads, es, Work(ws[0]));
      NetMore(es, Work(ws[0]));
      var rest := WorkGoesOn(threads, es + [Work(ws[0])], ws[1..]);
      more := [Work(ws[0])] + rest;
      assert es + more == es + [Work(ws[0])] + rest;
    }
  }

  /** From every state that can be reached while the memory cache has not failed, everything submitted so far can
    * still be handled, up to the first body too big for any message buffer, unless the sender is stuck. */
  lemma CanHandleAll(threads: nat, es: seq<Event>, onRequest: bool) returns (more: seq<Event>)
    requires threads > 0 && !S.Stuck(Run(threads, es).net.tx, onRequest)
    requires E.Generous(NetEvents(es), |Run(threads, es).net.tx.submitted|)
    ensures var s, submitted := Run(threads, es + more), Run(threads, es).net.tx.submitted;
      s.net.tx.submitted == submitted && |s.work.handed| == E.Fitting(submitted) && AtRest(s)
  {
    hide Run, NetEvents, E.Run, E.Inv, E.Settled, E.Generous, E.Fitting, D.Inv, D.Enabled, D.After, S.Stuck, P.OwnWork;
    NetIsRun(threads, es);
    var n := |Run(threads, es).net.tx.submitted|;
    var ns := P.CanSettle(NetEvents(es), onRequest, n + 1);
    P.StillGenerous(NetEvents(es), ns, onRequest, n);
    var net := NetGoesOn(es, ns);
    NetIsRun(threads, es + net);
    var post := PostAll(threads, es + net);
    RunInv(threads, es + net + post);
    var ws := D.ComesToRest(Run(threads, es + net + post).work);
    var work := WorkGoesOn(threads, es + net + post, ws);
    more := net + post + work;
    assert es + more == es + net + post + work;
    AllHandled(threads, es + more);
  }
}
