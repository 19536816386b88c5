/** Runs of operations on the queue of pointers, against a first-in first-out queue that accepts the same pushes:
  * how long they agree, exactly which pop ends that, what comes out then, and where the nodes go. */
module QueueRun {
  import opened NodeChains
  import opened QueueData

  datatype Op = Init(size: nat, memory: bool) | Push(p: Pointer, memory: bool) | Pop | Clear

  function Apply(q: Layout, op: Op): (o: Outcome)
    requires q.Wf()
    ensures o.Going? ==> o.q.Wf()
  {
    match op
    case Init(size, memory) => q.Init(size, memory)
    case Push(p, memory) => Going(q.Push(p, memory))
    case Pop => Going(q.Pop())
    case Clear => q.Clear()
  }

  function Run(ops: seq<Op>): (o: Outcome)
    ensures o.Going? ==> o.q.Wf()
  {
    if |ops| == 0 then Going(NEW)
    else
      var o := Run(ops[..|ops| - 1]);
      if o.Going? then Apply(o.q, ops[|ops| - 1]) else o
  }

  lemma RunMore(ops: seq<Op>, op: Op)
    ensures Run(ops + [op]) == if Run(ops).Going? then Apply(Run(ops).q, op) else Faulted
  {
    assert (ops + [op])[..|ops|] == ops;
  }

  // ----- nodes

  /** How many nodes of the blocks are in neither chain. */
  function LostNodes(q: Layout): int { Nodes(q.blocks, q.size) - |q.chain| - q.free }

  ghost predicate Balanced(q: Layout) { q.using + q.empty == Nodes(q.blocks, q.size) && LostNodes(q) >= 0 }

  // what becomes of the number of nodes
  lemma Growth(q: Layout, op: Op)
    ensures Nodes(q.blocks + 1, q.size) == Nodes(q.blocks, q.size) + q.size
    ensures Nodes(0, DEFAULT_SIZE) == 0 && Nodes(1, DEFAULT_SIZE) == DEFAULT_SIZE
    ensures op.Init? ==> Nodes(0, op.size) == 0 && Nodes(1, op.size) == op.size
    ensures Nodes(0, q.size) == 0
  {
    MoreNodes(q.blocks, q.size);
  }

  lemma StepBalanced(q: Layout, op: Op)
    requires q.Wf() && Balanced(q) && Apply(q, op).Going?
    ensures Balanced(Apply(q, op).q)
  {
    hide Nodes;
    Growth(q, op);
  }

  /** Over every run, with or without faults of the caller: the two counters share out the nodes of the blocks, and
    * no node is in both chains or in one of them twice. */
  lemma {:induction false} NodesConserved(ops: seq<Op>)
    requires Run(ops).Going?
    ensures Balanced(Run(ops).q)
  {
    hide Apply, Balanced;
    if |ops| == 0 {
      NewBalanced();
    } else {
      NodesConserved(ops[..|ops| - 1]);
      StepBalanced(Run(ops[..|ops| - 1]).q, ops[|ops| - 1]);
    }
  }

  lemma NewBalanced()
    ensures Balanced(NEW)
  {
    hide Nodes;
    Growth(NEW, Pop);
  }

  // ----- the reference

  /** What a first-in first-out queue holds after the same operation, if it takes the pushes that are accepted. */
  function RefStep(q: Layout, r: seq<Pointer>, op: Op): seq<Pointer> {
    match op
    case Init(_, _) => r
    case Push(p, memory) => if q.Accepts(memory) then r + [p] else r
    case Pop => if r == [] then r else r[1..]
    case Clear => []
  }

  function Ref(ops: seq<Op>): seq<Pointer> {
    if |ops| == 0 then []
    else
      var o, r := Run(ops[..|ops| - 1]), Ref(ops[..|ops| - 1]);
      if o.Going? then RefStep(o.q, r, ops[|ops| - 1]) else r
  }

  function First(r: seq<Pointer>): Pointer { if r == [] then NULL else r[0] }

  /** The queue is in step with the reference if that is the chain in use up to the node m_pListEnd points to. */
  predicate InStep(q: Layout, r: seq<Pointer>) {
    q.tail.At? && q.tail.behind <= |q.chain| && r == q.chain[..|q.chain| - q.tail.behind]
  }

  /** A pop that gives the node back to the chain in use, and either m_pListEnd points to that node, or it points
    * behind where the chain is cut off. */
  predicate Spoils(q: Layout) {
    q.chain != [] && q.tail.At? && q.end.InUse? && q.end.at > 0 && !(1 <= |q.chain| - 1 - q.tail.behind <= q.end.at)
  }

  /** Step by step: the only operation that gets the queue out of step is such a pop, and every such pop does. */
  lemma StepInStepIff(q: Layout, r: seq<Pointer>, op: Op)
    requires q.Wf() && InStep(q, r) && Apply(q, op).Going?
    ensures InStep(Apply(q, op).q, RefStep(q, r, op)) <==> !(op.Pop? && Spoils(q))
  {
    match op {
      case Pop => PopInStepIff(q, r);
      case Push(p, memory) => PushInStep(q, r, p, memory);
      case _ =>
    }
  }

  lemma PopInStepIff(q: Layout, r: seq<Pointer>)
    requires q.Wf() && InStep(q, r)
    ensures InStep(q.Pop(), RefStep(q, r, Pop)) <==> !Spoils(q)
  {}

  lemma PushInStep(q: Layout, r: seq<Pointer>, p: Pointer, memory: bool)
    requires q.Wf() && InStep(q, r)
    ensures InStep(q.Push(p, memory), RefStep(q, r, Push(p, memory)))
  {}

  /** None of the pops in a run is such a pop. */
  ghost predicate Unspoilt(ops: seq<Op>) {
    forall i :: 0 <= i < |ops| && ops[i].Pop? && Run(ops[..i]).Going? ==> !Spoils(Run(ops[..i]).q)
  }

  lemma UnspoiltBefore(ops: seq<Op>)
    requires |ops| > 0
    ensures Unspoilt(ops) <==>
      var before, op := ops[..|ops| - 1], ops[|ops| - 1];
      Unspoilt(before) && (op.Pop? && Run(before).Going? ==> !Spoils(Run(before).q))
  {
    hide Run, Spoils;
    var before := ops[..|ops| - 1];
    assert forall i :: 0 <= i < |before| ==> before[..i] == ops[..i] && before[i] == ops[i];
  }

  /** Until there is such a pop, over all runs: the next pop returns what it should, and Size() is right. */
  lemma {:induction false} RightUntilSpoilt(ops: seq<Op>)
    requires Unspoilt(ops) && Run(ops).Going?
    ensures var q := Run(ops).q;
      InStep(q, Ref(ops)) && q.Front() == First(Ref(ops)) && q.using == |Ref(ops)|
  {
    hide Apply, Spoils, Unspoilt;
    if |ops| > 0 {
      var before, op := ops[..|ops| - 1], ops[|ops| - 1];
      UnspoiltBefore(ops);
      RightUntilSpoilt(before);
      StepInStepIff(Run(before).q, Ref(before), op);
      StepCounts(Run(before).q, Ref(before), op);
      InStepFront(Run(ops).q, Ref(ops));
    }
  }

  lemma InStepFront(q: Layout, r: seq<Pointer>)
    requires q.Wf() && InStep(q, r)
    ensures q.Front() == First(r) && (q.chain == [] <==> r == [])
  {}

  lemma StepCounts(q: Layout, r: seq<Pointer>, op: Op)
    requires q.Wf() && InStep(q, r) && q.using == |r| && Apply(q, op).Going?
    ensures Apply(q, op).q.using == |RefStep(q, r, op)|
  {
    InStepFront(q, r);
  }

  // ----- pop after pop

  function Pops(q: Layout, n: nat): (p: Layout)
    requires q.Wf()
    ensures p.Wf()
  {
    if n == 0 then q else Pops(q, n - 1).Pop()
  }

  /** What is popped goes back to the chain in use, behind another node. */
  predicate Rings(q: Layout) { q.end.InUse? && q.end.at > 0 }

  /** If not, pop after pop returns the chain in use in order, and then NULL. */
  lemma {:induction false} PopsDrain(q: Layout, n: nat)
    requires q.Wf() && !Rings(q)
    ensures Pops(q, n).Front() == if n < |q.chain| then q.chain[n] else NULL
  {
    PopsLeave(q, n);
  }

  lemma {:induction false} PopsLeave(q: Layout, n: nat)
    requires q.Wf() && !Rings(q)
    ensures !Rings(Pops(q, n)) && Pops(q, n).chain == if n <= |q.chain| then q.chain[n..] else []
  {
    if n > 0 {
      PopsLeave(q, n - 1);
    }
  }

  /** If it does, the nodes up to that one come out again and again. */
  lemma {:induction false} PopsCycle(q: Layout, n: nat)
    requires q.Wf() && Rings(q)
    ensures Pops(q, n).Front() == q.chain[Modulo(n, q.end.at + 1)]
  {
    PopsTurn(q, n);
  }

  lemma {:induction false} PopsTurn(q: Layout, n: nat)
    requires q.Wf() && Rings(q)
    ensures var ring, k := q.chain[..q.end.at + 1], Modulo(n, q.end.at + 1);
      && Pops(q, n).end == q.end
      && Pops(q, n).chain == if n == 0 then q.chain else ring[k..] + ring[..k]
  {
    hide Layout.Pop, Layout.Wf;
    if n > 0 {
      PopsTurn(q, n - 1);
      EndPlaced(q);
      var ring, j := q.chain[..q.end.at + 1], Modulo(n - 1, q.end.at + 1);
      NextModulo(n - 1, |ring|);
      PopTurns(Pops(q, n - 1));
      if n == 1 {
        assert q.chain[1..|ring|] + [q.chain[0]] == ring[1..] + ring[..1];
      } else {
        NextTurn(ring, j);
      }
    }
  }

  lemma EndPlaced(q: Layout)
    requires q.Wf() && Rings(q)
    ensures q.end.at < |q.chain|
  {}

  lemma PopTurns(q: Layout)
    requires q.Wf() && Rings(q)
    ensures q.Pop().chain == q.chain[1..q.end.at + 1] + [q.chain[0]] && q.Pop().end == q.end
  {}

  /** n modulo m. */
  function Modulo(n: nat, m: nat): (r: nat)
    requires m > 0
    ensures r < m && (n < m ==> r == n)
  {
    if n < m then n else Modulo(n - m, m)
  }

  lemma {:induction false} NextModulo(n: nat, m: nat)
    requires m > 0
    ensures Modulo(n + 1, m) == if Modulo(n, m) + 1 == m then 0 else Modulo(n, m) + 1
  {
    if n >= m {
      NextModulo(n - m, m);
    }
  }

  lemma NextTurn(s: seq<Pointer>, j: nat)
    requires j < |s|
    ensures var t := s[j..] + s[..j];
      t[1..] + [t[0]] == if j + 1 == |s| then s[0..] + s[..0] else s[j + 1..] + s[..j + 1]
  {
    assert (s[j..] + s[..j])[0] == s[j];
  }

  predicate NoNull(s: seq<Pointer>) { forall i :: 0 <= i < |s| ==> s[i] != NULL }

  /** So a queue in step returns what it should, however often it is popped from then on, exactly if it does not
    * ring. */
  lemma PopsRightIff(q: Layout, r: seq<Pointer>)
    requires q.Wf() && InStep(q, r) && NoNull(q.chain)
    ensures !Rings(q) <==> forall n: nat :: Pops(q, n).Front() == if n < |r| then r[n] else NULL
  {
    hide Pops, Layout.Front;
    if Rings(q) {
      PopsCycle(q, |r|);
    } else {
      forall n: nat
        ensures Pops(q, n).Front() == if n < |r| then r[n] else NULL
      {
        PopsDrain(q, n);
      }
    }
  }

  /** And a pop that spoils is found out: when as many pops have followed as should empty the queue, the next one
    * still returns something. */
  lemma SpoiltShows(q: Layout, r: seq<Pointer>)
    requires q.Wf() && InStep(q, r) && NoNull(q.chain) && Spoils(q)
    ensures r != [] && Pops(q.Pop(), |r| - 1).Front() != NULL
  {
    hide Pops, Layout.Front;
    PopTurns(q);
    PopsCycle(q.Pop(), |r| - 1);
  }

  // ----- runs without Clear

  predicate NoClear(ops: seq<Op>) { forall i :: 0 <= i < |ops| ==> !ops[i].Clear? }

  predicate Pointers(ops: seq<Op>) { forall i :: 0 <= i < |ops| && ops[i].Push? ==> ops[i].p != NULL }

  /** Then the queue rings exactly as long as no node is free, and gives back to the end of the chain in use. */
  predicate Plain(q: Layout) {
    && q.tail.At?
    && (q.inited ==>
          && |q.chain| + q.free >= 2
          && if q.free > 0 then q.end == InFree(0) && q.tail == At(0) else q.end == InUse(|q.chain| - 1))
  }

  lemma StepPlain(q: Layout, op: Op)
    requires q.Wf() && Plain(q) && !op.Clear? && Apply(q, op).Going?
    ensures Plain(Apply(q, op).q)
  {}

  /** The push that takes the last free node makes the queue full, and it stays so until a push gets a new block:
    * no pop makes a node free again. */
  lemma FullUntilPush(q: Layout, op: Op)
    requires q.Wf() && Plain(q) && q.inited && !op.Clear? && Apply(q, op).Going?
    ensures Apply(q, op).q.free == 0 <==>
      (q.free == 0 && !(op.Push? && op.memory)) || (q.free == 1 && op.Push?)
  {}

  lemma StepNoNull(q: Layout, op: Op)
    requires q.Wf() && NoNull(q.chain) && (op.Push? ==> op.p != NULL) && Apply(q, op).Going?
    ensures NoNull(Apply(q, op).q.chain)
  {}

  lemma {:induction false} RunPlain(ops: seq<Op>)
    requires NoClear(ops) && Run(ops).Going?
    ensures Plain(Run(ops).q)
  {
    hide Apply, Plain;
    if |ops| == 0 {
      NewPlain();
    } else {
      RunPlain(ops[..|ops| - 1]);
      StepPlain(Run(ops[..|ops| - 1]).q, ops[|ops| - 1]);
    }
  }

  lemma NewPlain()
    ensures Plain(NEW)
  {}

  lemma {:induction false} RunNoNull(ops: seq<Op>)
    requires Pointers(ops) && Run(ops).Going?
    ensures NoNull(Run(ops).q.chain)
  {
    hide Apply;
    if |ops| > 0 {
      RunNoNull(ops[..|ops| - 1]);
      StepNoNull(Run(ops[..|ops| - 1]).q, ops[|ops| - 1]);
    }
  }

  /** No node is free, and the last item is popped. */
  ghost predicate EmptiedAt(ops: seq<Op>, i: nat)
    requires i < |ops|
  {
    ops[i].Pop? && Run(ops[..i]).Going? && Run(ops[..i]).q.free == 0 && |Ref(ops[..i])| == 1
  }

  lemma SpoilsIff(q: Layout, r: seq<Pointer>)
    requires q.Wf() && Plain(q) && InStep(q, r)
    ensures Spoils(q) <==> q.free == 0 && |r| == 1
  {}

  /** After any beginning of the run, the next pop returns what a first-in first-out queue would. */
  ghost predicate AlwaysRight(ops: seq<Op>) {
    forall i :: 0 <= i <= |ops| ==> Run(ops[..i]).Going? && Run(ops[..i]).q.Front() == First(Ref(ops[..i]))
  }

  /** Over all runs without Clear, in which no pointer is NULL: that is so exactly as long as the queue has not been
    * popped empty with no node free. */
  lemma {:induction false} AlwaysRightIff(ops: seq<Op>)
    requires NoClear(ops) && Pointers(ops) && Run(ops).Going?
    ensures AlwaysRight(ops) <==> forall i :: 0 <= i < |ops| ==> !EmptiedAt(ops, i)
  {
    hide Run, Ref, Spoils;
    if |ops| == 0 {
      RightAtFirst();
      assert ops[..0] == [];
    } else {
      var before := ops[..|ops| - 1];
      RunBefore(ops);
      AlwaysRightIff(before);
      assert ops[..|ops|] == ops;
      assert forall i :: 0 <= i < |ops| ==> before[..i] == ops[..i];
      assert forall i :: 0 <= i < |before| ==> (EmptiedAt(ops, i) <==> EmptiedAt(before, i));
      assert AlwaysRight(ops) <==> AlwaysRight(before) && Run(ops).q.Front() == First(Ref(ops));
      if AlwaysRight(before) {
        NeverEmptied(before);
        LastStepIff(ops);
      }
    }
  }

  lemma RunBefore(ops: seq<Op>)
    requires |ops| > 0 && Run(ops).Going?
    ensures Run(ops[..|ops| - 1]).Going?
    ensures var before := ops[..|ops| - 1];
      && Run(ops) == Apply(Run(before).q, ops[|ops| - 1])
      && Ref(ops) == RefStep(Run(before).q, Ref(before), ops[|ops| - 1])
  {}

  lemma RightAtFirst()
    ensures Run([]).Going? && Run([]).q.Front() == First(Ref([]))
  {}

  lemma {:induction false} NeverEmptied(ops: seq<Op>)
    requires NoClear(ops) && Run(ops).Going? && forall i :: 0 <= i < |ops| ==> !EmptiedAt(ops, i)
    ensures Unspoilt(ops)
  {
    hide Run, Ref, Spoils, Plain, InStep;
    if |ops| > 0 {
      var before := ops[..|ops| - 1];
      RunBefore(ops);
      assert forall i :: 0 <= i < |before| ==> before[..i] == ops[..i];
      assert forall i :: 0 <= i < |before| ==> (EmptiedAt(ops, i) <==> EmptiedAt(before, i));
      NeverEmptied(before);
      RightUntilSpoilt(before);
      RunPlain(before);
      SpoilsIff(Run(before).q, Ref(before));
      assert !EmptiedAt(ops, |ops| - 1);
      UnspoiltBefore(ops);
    }
  }

  // one more operation, when all has been right so far
  lemma LastStepIff(ops: seq<Op>)
    requires |ops| > 0 && NoClear(ops) && Pointers(ops) && Run(ops).Going? && Unspoilt(ops[..|ops| - 1])
    ensures Run(ops).q.Front() == First(Ref(ops)) <==> !EmptiedAt(ops, |ops| - 1)
  {
    hide Run, Ref, Unspoilt, Layout.Front, Spoils;
    var before, op := ops[..|ops| - 1], ops[|ops| - 1];
    RunBefore(ops);
    RightUntilSpoilt(before);
    RunPlain(before);
    RunNoNull(before);
    var q, r := Run(before).q, Ref(before);
    SpoilsIff(q, r);
    StepInStepIff(q, r, op);
    if op.Pop? && Spoils(q) {
      SpoiltShows(q, r);
      assert Pops(q.Pop(), 0) == q.Pop();
    } else {
      InStepFront(Run(ops).q, Ref(ops));
    }
  }

  /** A push mends a full queue that has been popped, as long as something was left in it: from then on it returns
    * what it should. The nodes behind m_pListEnd are the price. */
  lemma PushMends(q: Layout, r: seq<Pointer>, p: Pointer)
    requires q.Wf() && Plain(q) && InStep(q, r) && q.free == 0
    ensures InStep(q.Push(p, true), r + [p]) && !Rings(q.Push(p, true))
    ensures q.inited ==> LostNodes(q.Push(p, true)) == LostNodes(q) + q.tail.behind
  {
    hide Nodes;
    Growth(q, Push(p, true));
  }

  /** Nothing else loses a node. */
  lemma LosesIff(q: Layout, op: Op)
    requires q.Wf() && Plain(q) && !op.Clear? && Apply(q, op).Going?
    ensures LostNodes(Apply(q, op).q)
         == LostNodes(q) + if op.Push? && q.inited && q.Accepts(op.memory) then q.tail.behind else 0
  {
    hide Nodes;
    Growth(q, op);
  }

  // ----- the queue as it is meant

  /** Both end pointers are where the chains end, or where the last free node went, and no node is lost. */
  predicate Sound(q: Layout) {
    && LostNodes(q) == 0 && q.tail == At(0)
    && (q.inited ==> if q.free > 0 then q.end == InFree(0) else q.end.InUse? && q.end.at + 1 == |q.chain|)
  }

  /** It stays like that under every operation but a pop when no node is free, and that pop ends it. */
  lemma SoundKeptIff(q: Layout, op: Op)
    requires q.Wf() && Sound(q) && Apply(q, op).Going?
    ensures Sound(Apply(q, op).q) <==> !(op.Pop? && q.chain != [] && q.free == 0)
  {
    hide Nodes;
    Growth(q, op);
    if q.inited {
      Many(q);
    }
  }

  lemma Many(q: Layout)
    requires q.Wf() && LostNodes(q) == 0 && q.inited
    ensures |q.chain| + q.free >= 2
  {
    assert q.blocks * q.size >= 1 * q.size;
  }

  /** That is when the blocks are full to the last node; and a Clear follows a null pointer exactly when there is
    * nothing in use. */
  lemma FullIff(q: Layout)
    requires q.Wf() && Sound(q) && q.inited
    ensures q.free == 0 <==> |q.chain| == q.blocks * q.size
    ensures q.Clear().Faulted? <==> q.chain == []
  {
    Many(q);
  }

  // ----- three runs

  function Pushes(ps: seq<Pointer>): (ops: seq<Op>) {
    seq(|ps|, i requires 0 <= i < |ps| => Push(ps[i], false))
  }

  /** Every block size has such a run: fill the first block, pop as many as were pushed, and the next pop returns
    * the first pointer once more. */
  lemma FillAndPop(size: nat, ps: seq<Pointer>)
    requires size >= 2 && |ps| == size
    ensures var o := Run([Init(size, true)] + Pushes(ps));
      o.Going? && Pops(o.q, size).Front() == ps[0]
  {
    hide Pops, Layout.Front, Run;
    Filled(size, ps);
    PopsCycle(Run([Init(size, true)] + Pushes(ps)).q, size);
  }

  // the first block of a queue, with nothing else done to it yet
  function Filling(size: nat, ps: seq<Pointer>): Layout
    requires size >= 2 && |ps| <= size
  {
    Layout(ps, At(0), size - |ps|, if |ps| < size then InFree(0) else InUse(size - 1),
           |ps|, size - |ps|, 1, size, true)
  }

  lemma {:induction false} Filled(size: nat, ps: seq<Pointer>)
    requires size >= 2 && |ps| <= size
    ensures Run([Init(size, true)] + Pushes(ps)) == Going(Filling(size, ps))
  {
    hide Run, Apply;
    var ops := [Init(size, true)] + Pushes(ps);
    if |ps| == 0 {
      assert ops == [] + [Init(size, true)];
      RunMore([], Init(size, true));
      FirstBlock(size);
    } else {
      var before, p := ps[..|ps| - 1], ps[|ps| - 1];
      Filled(size, before);
      assert ops == ([Init(size, true)] + Pushes(before)) + [Push(p, false)];
      RunMore([Init(size, true)] + Pushes(before), Push(p, false));
      OneMore(size, before, p);
      assert before + [p] == ps;
    }
  }

  lemma FirstBlock(size: nat)
    requires size >= 2
    ensures Run([]) == Going(NEW) && Apply(NEW, Init(size, true)) == Going(Filling(size, []))
  {}

  lemma OneMore(size: nat, ps: seq<Pointer>, p: Pointer)
    requires size >= 2 && |ps| < size
    ensures Filling(size, ps).Wf()
    ensures Apply(Filling(size, ps), Push(p, false)) == Going(Filling(size, ps + [p]))
  {}

  /** Clearing a queue that has been initialised and is empty follows a null pointer. */
  lemma ClearEmpty(size: nat)
    requires size >= 2
    ensures Run([Init(size, true), Clear]) == Faulted
  {
    var ops: seq<Op> := [Init(size, true)];
    assert ops[..0] == [];
    assert Run(ops) == Going(Layout([], At(0), size, InFree(0), 0, size, 1, size, true));
    RunMore(ops, Clear);
    assert ops + [Clear] == [Init(size, true), Clear];
  }

  /** A block of less than two nodes is too small for the links that are written into it. */
  lemma SmallBlock(size: nat)
    ensures Run([Init(size, true)]) == Faulted <==> size < 2
  {
    assert [Init(size, true)][..0] == [];
  }
}
