/** A queue of pointers. Its nodes are carved out of blocks that are never given back; nodes not in use wait in a
  * free chain. Both chains have a head and an end pointer, and nothing keeps the end pointers where the chains
  * end: the model says exactly where they point, whatever has been done to the queue. */
module QueueData {
  import opened NodeChains

  const DEFAULT_SIZE: nat := 10240

  /** Where m_pListEnd points: to a node of the chain in use, with so many behind it, or to a lost one. A node is
    * lost if it is in neither chain. */
  datatype Tail = At(behind: nat) | Off
  {
    // how many of the n nodes in use stay when one is linked behind the pointer
    function Kept(n: nat): (kept: nat)
      ensures kept <= n
    {
      if At? && behind <= n then n - behind else 0
    }

    // the first of n nodes in use is unlinked
    function Unlinked(n: nat): Tail {
      if n == 1 then At(0) else if At? && behind + 1 == n then Off else this
    }

    // a node goes behind number a of the n in use; hit tells that the pointer points to that node
    function Returned(n: nat, a: nat, hit: bool): Tail {
      if hit then At(0) else if At? && behind < n <= a + behind + 1 then At(a + 2 + behind - n) else Off
    }
  }

  /** Where m_pEmptyListEnd points: to a free node, with so many behind it, to a node in use, or to a lost one. */
  datatype End = InFree(behind: nat) | InUse(at: nat) | Gone
  {
    // the first of n free nodes is taken
    function Taken(n: nat): End { if n > 0 && this == InFree(n - 1) then Gone else this }

    // a node is linked behind the first `kept` in use; hit tells that the pointer points to that node
    function Linked(kept: nat, hit: bool): End {
      if hit then InUse(kept) else if InUse? && at >= kept then Gone else this
    }

    // the first node in use is unlinked
    function Unlinked(): End { if !InUse? then this else if at == 0 then Gone else InUse(at - 1) }

    // a node goes behind the one the pointer points to, and becomes the one it points to
    function Returned(): End { if InFree? then InFree(0) else if InUse? then InUse(at + 1) else Gone }

    // of n free nodes, how many stay when something is linked behind the pointer
    function Kept(n: nat): (kept: nat)
      ensures kept <= n
    {
      if InFree? && behind <= n then n - behind else n
    }
  }

  // ----- the queue as a value

  /** What can be reached from the four pointers: the data of the nodes in use, how many nodes are free, and where
    * the end pointers are. The counters are integers, of which the code has the value modulo 2^32. */
  datatype Layout = Layout(chain: seq<Pointer>, tail: Tail, free: nat, end: End,
                           using: int, empty: int, blocks: nat, size: nat, inited: bool)
  {
    /** The end pointers of both chains are somewhere in them, if they are not lost. */
    predicate Placed() {
      && (tail.At? ==> tail.behind == 0 || tail.behind < |chain|)
      && (chain == [] ==> tail == At(0))
      && (end.InFree? ==> end.behind < free)
      && (end.InUse? ==> end.at < |chain|)
    }

    /** m_pListEnd has nodes behind it only if what is given back goes to the end of the chain in use. */
    predicate Wf() {
      && Placed()
      && (tail.At? && tail.behind > 0 ==> end == InUse(|chain| - 1))
      && (if inited then size >= 2 && blocks > 0 else this == Layout([], At(0), 0, Gone, 0, 0, 0, size, false))
    }

    // AllocateMemoryBlock
    function Alloc(): Layout {
      this.(free := free + size, end := InFree(0), empty := empty + size, blocks := blocks + 1)
    }

    function Init(wanted: nat, memory: bool): (o: Outcome)
      requires Wf()
      ensures o.Going? ==> o.q.Wf()
    {
      if inited then Going(this)
      else if !memory then Going(this.(size := wanted))
      else if wanted < 2 then Faulted
      else Going(this.(size := wanted, inited := true).Alloc())
    }

    // m_pEmptyListEnd points to the first free node
    predicate LastFree() { free > 0 && end == InFree(free - 1) }

    // GetNode
    function Take(): (q: Layout)
      requires Placed() && free > 0
      ensures q.Placed()
    {
      this.(free := free - 1, empty := empty - 1, end := end.Taken(free))
    }

    /** The node is linked behind m_pListEnd, and what was behind that is cut off. hit tells that m_pEmptyListEnd
      * points to the new node. */
    function Link(p: Pointer, hit: bool): (q: Layout)
      requires Placed()
      ensures q.Placed() && (q.tail == At(0) || q.tail == Off)
    {
      var kept := tail.Kept(|chain|);
      if tail.Off? then this.(using := using + 1)
      else this.(chain := chain[..kept] + [p], tail := At(0), end := end.Linked(kept, hit), using := using + 1)
    }

    function Add(p: Pointer): (q: Layout)
      requires Placed() && free > 0
      ensures q.Placed() && (q.tail == At(0) || q.tail == Off)
    {
      Take().Link(p, LastFree())
    }

    /** Whether there is a node to be had. */
    predicate Accepts(memory: bool) { (inited && free > 0) || memory }

    /** The first push makes up for a missing Init. */
    function Push(p: Pointer, memory: bool): (q: Layout)
      requires Wf()
      ensures q.Wf()
    {
      if !inited then
        (if memory then this.(size := DEFAULT_SIZE, inited := true).Alloc().Add(p) else this.(size := DEFAULT_SIZE))
      else if free > 0 then Add(p)
      else if memory then Alloc().Add(p)
      else this
    }

    // PopFront up to the call of FreeNode
    function Unlink(): (q: Layout)
      requires Placed() && chain != []
      ensures q.Placed()
    {
      this.(chain := chain[1..], using := using - 1, tail := tail.Unlinked(|chain|), end := end.Unlinked())
    }

    /** FreeNode: the node goes behind m_pEmptyListEnd, and what was behind that is cut off. If it is that node
      * itself, or behind a lost one, it is lost. hit tells that m_pListEnd points to the node. */
    function Return(c: Pointer, hit: bool): (q: Layout)
      requires Placed()
      ensures q.Placed()
    {
      var q := this.(end := end.Returned(), empty := empty + 1);
      match end
      case InFree(_) => q.(free := end.Kept(free) + 1)
      case InUse(a) => q.(chain := chain[..a + 1] + [c], tail := tail.Returned(|chain|, a, hit))
      case Gone => q
    }

    function Front(): Pointer { if chain == [] then NULL else chain[0] }

    function Pop(): (q: Layout)
      requires Wf()
      ensures q.Wf()
    {
      if chain == [] then this else Unlink().Return(chain[0], tail == At(|chain| - 1))
    }

    function Clear(): (o: Outcome)
      requires Wf()
      ensures o.Going? ==> o.q.Wf()
    {
      var joined := free == 0 || end.InFree?;
      if free > 0 && chain == [] then Faulted
      else Going(this.(chain := [], tail := At(0), using := 0, empty := empty + using,
                       free := if joined then end.Kept(free) + |chain| else free,
                       end := if joined && chain != [] && tail.At? then InFree(tail.behind) else Gone))
    }
  }

  /** Faulted: the code writes through a null pointer, or outside a block. */
  datatype Outcome = Going(q: Layout) | Faulted

  const NEW := Layout([], At(0), 0, Gone, 0, 0, 0, DEFAULT_SIZE, false)

  // ----- where the pointers are among the nodes

  /** A node of a block that is in neither chain. */
  ghost predicate Lost(n: Node?, us: seq<Node>, fs: seq<Node>, all: set<Node>) {
    n != null && n in all && n !in us && n !in fs
  }

  ghost predicate TailAt(p: Node?, t: Tail, us: seq<Node>, fs: seq<Node>, all: set<Node>) {
    match t
    case At(z) => if us == [] then z == 0 && p == null else z < |us| && p == us[|us| - 1 - z]
    case Off => us != [] && Lost(p, us, fs, all)
  }

  ghost predicate EndAt(p: Node?, e: End, us: seq<Node>, fs: seq<Node>, all: set<Node>) {
    match e
    case InFree(b) => b < |fs| && p == fs[|fs| - 1 - b]
    case InUse(a) => a < |us| && p == us[a]
    case Gone => Lost(p, us, fs, all) || (p == null && us == [] && fs == [])
  }

  /** The four pointers of the queue, and its nodes: those in use, those that are free, and all of the blocks. */
  datatype Places = Places(head: Node?, last: Node?, emptyHead: Node?, emptyEnd: Node?, tail: Tail, end: End,
                           us: seq<Node>, fs: seq<Node>, all: set<Node>)
  {
    /** The nodes in use and the free nodes are different nodes of the blocks, and the pointers are where tail and
      * end say. */
    ghost predicate Right() {
      && Distinct(us) && Distinct(fs) && Apart(us, fs) && Within(us, all) && Within(fs, all)
      && head == (if us == [] then null else us[0]) && emptyHead == (if fs == [] then null else fs[0])
      && TailAt(last, tail, us, fs, all) && EndAt(emptyEnd, end, us, fs, all)
    }

    function Extended(block: seq<Node>, more: set<Node>): Places
      requires |block| > 0
    {
      this.(emptyHead := (fs + block)[0], emptyEnd := block[|block| - 1], end := InFree(0),
            fs := fs + block, all := all + more)
    }

    function Taken(): Places
      requires fs != []
    {
      this.(emptyHead := if |fs| > 1 then fs[1] else null, fs := fs[1..], end := end.Taken(|fs|))
    }

    function Linked(n: Node): Places {
      var kept := tail.Kept(|us|);
      if tail.Off? then this.(last := n)
      else this.(head := if us == [] then n else head, last := n, tail := At(0), us := us[..kept] + [n],
                 end := end.Linked(kept, emptyEnd == n))
    }

    function Unlinked(): Places
      requires us != []
    {
      this.(head := if |us| > 1 then us[1] else null, last := if |us| > 1 then last else null, us := us[1..],
            tail := tail.Unlinked(|us|), end := end.Unlinked())
    }

    function Returned(n: Node): Places {
      var w := this.(emptyEnd := n, end := end.Returned());
      match end
      case InFree(_) => w.(fs := fs[..end.Kept(|fs|)] + [n])
      case InUse(a) =>
        if a < |us| then w.(us := us[..a + 1] + [n], tail := tail.Returned(|us|, a, last == n)) else this
      case Gone => w
    }

    function Cleared(): Places {
      var joined := fs == [] || end.InFree?;
      Places(null, null, if fs == [] then head else emptyHead, last, At(0),
             if joined && us != [] && tail.At? then InFree(tail.behind) else Gone,
             [], if joined then fs[..end.Kept(|fs|)] + us else fs, all)
    }
  }

  lemma ExtendedRight(w: Places, block: seq<Node>, more: set<Node>)
    requires w.Right() && Distinct(block) && |block| > 0 && forall i :: 0 <= i < |block| ==> block[i] !in w.all
    requires forall n :: n in more <==> n in block
    ensures w.Extended(block, more).Right()
  {
    var fs' := w.fs + block;
    assert forall i :: 0 <= i < |fs'| ==> fs'[i] == if i < |w.fs| then w.fs[i] else block[i - |w.fs|];
  }

  lemma TakenRight(w: Places)
    requires w.Right() && w.fs != []
    ensures w.Taken().Right() && Lost(w.fs[0], w.us, w.fs[1..], w.all) && w.emptyEnd != null
    ensures w.emptyEnd == w.fs[0] <==> w.end == InFree(|w.fs| - 1)
  {
    assert forall i :: 0 <= i < |w.fs| - 1 ==> w.fs[1..][i] == w.fs[i + 1];
    assert w.fs[0] !in w.us;
    assert w.emptyEnd in w.us ==> w.emptyEnd != w.fs[0];
  }

  lemma LinkedRight(w: Places, n: Node)
    requires w.Right() && Lost(n, w.us, w.fs, w.all) && w.emptyEnd != null
    ensures w.Linked(n).Right()
  {}

  lemma UnlinkedRight(w: Places)
    requires w.Right() && w.us != []
    ensures w.Unlinked().Right() && Lost(w.us[0], w.us[1..], w.fs, w.all) && w.emptyEnd != null
    ensures w.last == w.us[0] <==> w.tail == At(|w.us| - 1)
  {
    assert forall i :: 0 <= i < |w.us| - 1 ==> w.us[1..][i] == w.us[i + 1];
    assert w.us[0] !in w.fs;
  }

  lemma ReturnedRight(w: Places, n: Node)
    requires w.Right() && Lost(n, w.us, w.fs, w.all) && w.emptyEnd != null && (w.end.InFree? ==> w.last != n)
    ensures w.Returned(n).Right()
  {}

  lemma ClearedRight(w: Places)
    requires w.Right() && (w.fs != [] ==> w.us != [])
    ensures w.Cleared().Right()
  {
    if w.us != [] && w.tail.At? {
      assert w.last in w.us;
    }
  }

  // ----- the queue

  function Nodes(blocks: nat, size: nat): nat { blocks * size }

  lemma MoreNodes(blocks: nat, size: nat)
    ensures Nodes(blocks + 1, size) == Nodes(blocks, size) + size
  {}

  class Queue {
    var listHead: Node?
    var listEnd: Node?
    var emptyHead: Node?
    var emptyEnd: Node?
    var usingNodes: int
    var emptyNodes: int
    var blocks: nat
    var initSize: nat
    var inited: bool

    // the nodes in use, the free nodes, all nodes of all blocks, and where the end pointers are
    ghost var inUse: seq<Node>
    ghost var free: seq<Node>
    ghost var carved: set<Node>
    ghost var tail: Tail
    ghost var end: End

    ghost function View(): Places
      reads this
    {
      Places(listHead, listEnd, emptyHead, emptyEnd, tail, end, inUse, free, carved)
    }

    ghost function Value(): Layout
      reads this, inUse
    {
      Layout(DataOf(inUse), tail, |free|, end, usingNodes, emptyNodes, blocks, initSize, inited)
    }

    /** Both chains are doubly linked. */
    ghost predicate Chains()
      reads this`inUse, this`free, inUse, free
    {
      Chain(inUse) && Chain(free)
    }

    ghost predicate Linked()
      reads this, inUse, free
    {
      Chains() && View().Right() && |carved| == Nodes(blocks, initSize)
    }

    /** What every operation keeps. */
    ghost predicate Valid()
      reads this, inUse, free
    {
      Linked() && Value().Wf()
    }

    constructor ()
      ensures Valid() && Value() == NEW && carved == {}
    {
      listHead, listEnd, emptyHead, emptyEnd := null, null, null, null;
      usingNodes, emptyNodes, blocks, inited, initSize := 0, 0, 0, false, DEFAULT_SIZE;
      inUse, free, carved, tail, end := [], [], {}, At(0), Gone;
    }

    /** As many nodes are lost as the chains do not have; and if none is, every node of every block is in exactly
      * one of them. */
    lemma NodesShared()
      requires Valid()
      ensures |inUse| + |free| <= blocks * initSize == |carved|
      ensures |inUse| + |free| == |carved| ==> forall n :: n in carved ==> (n in inUse <==> n !in free)
    {
      SharedOut(inUse, free, carved);
    }

    lemma Carved()
      requires View().Right()
      ensures listEnd != null ==> listEnd in carved
      ensures emptyEnd != null ==> emptyEnd in carved
      ensures Within(inUse, carved) && Within(free, carved)
    {}

    lemma Heads()
      requires View().Right()
      ensures listHead == (if inUse == [] then null else inUse[0])
      ensures emptyHead == (if free == [] then null else free[0])
      ensures Apart(inUse, free) && Apart(free, inUse) && Within(inUse, carved) && Within(free, carved)
    {}

    // the nodes are now as w says
    ghost method Move(w: Places)
      requires Chain(w.us) && Chain(w.fs)
      modifies this`inUse, this`free, this`tail, this`end
      ensures inUse == w.us && free == w.fs && tail == w.tail && end == w.end
      ensures Chains() && DataOf(inUse) == old(DataOf(w.us))
    {
      hide Chain, DataOf;
      inUse, free, tail, end := w.us, w.fs, w.tail, w.end;
    }

    /** memory tells whether the heap can serve the block, fault that the block is too small for its links. */
    method AllocateMemoryBlock(memory: bool) returns (ret: int, fault: bool)
      requires Linked() && (free != [] ==> end == InFree(0))
      modifies this`emptyHead, this`emptyEnd, this`emptyNodes, this`blocks
      modifies this`inUse, this`free, this`carved, this`tail, this`end, free
      ensures Linked() && (fault <==> memory && initSize < 2)
      ensures ret == if memory && !fault then 0 else -1
      ensures Value() == if ret == 0 then old(Value()).Alloc() else old(Value())
      ensures forall n :: n in carved ==> n in old(carved) || fresh(n)
      ensures inUse == old(inUse) && tail == old(tail) && (ret != 0 ==> unchanged(this))
    {
      hide Chain, Distinct, Places.Right, DataOf;
      ret, fault := -1, false;
      if !memory {
        return;
      }
      if initSize < 2 {
        fault := true;
        return;
      }
      Heads();
      var block := NewBlock(initSize, carved);
      FreshApart(block, inUse, free, carved);
      var last := LinkBlock(block);
      assert DataOf(inUse) == old(DataOf(inUse));
      ExtendFree(block[0], last, block);
      ret := 0;
    }

    method ExtendFree(first: Node, last: Node, ghost block: seq<Node>)
      requires Linked() && (free != [] ==> end == InFree(0))
      requires Chain(block) && |block| == initSize > 0 && first == block[0] && last == block[|block| - 1]
      requires forall i :: 0 <= i < |block| ==> block[i] !in carved
      modifies this`emptyHead, this`emptyEnd, this`emptyNodes, this`blocks
      modifies this`inUse, this`free, this`carved, this`tail, this`end, free, block
      ensures Linked() && inUse == old(inUse) && free == old(free) + block && Value() == old(Value()).Alloc()
      ensures forall n :: n in carved ==> n in old(carved) || n in block
    {
      hide Chain, Places.Right, DataOf, Nodes;
      MoreNodes(blocks, initSize);
      ghost var more := CountBlock(block);
      ghost var w := View().Extended(block, more);
      JoinFree(first, last, block);
      CountIn(w);
      assert View() == w;
    }

    method CountIn(ghost w: Places)
      requires Chain(w.us) && Chain(w.fs)
      modifies this`emptyNodes, this`blocks, this`inUse, this`free, this`carved, this`tail, this`end
      ensures blocks == old(blocks) + 1 && emptyNodes == old(emptyNodes) + initSize && carved == w.all
      ensures inUse == w.us && free == w.fs && tail == w.tail && end == w.end
      ensures Chains() && DataOf(inUse) == old(DataOf(w.us))
    {
      hide Chain, DataOf;
      Move(w);
      blocks := blocks + 1;
      emptyNodes := emptyNodes + initSize;
      carved := w.all;
    }

    lemma CountBlock(block: seq<Node>) returns (more: set<Node>)
      requires View().Right() && Chain(block) && |block| > 0
      requires forall i :: 0 <= i < |block| ==> block[i] !in carved
      ensures |carved + more| == |carved| + |block| && View().Extended(block, more).Right()
      ensures forall n :: n in more <==> n in block
    {
      hide Links, Places.Right;
      more := CountSet(block);
      assert more !! carved;
      ExtendedRight(View(), block, more);
    }

    // links the block behind the free nodes
    method JoinFree(first: Node, last: Node, ghost block: seq<Node>)
      requires Chains() && View().Right() && (free != [] ==> end == InFree(0))
      requires Chain(block) && |block| > 0 && first == block[0] && last == block[|block| - 1]
      requires forall i :: 0 <= i < |block| ==> block[i] !in carved
      modifies this`emptyHead, this`emptyEnd, free, block
      ensures Chain(inUse) && Chain(free + block) && DataOf(inUse) == old(DataOf(inUse))
      ensures emptyHead == (free + block)[0] && emptyEnd == last
    {
      hide DataOf, Links, Distinct;
      FreshApart(block, inUse, free, carved);
      if emptyHead == null {
        emptyHead := first;
        assert free + block == block;
      } else {
        FirstPrev(block);
        Attach(emptyEnd, first, free, |free| - 1, block, inUse);
        assert Joint(free, |free| - 1, block) == free + block;
      }
      emptyEnd := last;
    }

    /** A block of less than two nodes is too small. */
    method Init(size: nat, memory: bool) returns (ret: int, fault: bool)
      requires Valid()
      modifies this, carved
      ensures !fault ==> Valid() && (ret == 0 <==> inited)
      ensures old(Value()).Init(size, memory) == if fault then Faulted else Going(Value())
      ensures forall n :: n in carved ==> n in old(carved) || fresh(n)
    {
      hide Chain, Places.Right, DataOf;
      fault := false;
      if inited {
        return 0, false;
      }
      Carved();
      initSize := size;
      ret, fault := AllocateMemoryBlock(memory);
      if ret == 0 {
        inited := true;
      }
    }

    /** Takes the first free node, from a new block if there is none. */
    method GetNode(memory: bool) returns (n: Node?)
      requires Valid()
      modifies this`emptyHead, this`emptyEnd, this`emptyNodes, this`blocks
      modifies this`inUse, this`free, this`carved, this`tail, this`end, carved
      ensures n != null <==> inited && (old(free) != [] || memory)
      ensures n == null ==> unchanged(this) && Valid() && Value() == old(Value())
      ensures n != null ==>
        && Linked() && Lost(n, inUse, free, carved) && n.next == null && n.prev == null && emptyEnd != null
        && n in carved
      ensures n != null ==>
        var q := if old(free) != [] then old(Value()) else old(Value()).Alloc();
        && q.Placed() && q.free > 0 && Value() == q.Take()
        && (emptyEnd == n <==> q.LastFree())
      ensures forall n :: n in carved ==> n in old(carved) || fresh(n)
    {
      hide Chain, Places.Right, DataOf, Lost, Nodes;
      if !inited {
        return null;
      }
      Heads();
      if emptyHead == null {
        var ret, fault := AllocateMemoryBlock(memory);
        if ret != 0 {
          return null;
        }
      }
      Heads();
      n := TakeFree();
    }

    method TakeFree() returns (n: Node)
      requires Linked() && Value().Placed() && free != []
      modifies this`emptyHead, this`emptyNodes, this`inUse, this`free, this`tail, this`end, free
      ensures free == old(free)[1..] && inUse == old(inUse) && tail == old(tail) && emptyEnd != null && n in carved
      ensures Linked() && Lost(n, inUse, free, carved) && n.next == null && n.prev == null
      ensures Value() == old(Value()).Take() && (emptyEnd == n <==> old(Value()).LastFree())
    {
      hide Chain, Places.Right, Apart, DataOf, Lost, Nodes;
      Heads();
      TakenRight(View());
      ghost var w := View().Taken();
      n := emptyHead;
      emptyHead := Unhook(n, free, inUse);
      emptyNodes := emptyNodes - 1;
      Move(w);
      assert View() == w;
    }

    /** ok tells whether there was a node to put p in. */
    method Push(p: Pointer, memory: bool) returns (ok: bool)
      requires Valid()
      modifies this, carved
      ensures Valid() && Value() == old(Value()).Push(p, memory)
      ensures ok == old(Value()).Accepts(memory) && (ok <==> (old(inited) && old(free) != []) || memory)
    {
      hide Chain, Places.Right, DataOf, Lost, Nodes;
      if !inited {
        var ret, fault := Init(DEFAULT_SIZE, memory);
        if ret != 0 {
          return false;
        }
      }
      Carved();
      var n := GetNode(memory);
      if n == null {
        return false;
      }
      Carved();
      assert listEnd != null ==> listEnd in old(carved) || fresh(listEnd);
      assert n in old(carved) || fresh(n);
      Append(n, p);
      ok := true;
    }

    // puts a node that was free behind m_pListEnd
    method Append(n: Node, p: Pointer)
      requires Linked() && Value().Placed()
      requires Lost(n, inUse, free, carved) && n.next == null && n.prev == null && emptyEnd != null
      modifies this`listHead, this`listEnd, this`usingNodes, this`inUse, this`free, this`tail, this`end
      modifies n, if listEnd == null then {} else {listEnd}
      ensures Linked() && Value() == old(Value()).Link(p, emptyEnd == n)
    {
      hide Chain, Places.Right, DataOf, Lost, Nodes;
      LinkedRight(View(), n);
      ghost var w := View().Linked(n);
      LinkLast(n, p);
      usingNodes := usingNodes + 1;
      Move(w);
      assert View() == w;
    }

    // the place of m_pListEnd in the chain, or the length of the chain if it is lost
    ghost function LastAt(): nat
      reads this`inUse, this`tail
    {
      if tail.At? && tail.behind < |inUse| then |inUse| - 1 - tail.behind else |inUse|
    }

    lemma WhereLast(n: Node)
      requires View().Right() && Lost(n, inUse, free, carved)
      ensures Distinct([n]) && Apart(inUse, [n]) && Apart(free, [n]) && n !in inUse && n !in free
      ensures listHead == if inUse == [] then null else inUse[0]
      ensures listEnd == null <==> inUse == []
      ensures listEnd != null ==>
        listEnd !in free && if LastAt() < |inUse| then listEnd == inUse[LastAt()] else listEnd !in inUse
      ensures View().Linked(n).us == if inUse == [] then [n] else Joint(inUse, LastAt(), [n])
      ensures View().Linked(n).head == View().Linked(n).us[0]
      ensures inUse == [] ==> !tail.Off?
      ensures inUse != [] && !tail.Off? ==> LastAt() + 1 == tail.Kept(|inUse|)
    {}

    method LinkLast(n: Node, p: Pointer)
      requires Chain(inUse) && Chain(free) && View().Right()
      requires Lost(n, inUse, free, carved) && n.next == null && n.prev == null
      modifies this`listHead, this`listEnd, n, if listEnd == null then {} else {listEnd}
      ensures var w := old(View()).Linked(n);
        && Chain(w.us) && Chain(free) && listHead == w.head && listEnd == n
        && DataOf(w.us) == if tail.Off? then old(DataOf(inUse)) else old(DataOf(inUse))[..tail.Kept(|inUse|)] + [p]
    {
      hide Places.Right, Places.Linked, Lost, Apart, Distinct, Tail.Kept;
      WhereLast(n);
      n.data := p;
      if listEnd != null {
        Attach(listEnd, n, inUse, LastAt(), [n], free);
        listEnd := n;
      } else {
        listEnd := n;
        listHead := n;
      }
    }

    method Front() returns (p: Pointer)
      requires Valid()
      ensures p == Value().Front()
    {
      p := if listHead != null then listHead.data else NULL;
    }

    /** Takes the first node out of the chain in use and gives it back, wherever m_pEmptyListEnd points: to the end
      * of the free chain, as it should, or to where it comes out again, or is lost. */
    method PopFront() returns (p: Pointer)
      requires Valid()
      modifies this, carved
      ensures Valid() && Value() == old(Value()).Pop()
      ensures p == old(Value()).Front()
    {
      hide Chain, Places.Right, DataOf, Lost, Nodes;
      p := NULL;
      Heads();
      Carved();
      if listHead != null {
        var n := listHead;
        Remove(n);
        p := n.data;
        FreeNode(n);
      }
    }

    // unlinks the first node in use
    method Remove(n: Node)
      requires Linked() && Value().Placed() && inUse != [] && n == inUse[0]
      modifies this`listHead, this`listEnd, this`usingNodes, this`inUse, this`free, this`tail, this`end, inUse`prev
      ensures Linked() && Lost(n, inUse, free, carved) && emptyEnd != null
      ensures Value() == old(Value()).Unlink() && n.data == old(Value()).chain[0]
      ensures inUse != [] ==> (listEnd == n <==> old(tail == At(|inUse| - 1)))
      ensures inUse == [] ==> listEnd != n
    {
      hide Chain, Places.Right, DataOf, Lost, Nodes;
      UnlinkedRight(View());
      ghost var w := View().Unlinked();
      DetachFirst(n);
      usingNodes := usingNodes - 1;
      Move(w);
      assert View() == w;
    }

    method DetachFirst(n: Node)
      requires Chains() && View().Right() && inUse != [] && n == inUse[0]
      modifies this`listHead, this`listEnd, inUse`prev
      ensures Chain(inUse[1..]) && Chain(free) && DataOf(inUse[1..]) == old(DataOf(inUse))[1..]
      ensures n.data == old(DataOf(inUse))[0]
      ensures listHead == old(View()).Unlinked().head && listEnd == old(View()).Unlinked().last
    {
      hide Chain, Places.Right, Apart, DataOf;
      Heads();
      DataFirst(inUse);
      var rest := Detach(n, inUse, free);
      if rest == null {
        listHead, listEnd := null, null;
      } else {
        listHead := rest;
      }
    }

    // the chain in which m_pEmptyListEnd points to a node, the other one, and the place of the node
    ghost function Holding(): seq<Node>
      reads this`inUse, this`free, this`end
    {
      if end.InFree? then free else inUse
    }

    ghost function Other(): seq<Node>
      reads this`inUse, this`free, this`end
    {
      if end.InFree? then inUse else free
    }

    ghost function EndPlace(): nat
      reads this`inUse, this`free, this`end
    {
      match end
      case InFree(b) => if b < |free| then |free| - 1 - b else |free|
      case InUse(a) => a
      case Gone => |inUse|
    }

    lemma WhereEnd(n: Node)
      requires View().Right() && Lost(n, inUse, free, carved) && emptyEnd != null
      ensures Apart(inUse, [n]) && Apart(free, [n]) && Distinct([n]) && n !in inUse && n !in free
      ensures emptyEnd !in Other()
      ensures if EndPlace() < |Holding()| then emptyEnd == Holding()[EndPlace()] else emptyEnd !in Holding()
      ensures end.InFree? || end.InUse? ==> EndPlace() < |Holding()|
      ensures end.InUse? ==> EndPlace() == end.at
      ensures end.Gone? ==> EndPlace() == |Holding()|
      ensures View().Returned(n).us == if end.InFree? then inUse else Joint(inUse, EndPlace(), [n])
      ensures View().Returned(n).fs == if end.InFree? then Joint(free, EndPlace(), [n]) else free
    {}

    /** Gives a node back, behind m_pEmptyListEnd. */
    method FreeNode(n: Node)
      requires Linked() && Value().Placed() && Lost(n, inUse, free, carved) && (end.InFree? ==> listEnd != n)
      modifies this`emptyHead, this`emptyEnd, this`emptyNodes, this`free, this`inUse, this`tail, this`end
      modifies n`next, n`prev, (if emptyEnd == null then {} else {emptyEnd})`next
      ensures old(emptyEnd) != null ==> Linked() && Value() == old(Value()).Return(n.data, listEnd == n)
      ensures old(emptyEnd) == null ==> emptyHead == n && emptyEnd == null && n.next == null && n.prev == null
    {
      hide Chain, Places.Right, Places.Returned, Layout.Return, Layout.Placed, DataOf, Lost, Nodes;
      ghost var w := View().Returned(n);
      if emptyEnd != null {
        ReturnedRight(View(), n);
        ReturnAgrees(n);
        LinkBack(n, w);
        Move(w);
      } else {
        emptyHead := n;
        n.next, n.prev := null, null;
      }
      emptyNodes := emptyNodes + 1;
      assert old(emptyEnd) != null ==> View() == w;
    }

    lemma ReturnAgrees(n: Node)
      requires View().Right() && Value().Placed() && emptyEnd != null
      ensures end.InUse? ==> end.at < |inUse|
      ensures var w := View().Returned(n);
        && w == View().(emptyEnd := n, us := w.us, fs := w.fs, tail := w.tail, end := w.end)
        && Value().Return(n.data, listEnd == n)
           == Value().(chain := if end.InUse? then DataOf(inUse)[..end.at + 1] + [n.data] else DataOf(inUse),
                       tail := w.tail, free := |w.fs|, end := w.end, empty := emptyNodes + 1)
    {
      hide Distinct, Apart, Within, TailAt, DataOf;
    }

    method LinkBack(n: Node, ghost w: Places)
      requires Chains() && View().Right() && Lost(n, inUse, free, carved) && emptyEnd != null
      requires w == View().Returned(n)
      modifies this`emptyEnd, n`next, n`prev, emptyEnd`next
      ensures emptyEnd == n
      ensures Chain(w.us) && Chain(w.fs) && (end.InUse? ==> end.at < |inUse|)
      ensures DataOf(w.us) == if end.InUse? then old(DataOf(inUse))[..end.at + 1] + [n.data] else old(DataOf(inUse))
    {
      hide Places.Right, Places.Returned, Lost, Apart, Distinct, DataOf;
      WhereEnd(n);
      n.next := null;
      DataFirst([n]);
      Attach(emptyEnd, n, Holding(), EndPlace(), [n], Other());
      emptyEnd := n;
    }

    /** fault tells that the source would write through a null pointer. */
    method Clear() returns (fault: bool)
      requires Valid()
      modifies this, carved
      ensures !fault ==> Valid()
      ensures old(Value()).Clear() == if fault then Faulted else Going(Value())
    {
      hide Chain, Places.Right, Places.Cleared, Layout.Clear, DataOf, Lost, Nodes;
      fault := false;
      Heads();
      Carved();
      ClearAgrees();
      ghost var w := View().Cleared();
      if emptyHead == null {
        emptyHead := listHead;
      } else {
        if listHead == null {
          return true;
        }
        JoinUsed(w);
      }
      emptyEnd := listEnd;
      listHead, listEnd := null, null;
      emptyNodes := emptyNodes + usingNodes;
      usingNodes := 0;
      ApartNone(free);
      Move(w);
      assert View() == w;
    }

    lemma ClearAgrees()
      requires Valid()
      ensures Value().Clear().Faulted? <==> free != [] && inUse == []
      ensures free == [] || inUse != [] ==>
        var w := View().Cleared();
        && w.Right()
        && w == Places(null, null, if free == [] then listHead else emptyHead, listEnd, w.tail, w.end, [], w.fs, carved)
        && (free == [] ==> w.fs == inUse)
        && Value().Clear() == Going(Value().(chain := [], tail := w.tail, free := |w.fs|, end := w.end,
                                             using := 0, empty := emptyNodes + usingNodes))
    {
      hide Chain, Places.Right;
      if free == [] || inUse != [] {
        ClearedRight(View());
      }
    }

    // links the nodes in use behind m_pEmptyListEnd
    method JoinUsed(ghost w: Places)
      requires Chains() && View().Right() && inUse != [] && free != [] && w == View().Cleared()
      modifies carved
      ensures Chain(w.fs)
    {
      hide Links, DataOf;
      ghost var k := if end.InFree? then |free| - 1 - end.behind else |free|;
      FirstPrev(inUse);
      Attach(emptyEnd, listHead, free, k, inUse, []);
    }
  }
}
