/** A non-blocking stream socket. What the kernel answers is not known beforehand: every call consumes one
  * entry of an arbitrary script, and a socket whose script has run out answers EAGAIN. */
module Sockets {
  import opened LittleEndian

  datatype Outcome = Moved(n: nat) | Again | Interrupted | PeerReset | Failed | PeerClosed

  datatype Errno = EAGAIN | EINTR | ECONNRESET | OTHER

  function Min(a: nat, b: nat): nat { if a < b then a else b }

  function Max(a: nat, b: nat): nat { if a < b then b else a }

  // the socket can be used again, and the answer was not EAGAIN
  predicate Calm(o: Outcome) { o.Moved? || o.Interrupted? }

  // the socket has broken
  predicate Hard(o: Outcome) { o.PeerReset? || o.Failed? || o.PeerClosed? }

  /** The entries of the script that have been used up between two states of it. */
  function Used(before: seq<Outcome>, after: seq<Outcome>): (used: seq<Outcome>)
    ensures |after| <= |before| ==> |used| == |before| - |after|
  {
    if |after| <= |before| then before[..|before| - |after|] else []
  }

  predicate Consumed(before: seq<Outcome>, after: seq<Outcome>) {
    |after| <= |before| && after == before[|before| - |after|..]
  }

  predicate AllCalm(os: seq<Outcome>) { forall i :: 0 <= i < |os| ==> Calm(os[i]) }

  /** All is calm up to the last entry used, which is as asked for. */
  predicate EndsWith(os: seq<Outcome>, last: set<Outcome>) {
    |os| > 0 && AllCalm(os[..|os| - 1]) && os[|os| - 1] in last
  }

  /** The call that used these entries came to an end with EAGAIN: from the script, or because it has run out. */
  predicate DriedUp(used: seq<Outcome>, rest: seq<Outcome>) {
    EndsWith(used, {Again}) || (AllCalm(used) && rest == [])
  }

  ghost predicate HardIn(os: seq<Outcome>) { exists i :: 0 <= i < |os| && Hard(os[i]) }

  lemma OneUsed(script: seq<Outcome>, before: seq<Outcome>)
    requires Consumed(script, before)
    ensures before == [] ==> Consumed(script, [])
    ensures before != [] ==>
      Consumed(script, before[1..]) && Used(script, before[1..]) == Used(script, before) + [before[0]]
  {}

  lemma NoneUsed(script: seq<Outcome>)
    ensures Consumed(script, script) && Used(script, script) == []
    ensures AllCalm([])
  {}

  lemma Ends(used: seq<Outcome>, o: Outcome)
    requires AllCalm(used)
    ensures Calm(o) ==> AllCalm(used + [o])
    ensures forall last :: o in last ==> EndsWith(used + [o], last)
  {
    assert (used + [o])[..|used|] == used;
  }

  /** A socket that only moves bytes, asks to wait or is interrupted does not break. */
  lemma NeverHard(before: seq<Outcome>, after: seq<Outcome>)
    requires forall i :: 0 <= i < |before| ==> !Hard(before[i])
    ensures !HardIn(Used(before, after))
  {}

  lemma HardInMore(a: seq<Outcome>, b: seq<Outcome>)
    ensures HardIn(a + b) <==> HardIn(a) || HardIn(b)
  {
    if i :| 0 <= i < |a| && Hard(a[i]) {
      assert Hard((a + b)[i]);
    }
    if i :| 0 <= i < |b| && Hard(b[i]) {
      assert Hard((a + b)[|a| + i]);
    }
  }

  lemma UsedMore(a: seq<Outcome>, b: seq<Outcome>, c: seq<Outcome>)
    requires Consumed(a, b) && Consumed(b, c)
    ensures Consumed(a, c) && Used(a, c) == Used(a, b) + Used(b, c)
  {}

  class Socket {
    var script: seq<Outcome>
    // bytes the peer has sent and recv has not returned yet, and bytes send has accepted
    var incoming: seq<byte>
    var wire: seq<byte>

    constructor (script: seq<Outcome>, incoming: seq<byte>)
      ensures this.script == script && this.incoming == incoming && wire == []
    {
      this.script, this.incoming, wire := script, incoming, [];
    }

    // what the next call will answer
    function Next(): Outcome
      reads this`script
    {
      if script == [] then Again else script[0]
    }

    method NextOutcome() returns (o: Outcome)
      modifies this`script
      ensures o == old(Next())
      ensures script == if old(script) == [] then [] else old(script)[1..]
    {
      o := Next();
      if script != [] {
        script := script[1..];
      }
    }

    /** r > 0: that many leading bytes of data are on the wire; 0: closed by the peer; -1: see e. */
    method Send(data: seq<byte>) returns (r: int, e: Errno)
      requires |data| > 0
      modifies this`script, this`wire
      ensures -1 <= r <= |data|
      ensures wire == old(wire) + if r > 0 then data[..r] else []
      ensures script == if old(script) == [] then [] else old(script)[1..]
      ensures match old(Next())
        case Moved(n) => r == Max(1, Min(n, |data|))
        case Again => r == -1 && e == EAGAIN
        case Interrupted => r == -1 && e == EINTR
        case PeerReset => r == -1 && e == ECONNRESET
        case Failed => r == -1 && e == OTHER
        case PeerClosed => r == 0
    {
      var o := NextOutcome();
      e := OTHER;
      match o {
        case Moved(n) =>
          r := Max(1, Min(n, |data|));
          wire := wire + data[..r];
        case Again => r, e := -1, EAGAIN;
        case Interrupted => r, e := -1, EINTR;
        case PeerReset => r, e := -1, ECONNRESET;
        case Failed => r := -1;
        case PeerClosed => r := 0;
      }
    }

    /** r > 0: that many leading bytes of the incoming stream, returned as data; else as for Send. */
    method Recv(max: nat) returns (r: int, e: Errno, data: seq<byte>)
      requires max > 0
      modifies this`script, this`incoming
      ensures -1 <= r <= max
      ensures |data| == (if r > 0 then r else 0) && old(incoming) == data + incoming
      ensures script == if old(script) == [] then [] else old(script)[1..]
      ensures match old(Next())
        case Moved(n) =>
          if old(incoming) == [] then r == -1 && e == EAGAIN
          else r == Max(1, Min(n, Min(max, |old(incoming)|)))
        case Again => r == -1 && e == EAGAIN
        case Interrupted => r == -1 && e == EINTR
        case PeerReset => r == -1 && e == ECONNRESET
        case Failed => r == -1 && e == OTHER
        case PeerClosed => r == 0
    {
      var o := NextOutcome();
      e, data := OTHER, [];
      match o {
        case Moved(n) =>
          if |incoming| == 0 {
            r, e := -1, EAGAIN;
          } else {
            r := Max(1, Min(n, Min(max, |incoming|)));
            data, incoming := incoming[..r], incoming[r..];
          }
        case Again => r, e := -1, EAGAIN;
        case Interrupted => r, e := -1, EINTR;
        case PeerReset => r, e := -1, ECONNRESET;
        case Failed => r := -1;
        case PeerClosed => r := 0;
      }
    }
  }
}
