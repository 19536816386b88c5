/** Sequences of waiting threads, as the three queue locks log them, and sums over all threads. */
module Waiters {

  lemma IndexOf(q: seq<nat>, t: nat) returns (k: nat)
    requires t in q
    ensures k < |q| && q[k] == t
  {
    k :| 0 <= k < |q| && q[k] == t;
  }

  /** The first one goes from the queue to those that are done. */
  lemma Shift(done: seq<nat>, q: seq<nat>)
    requires |q| > 0
    ensures (done + [q[0]]) + q[1..] == done + q
  {}

  // ----- sums over the threads

  function Sum(ws: seq<nat>): nat {
    if |ws| == 0 then 0 else Sum(ws[..|ws| - 1]) + ws[|ws| - 1]
  }

  lemma {:induction false} SumChange(ws: seq<nat>, t: nat, w: nat)
    requires t < |ws|
    ensures Sum(ws[t := w]) == Sum(ws) - ws[t] + w
  {
    var k := |ws| - 1;
    if t < k {
      assert ws[t := w][..k] == ws[..k][t := w];
      SumChange(ws[..k], t, w);
    } else {
      assert ws[t := w][..k] == ws[..k];
    }
  }
}
