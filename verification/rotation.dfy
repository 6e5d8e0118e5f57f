/** The circular player generator (`_get_circular_iterations`). */
module Rotation {
  import opened Arith

  /** Index of the player the generator yields `k`-th when started at `start`. */
  function SeatIndex(n: nat, start: nat, k: nat): (i: nat)
    requires start < n
    ensures i < n
  {
    (start + k) % n
  }

  /** Stepping a position by one steps its seat by one, wrapping at `n`. */
  lemma ModSucc(x: nat, n: nat)
    requires n >= 1
    ensures (x + 1) % n == if x % n == n - 1 then 0 else x % n + 1
  {
    var q := x / n;
    assert x == q * n + x % n;
    if x % n == n - 1 {
      assert x + 1 == (q + 1) * n + 0;
      DivModUnique(x + 1, n, q + 1, 0);
    } else {
      DivModUnique(x + 1, n, q, x % n + 1);
    }
  }

  /** The player yielded after the `k`-th sits immediately after it in
      seating order (wrapping from the last seat to the first). */
  lemma {:induction false} NextSeat(n: nat, start: nat, k: nat)
    requires start < n
    ensures SeatIndex(n, start, k + 1) == (SeatIndex(n, start, k) + 1) % n
  {
    var x := start + k;
    ModSucc(x, n);
    if x % n == n - 1 {
      DivModUnique(x % n + 1, n, 1, 0);
    } else {
      DivModUnique(x % n + 1, n, 0, x % n + 1);
    }
  }

  /** Within `n` consecutive yields, starting anywhere, every seat comes up. */
  lemma {:induction false} EverySeatInLap(n: nat, start: nat, from: nat, j: nat)
    requires start < n && j < n
    ensures exists k :: from <= k < from + n && SeatIndex(n, start, k) == j
  {
    var base := (start + from) % n;
    var q := (start + from) / n;
    assert start + from == q * n + base;
    if j >= base {
      var k := from + (j - base);
      DivModUnique(start + k, n, q, j);
      assert SeatIndex(n, start, k) == j;
    } else {
      var k := from + (j + n - base);
      assert start + k == (q + 1) * n + j;
      DivModUnique(start + k, n, q + 1, j);
      assert SeatIndex(n, start, k) == j;
    }
  }

  /** Two yields fewer than `n` apart come from different seats. */
  lemma {:induction false} SeatsDistinctInLap(n: nat, start: nat, k1: nat, k2: nat)
    requires start < n && k1 < k2 < k1 + n
    ensures SeatIndex(n, start, k1) != SeatIndex(n, start, k2)
  {
    var a, d := start + k1, k2 - k1;
    var qa, ra := a / n, a % n;
    assert a == qa * n + ra;
    if ra + d < n {
      DivModUnique(a + d, n, qa, ra + d);
    } else {
      assert a + d == (qa + 1) * n + (ra + d - n);
      DivModUnique(a + d, n, qa + 1, ra + d - n);
    }
  }

  /** The first `count` values the generator yields for a start index drawn
      as `start`: the run from `start` to the end of the list, then from the
      beginning up to `start`, repeated. */
  method CircularYields<T>(players: seq<T>, start: nat, count: nat) returns (ys: seq<T>)
    requires start < |players|
    ensures |ys| == count
    ensures forall k :: 0 <= k < count ==> ys[k] == players[SeatIndex(|players|, start, k)]
  {
    var n := |players|;
    ys := [];
    while |ys| < count
      invariant |ys| <= count
      invariant |ys| < count ==> (start + |ys|) % n == start
      invariant forall k :: 0 <= k < |ys| ==> ys[k] == players[SeatIndex(n, start, k)]
      decreases count - |ys|
    {
      ghost var lapStart := |ys|;
      var i := start;
      while i < n && |ys| < count
        invariant start <= i <= n
        invariant |ys| <= count
        invariant |ys| == lapStart + (i - start)
        invariant (start + |ys|) % n == if i == n then 0 else i
        invariant forall k :: 0 <= k < |ys| ==> ys[k] == players[SeatIndex(n, start, k)]
      {
        ModSucc(start + |ys|, n);
        ys := ys + [players[i]];
        i := i + 1;
      }
      if |ys| < count {
        i := 0;
        while i < start && |ys| < count
          invariant 0 <= i <= start
          invariant |ys| <= count
          invariant |ys| > lapStart
          invariant (start + |ys|) % n == i
          invariant forall k :: 0 <= k < |ys| ==> ys[k] == players[SeatIndex(n, start, k)]
        {
          ModSucc(start + |ys|, n);
          ys := ys + [players[i]];
          i := i + 1;
        }
      }
    }
  }
}
