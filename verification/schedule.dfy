/** The round schedule of a session (`_generate_sets`). */
module Schedules {

  /** A round name: a numeric hand size, the blind round or the no-trump round. */
  datatype RoundName = Num(cards: nat) | BR | NTR

  /** `36 // players_number`, the hand size of the peak round. */
  function Peak(n: nat): nat
    requires n >= 1
  {
    36 / n
  }

  /** Number of rounds in each of the ascending and descending runs
      (`range(2, m)` and `range(m - 1, 1, -1)`). */
  function Climb(n: nat): nat
    requires n >= 1
  {
    if Peak(n) >= 2 then Peak(n) - 2 else 0
  }

  function Repeat(x: RoundName, k: nat): seq<RoundName> {
    seq(k, i => x)
  }

  /** `[str(k) for k in range(lo, hi)]` */
  function Ascending(lo: nat, hi: int): seq<RoundName>
    decreases hi - lo
  {
    if lo >= hi then [] else [Num(lo)] + Ascending(lo + 1, hi)
  }

  /** `[str(k) for k in range(hi, lo - 1, -1)]` */
  function Descending(hi: int, lo: nat): seq<RoundName>
    decreases hi - lo
  {
    if hi < lo then [] else [Num(hi)] + Descending(hi - 1, lo)
  }

  /** `_generate_sets(n)`: the seven runs of the session, in order. Every
      session has at least the five runs of `n` rounds, opens with a
      one-card round and closes with a no-trump round. */
  function Schedule(n: nat): (r: seq<RoundName>)
    requires n >= 1
    ensures |r| >= 5 * n
    ensures r[0] == Num(1) && r[|r| - 1] == NTR
  {
    var m := Peak(n);
    Repeat(Num(1), n)
    + Ascending(2, m)
    + Repeat(Num(m), n)
    + Descending(m - 1, 2)
    + Repeat(Num(1), n)
    + Repeat(BR, n)
    + Repeat(NTR, n)
  }

  /** Reference definition: the name of the round at position `i`, read off
      the seven runs by position alone. */
  function RoundAt(n: nat, i: nat): RoundName
    requires n >= 1
  {
    var c := Climb(n);
    if i < n then Num(1)
    else if i < n + c then Num(i - n + 2)
    else if i < 2 * n + c then Num(Peak(n))
    else if i < 2 * n + 2 * c then Num(Peak(n) - 1 - (i - 2 * n - c))
    else if i < 3 * n + 2 * c then Num(1)
    else if i < 4 * n + 2 * c then BR
    else NTR
  }

  lemma {:induction false} AscendingAt(lo: nat, hi: int)
    ensures |Ascending(lo, hi)| == if lo >= hi then 0 else hi - lo
    ensures forall i :: 0 <= i < |Ascending(lo, hi)| ==> Ascending(lo, hi)[i] == Num(lo + i)
    decreases hi - lo
  {
    if lo < hi {
      AscendingAt(lo + 1, hi);
    }
  }

  lemma {:induction false} DescendingAt(hi: int, lo: nat)
    ensures |Descending(hi, lo)| == if hi < lo then 0 else hi - lo + 1
    ensures forall i :: 0 <= i < |Descending(hi, lo)| ==> Descending(hi, lo)[i] == Num(hi - i)
    decreases hi - lo
  {
    if hi >= lo {
      DescendingAt(hi - 1, lo);
    }
  }

  /** The schedule has `5n + 2(m - 2)` rounds (the climbing runs are empty
      once `m < 2`). */
  lemma ScheduleLength(n: nat)
    requires n >= 1
    ensures |Schedule(n)| == 5 * n + 2 * Climb(n)
    ensures 2 <= n <= 18 ==> |Schedule(n)| == 5 * n + 2 * (Peak(n) - 2)
  {
    AscendingAt(2, Peak(n));
    DescendingAt(Peak(n) - 1, 2);
  }

  /** Every position of the schedule agrees with the reference definition. */
  lemma ScheduleMatchesRoundAt(n: nat)
    requires n >= 1
    ensures |Schedule(n)| == 5 * n + 2 * Climb(n)
    ensures forall i :: 0 <= i < |Schedule(n)| ==> Schedule(n)[i] == RoundAt(n, i)
  {
    var m := Peak(n);
    var c := Climb(n);
    AscendingAt(2, m);
    DescendingAt(m as int - 1, 2);
    var s := Schedule(n);
    var a := Repeat(Num(1), n);
    var b := a + Ascending(2, m);
    var p := b + Repeat(Num(m), n);
    var d := p + Descending(m as int - 1, 2);
    var e := d + Repeat(Num(1), n);
    var f := e + Repeat(BR, n);
    assert s == f + Repeat(NTR, n);
    forall i | 0 <= i < |s|
      ensures s[i] == RoundAt(n, i)
    {
      if i < |f| {
        assert s[i] == f[i];
        if i < |e| {
          assert f[i] == e[i];
          if i < |d| {
            assert e[i] == d[i];
            if i < |p| {
              assert d[i] == p[i];
              if i < |b| {
                assert p[i] == b[i];
                if i < |a| {
                  assert b[i] == a[i];
                } else {
                  assert b[i] == Ascending(2, m)[i - n];
                }
              }
            } else {
              assert d[i] == Descending(m - 1, 2)[i - |p|];
            }
          }
        }
      }
    }
  }

  /** The ascending run: positions `n .. n + c`. */
  function AscendingRun(n: nat): seq<RoundName>
    requires n >= 1
    requires |Schedule(n)| == 5 * n + 2 * Climb(n)
  {
    Schedule(n)[n .. n + Climb(n)]
  }

  /** The descending run: positions `2n + c .. 2n + 2c`. */
  function DescendingRun(n: nat): seq<RoundName>
    requires n >= 1
    requires |Schedule(n)| == 5 * n + 2 * Climb(n)
  {
    Schedule(n)[2 * n + Climb(n) .. 2 * n + 2 * Climb(n)]
  }

  function Reverse<T>(s: seq<T>): (r: seq<T>)
    ensures |r| == |s|
  {
    seq(|s|, i requires 0 <= i < |s| => s[|s| - 1 - i])
  }

  /** Shape of the schedule: the climb is strictly increasing from 2 to m - 1,
      the descent is the climb reversed, it is flanked by `n` peak rounds,
      and the session closes with `n` blind rounds then `n` no-trump rounds. */
  lemma ScheduleShape(n: nat)
    requires n >= 1
    ensures |Schedule(n)| == 5 * n + 2 * Climb(n)
    ensures forall i, j :: 0 <= i < j < Climb(n) ==>
              AscendingRun(n)[i].Num? && AscendingRun(n)[j].Num? &&
              AscendingRun(n)[i].cards < AscendingRun(n)[j].cards
    ensures forall i :: 0 <= i < Climb(n) ==> AscendingRun(n)[i] == Num(i + 2)
    ensures DescendingRun(n) == Reverse(AscendingRun(n))
    ensures forall i :: 0 <= i < n ==> Schedule(n)[i] == Num(1)
    ensures forall i :: n + Climb(n) <= i < 2 * n + Climb(n) ==> Schedule(n)[i] == Num(Peak(n))
    ensures forall i :: 2 * n + 2 * Climb(n) <= i < 3 * n + 2 * Climb(n) ==> Schedule(n)[i] == Num(1)
    ensures forall i :: |Schedule(n)| - 2 * n <= i < |Schedule(n)| - n ==> Schedule(n)[i] == BR
    ensures forall i :: |Schedule(n)| - n <= i < |Schedule(n)| ==> Schedule(n)[i] == NTR
  {
    ScheduleMatchesRoundAt(n);
    var s := Schedule(n);
    var c := Climb(n);
    forall i | 0 <= i < c
      ensures AscendingRun(n)[i] == Num(i + 2)
    {
      assert AscendingRun(n)[i] == s[n + i];
    }
    forall i | 0 <= i < c
      ensures DescendingRun(n)[i] == Reverse(AscendingRun(n))[i]
    {
      assert DescendingRun(n)[i] == s[2 * n + c + i];
      assert Reverse(AscendingRun(n))[i] == s[n + c - 1 - i];
    }
  }

  /** With at most 36 players every numeric round name lies in `[1, m]`. */
  lemma ScheduleNamesInRange(n: nat)
    requires 1 <= n <= 36
    ensures forall i :: 0 <= i < |Schedule(n)| && Schedule(n)[i].Num? ==>
              1 <= Schedule(n)[i].cards <= Peak(n)
  {
    ScheduleMatchesRoundAt(n);
  }

  lemma FourPlayerRuns()
    ensures Schedule(4) == Repeat(Num(1), 4) + Ascending(2, 9) + Repeat(Num(9), 4)
                           + Descending(8, 2) + Repeat(Num(1), 4) + Repeat(BR, 4) + Repeat(NTR, 4)
  {
    assert Peak(4) == 9;
  }

  lemma FourPlayerLiterals()
    ensures Repeat(Num(1), 4) == [Num(1), Num(1), Num(1), Num(1)]
    ensures Repeat(Num(9), 4) == [Num(9), Num(9), Num(9), Num(9)]
    ensures Repeat(BR, 4) == [BR, BR, BR, BR]
    ensures Repeat(NTR, 4) == [NTR, NTR, NTR, NTR]
    ensures Ascending(2, 9) == [Num(2), Num(3), Num(4), Num(5), Num(6), Num(7), Num(8)]
    ensures Descending(8, 2) == [Num(8), Num(7), Num(6), Num(5), Num(4), Num(3), Num(2)]
  {
    AscendingAt(2, 9);
    DescendingAt(8, 2);
  }

  /** The four-player schedule, written out: 34 rounds. */
  lemma ScheduleForFour()
    ensures Schedule(4) ==
      [Num(1), Num(1), Num(1), Num(1), Num(2), Num(3), Num(4), Num(5), Num(6),
       Num(7), Num(8), Num(9), Num(9), Num(9), Num(9), Num(8), Num(7), Num(6),
       Num(5), Num(4), Num(3), Num(2), Num(1), Num(1), Num(1), Num(1),
       BR, BR, BR, BR, NTR, NTR, NTR, NTR]
  {
    FourPlayerRuns();
    FourPlayerLiterals();
  }
}
