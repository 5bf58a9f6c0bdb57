/** The ring allreduce shared by the three allreduce miniapps under
    aurora.mpich.miniapps/src/allreduce: neighbour arithmetic, the
    parity-ordered send/receive pair of `SendRecvRing`, and the
    accumulate-and-shift loop, as a sequential simulation of all ranks.
    Every element of a rank's arrays holds the same value, so one value per
    array and rank stands for the whole array. */
module Ring {
  import opened Common

  // ---------------------------------------------------------------------------
  // Neighbours
  // ---------------------------------------------------------------------------

  /** The right neighbour, `r + 1` wrapping to 0. */
  function Right(r: nat, n: nat): (x: nat)
    requires r < n
    ensures x < n
  {
    if r == n - 1 then 0 else r + 1
  }

  /** The left neighbour, `r - 1` wrapping to `n - 1`. */
  function Left(r: nat, n: nat): (x: nat)
    requires r < n
    ensures x < n
  {
    if r == 0 then n - 1 else r - 1
  }

  /** The neighbours are the miniapps' `(rank + 1 + size) % size` and
      `(rank - 1 + size) % size`; the operands are never negative, so C++'s
      `%` and Dafny's agree. */
  lemma NeighbourFormulas(r: nat, n: nat)
    requires r < n
    ensures Right(r, n) == (r + 1 + n) % n
    ensures Left(r, n) == (r - 1 + n) % n
  {
    DivModUnique(r + 1 + n, n, if r == n - 1 then 2 else 1, Right(r, n));
    DivModUnique(r - 1 + n, n, if r == 0 then 0 else 1, Left(r, n));
  }

  lemma NeighboursInverse(r: nat, n: nat)
    requires r < n
    ensures Left(Right(r, n), n) == r && Right(Left(r, n), n) == r
  {
  }

  // ---------------------------------------------------------------------------
  // SendRecvRing: the communication pattern of one round
  // ---------------------------------------------------------------------------

  datatype Op = Send(to: nat, tag: nat) | Recv(from: nat, tag: nat)

  /** Odd ranks send right with tag 0 and then receive from the left with
      tag 1; even ranks receive from the left with tag 0 and then send right
      with tag 1. */
  function Program(r: nat, n: nat): (p: seq<Op>)
    requires r < n
    ensures |p| == 2
    ensures r % 2 == 1 <==> p[0].Send?
    ensures p[0].Send? ==> p[0] == Send(Right(r, n), 0) && p[1] == Recv(Left(r, n), 1)
    ensures p[0].Recv? ==> p[0] == Recv(Left(r, n), 0) && p[1] == Send(Right(r, n), 1)
  {
    if r % 2 == 1 then [Send(Right(r, n), 0), Recv(Left(r, n), 1)]
    else [Recv(Left(r, n), 0), Send(Right(r, n), 1)]
  }

  /** Every receive of rank `r` has a send with the same tag, addressed to
      `r`, in the program of the rank it receives from. */
  predicate RecvMatched(r: nat, n: nat)
    requires r < n
  {
    forall i :: 0 <= i < 2 && Program(r, n)[i].Recv? ==>
      var from := Program(r, n)[i].from;
      from < n && Send(r, Program(r, n)[i].tag) in Program(from, n)
  }

  predicate AllMatched(n: nat)
  {
    forall r :: 0 <= r < n ==> RecvMatched(r, n)
  }

  /** Tags match exactly for even sizes: then both neighbours of every rank
      have the other parity. */
  lemma AllMatchedIffEven(n: nat)
    requires n >= 1
    ensures AllMatched(n) <==> n % 2 == 0
  {
    if n % 2 == 0 {
      forall r | 0 <= r < n
        ensures RecvMatched(r, n)
      {
        NeighboursInverse(r, n);
        var l := Left(r, n);
        assert l % 2 != r % 2;
        assert Program(l, n)[if r % 2 == 1 then 1 else 0] == Send(r, if r % 2 == 1 then 1 else 0);
      }
    } else {
      OddSizeUnmatched(n);
    }
  }

  /** With an odd size rank 0 first waits for a tag-0 message from rank
      `n - 1`, whose only send carries tag 1: rank 0 never gets past its
      receive, so the round never completes. */
  lemma OddSizeUnmatched(n: nat)
    requires n >= 1 && n % 2 == 1
    ensures Program(0, n)[0] == Recv(n - 1, 0)
    ensures Send(0, 0) !in Program(n - 1, n)
    ensures !RecvMatched(0, n)
  {
    assert (n - 1) % 2 == 0;
    assert Program(n - 1, n) == [Recv(Left(n - 1, n), 0), Send(0, 1)];
  }

  /** The order in which an even ring completes: first every odd rank's send
      meets its right neighbour's first receive, then every even rank's send
      meets its right neighbour's second receive. Each rank takes part in one
      pair per phase. */
  lemma EvenRingSchedule(n: nat, r: nat)
    requires n >= 2 && n % 2 == 0 && r < n
    ensures r % 2 == 1 ==> Program(r, n)[0] == Send(Right(r, n), 0) &&
                           Program(Right(r, n), n)[0] == Recv(r, 0)
    ensures r % 2 == 0 ==> Program(r, n)[1] == Send(Right(r, n), 1) &&
                           Program(Right(r, n), n)[1] == Recv(r, 1)
  {
    NeighboursInverse(r, n);
    assert Right(r, n) % 2 != r % 2;
  }

  // ---------------------------------------------------------------------------
  // The accumulate-and-shift loop
  // ---------------------------------------------------------------------------

  /** The three arrays of a rank: `VA` (current block), `VB` (receive
      buffer) and `VC` (result). */
  datatype RankState = RankState(va: int, vb: int, vc: int)

  /** `Initialize`: `VA = VB = rank`, `VC = 0`. */
  function InitialStates(n: nat): (s: seq<RankState>)
    ensures |s| == n
    ensures forall r :: 0 <= r < n ==> s[r] == RankState(r, r, 0)
  {
    seq(n, r requires 0 <= r < n => RankState(r, r, 0))
  }

  /** `Accumulate`: `VC += VA` on every rank. */
  function Accumulate(s: seq<RankState>): (t: seq<RankState>)
    ensures |t| == |s|
  {
    seq(|s|, r requires 0 <= r < |s| => s[r].(vc := s[r].vc + s[r].va))
  }

  /** `SendRecvRing` then `std::swap(VA, VB)`: every rank receives its left
      neighbour's `VA` into `VB`, then the two pointers trade places. */
  function Shift(s: seq<RankState>): (t: seq<RankState>)
    ensures |t| == |s|
  {
    seq(|s|, r requires 0 <= r < |s| => RankState(s[Left(r, |s|)].va, s[r].va, s[r].vc))
  }

  /** The states after the first accumulate and `rounds` iterations of the
      loop. */
  function RingAfter(init: seq<RankState>, rounds: nat): (s: seq<RankState>)
    ensures |s| == |init|
  {
    if rounds == 0 then Accumulate(init)
    else Accumulate(Shift(RingAfter(init, rounds - 1)))
  }

  /** What `MPI_Allreduce` with `MPI_SUM` leaves in `VC`: the sum of every
      rank's `VA`, replacing (not added to) the rank's own `VC`. */
  function Collective(init: seq<RankState>): (s: seq<RankState>)
    ensures |s| == |init|
    ensures forall r :: 0 <= r < |init| ==> s[r].vc == Values(init, |init|)
  {
    seq(|init|, r requires 0 <= r < |init| => init[r].(vc := Values(init, |init|)))
  }

  /** Sum of the first `k` ranks' `VA`. */
  function Values(init: seq<RankState>, k: nat): int
    requires k <= |init|
  {
    if k == 0 then 0 else Values(init, k - 1) + init[k - 1].va
  }

  /** The rank `s` places to the left of `r` on a ring of `n`. */
  function Behind(r: nat, s: nat, n: nat): (x: nat)
    requires r < n && s < n
    ensures x < n
  {
    if s <= r then r - s else r + n - s
  }

  /** It is the cyclic difference `(r - s) mod n`. */
  lemma BehindIsMod(r: nat, s: nat, n: nat)
    requires r < n && s < n
    ensures Behind(r, s, n) == (r - s) % n
  {
    if s <= r {
      DivModUnique(r - s, n, 0, r - s);
    } else {
      DivModUnique(r - s, n, -1, r + n - s);
    }
  }

  /** Sum of the initial `VA` of the ranks `r, r - 1, ..., r - s` (cyclically). */
  function Window(init: seq<RankState>, r: nat, s: nat): int
    requires r < |init| && s < |init|
  {
    (if s == 0 then 0 else Window(init, r, s - 1)) + init[Behind(r, s, |init|)].va
  }

  /** After round `s` rank `r` holds the block that started on rank
      `s` places to its left, and has accumulated every block it has held. */
  lemma {:induction false} RingInvariant(init: seq<RankState>, rounds: nat, r: nat)
    requires r < |init| && rounds < |init|
    ensures RingAfter(init, rounds)[r].va == init[Behind(r, rounds, |init|)].va
    ensures RingAfter(init, rounds)[r].vc == init[r].vc + Window(init, r, rounds)
  {
    var n := |init|;
    if rounds > 0 {
      var l := Left(r, n);
      RingInvariant(init, rounds - 1, l);
      RingInvariant(init, rounds - 1, r);
      RoundStep(init, rounds, r);
      assert Behind(l, rounds - 1, n) == Behind(r, rounds, n);
    }
  }

  /** One iteration of the loop as seen by rank `r`. */
  lemma RoundStep(init: seq<RankState>, rounds: nat, r: nat)
    requires r < |init| && 0 < rounds
    ensures var prev := RingAfter(init, rounds - 1);
            var l := Left(r, |init|);
            RingAfter(init, rounds)[r] == RankState(prev[l].va, prev[r].va, prev[r].vc + prev[l].va)
  {
    var prev := RingAfter(init, rounds - 1);
    var sh := Shift(prev);
    assert RingAfter(init, rounds) == Accumulate(sh);
  }

  /** Sum of `init[lo..hi]`'s `VA`, from the front. */
  function RangeSum(init: seq<RankState>, lo: nat, hi: nat): int
    requires lo <= hi <= |init|
    decreases hi - lo
  {
    if lo == hi then 0 else init[lo].va + RangeSum(init, lo + 1, hi)
  }

  lemma {:induction false} RangeSumSnoc(init: seq<RankState>, lo: nat, hi: nat)
    requires lo < hi <= |init|
    ensures RangeSum(init, lo, hi) == RangeSum(init, lo, hi - 1) + init[hi - 1].va
    decreases hi - lo
  {
    if lo < hi - 1 {
      RangeSumSnoc(init, lo + 1, hi);
    }
  }

  lemma {:induction false} RangeSumIsValues(init: seq<RankState>, k: nat)
    requires k <= |init|
    ensures RangeSum(init, 0, k) == Values(init, k)
  {
    if k > 0 {
      RangeSumIsValues(init, k - 1);
      RangeSumSnoc(init, 0, k);
    }
  }

  lemma {:induction false} RangeSumSplit(init: seq<RankState>, lo: nat, mid: nat, hi: nat)
    requires lo <= mid <= hi <= |init|
    ensures RangeSum(init, lo, hi) == RangeSum(init, lo, mid) + RangeSum(init, mid, hi)
    decreases mid - lo
  {
    if lo < mid {
      RangeSumSplit(init, lo + 1, mid, hi);
    }
  }

  /** The window read as two ordinary ranges: first the ranks `r - s .. r`,
      and once it wraps past rank 0, the ranks `0 .. r` plus the tail
      `n - (s - r) .. n - 1`. */
  lemma {:induction false} WindowRanges(init: seq<RankState>, r: nat, s: nat)
    requires r < |init| && s < |init|
    ensures s <= r ==> Window(init, r, s) == RangeSum(init, r - s, r + 1)
    ensures s > r ==> Window(init, r, s) == RangeSum(init, 0, r + 1) + RangeSum(init, |init| - (s - r), |init|)
  {
    var n := |init|;
    if s > 0 {
      WindowRanges(init, r, s - 1);
      if s - 1 == r {
        assert RangeSum(init, n - 1, n) == init[n - 1].va;
      }
    }
  }

  /** A window of the whole ring covers every rank once. */
  lemma WindowCoversAll(init: seq<RankState>, r: nat)
    requires r < |init|
    ensures Window(init, r, |init| - 1) == Values(init, |init|)
  {
    var n := |init|;
    WindowRanges(init, r, n - 1);
    RangeSumIsValues(init, n);
    if r < n - 1 {
      RangeSumSplit(init, 0, r + 1, n);
    }
  }

  /** After `size - 1` rounds every rank has added every rank's block once. */
  lemma RingSumsAll(init: seq<RankState>, r: nat)
    requires r < |init|
    ensures RingAfter(init, |init| - 1)[r].vc == init[r].vc + Values(init, |init|)
  {
    RingInvariant(init, |init| - 1, r);
    WindowCoversAll(init, r);
  }

  /** From `Initialize`'s values every rank ends with `size (size - 1) / 2`,
      the value the miniapps assert, and the ring leaves the same `VC` as the
      collective. */
  lemma RingResult(n: nat, r: nat)
    requires r < n
    ensures RingAfter(InitialStates(n), n - 1)[r].vc == n * (n - 1) / 2
    ensures RingAfter(InitialStates(n), n - 1)[r].vc == Collective(InitialStates(n))[r].vc
  {
    var init := InitialStates(n);
    RankSum(init, n);
    RingSumsAll(init, r);
  }

  lemma {:induction false} RankSum(init: seq<RankState>, k: nat)
    requires k <= |init| && forall r :: 0 <= r < |init| ==> init[r].va == r
    ensures Values(init, k) == k * (k - 1) / 2
  {
    TwiceRankSum(init, k);
    DivModUnique(k * (k - 1), 2, Values(init, k), 0);
  }

  lemma {:induction false} TwiceRankSum(init: seq<RankState>, k: nat)
    requires k <= |init| && forall r :: 0 <= r < |init| ==> init[r].va == r
    ensures 2 * Values(init, k) == k * (k - 1)
  {
    if k > 0 {
      TwiceRankSum(init, k - 1);
      var a := k - 1;
      assert a * (a - 1) + 2 * a == (a + 1) * a;
    }
  }
}
