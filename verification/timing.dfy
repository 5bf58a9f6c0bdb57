/** How the benchmark loops turn clock readings into the numbers the verdict
    uses. The readings are inputs (the clock is not modelled): per repetition,
    the whole-loop time and, in serial mode, every command's own time.
    `bench` of concurency/bench_sycl.cpp, concurency/bench_omp.cpp,
    concurency/sycl_con.cpp and concurency/omp_con.cpp keeps the best total
    and every command's best time; `bench` of concurency/omp_con_meta.cpp and
    concurency/faster.cpp keeps the best total and the slowest command of the
    repetition that set it. */
module Timing {
  import opened Common

  /** `NUM_REPETION` of the two earlier drivers. */
  const META_REPETITIONS: nat := 2
  const FASTER_REPETITIONS: nat := 8

  /** Minimum of `LONG_MAX` and the values of `s`: a running `std::min` that
      starts at `std::numeric_limits<long>::max()`. */
  function MinOf(s: seq<int>): (m: int)
    ensures m <= LONG_MAX
    ensures forall k :: 0 <= k < |s| ==> m <= s[k]
    ensures m == LONG_MAX || exists k :: 0 <= k < |s| && s[k] == m
  {
    if |s| == 0 then LONG_MAX
    else
      var n := |s| - 1;
      var m := MinOf(s[..n]);
      assert forall k :: 0 <= k < n ==> s[..n][k] == s[k];
      Min(m, s[n])
  }

  lemma MinOfBounds(s: seq<Micros>)
    ensures 0 <= MinOf(s) <= LONG_MAX
  {
    if MinOf(s) != LONG_MAX {
      var k :| 0 <= k < |s| && s[k] == MinOf(s);
    }
  }

  /** Column `i` of the per-repetition command times. */
  function Column(rows: seq<seq<Micros>>, i: nat): (c: seq<int>)
    requires forall r :: 0 <= r < |rows| ==> i < |rows[r]|
    ensures |c| == |rows|
    ensures forall r :: 0 <= r < |rows| ==> c[r] == rows[r][i]
  {
    seq(|rows|, r requires 0 <= r < |rows| => rows[r][i] as int)
  }

  predicate Rectangular(rows: seq<seq<Micros>>, width: nat)
  {
    forall r :: 0 <= r < |rows| ==> |rows[r]| == width
  }

  /** Every command's best time over all repetitions. */
  function BestPerCommand(rows: seq<seq<Micros>>, width: nat): (t: seq<int>)
    requires Rectangular(rows, width)
    ensures |t| == width
    ensures forall i :: 0 <= i < width ==> t[i] == MinOf(Column(rows, i))
  {
    seq(width, i requires 0 <= i < width => MinOf(Column(rows, i)))
  }

  /** The pair `bench` returns: the best total, replaced in serial mode by the
      sum of the per-command bests when that is smaller, and the per-command
      bests (an empty vector outside serial mode). */
  datatype BenchResult = BenchResult(total: int, times: seq<int>)

  function BenchSpec(serial: bool, totals: seq<Micros>, rows: seq<seq<Micros>>, width: nat): (r: BenchResult)
    requires |rows| == |totals| && Rectangular(rows, width)
  {
    if serial then
      var t := BestPerCommand(rows, width);
      BenchResult(Min(MinOf(totals), LongAccumulate(t)), t)
    else BenchResult(MinOf(totals), [])
  }

  /** `std::accumulate(times.begin(), times.end(), 0L)`: a left-to-right sum
      in `long`, every partial sum wrapped around on overflow. */
  function LongAccumulate(s: seq<int>): int
  {
    if |s| == 0 then 0 else WrapLong(LongAccumulate(s[..|s| - 1]) + s[|s| - 1])
  }

  /** Wrapping each partial sum is wrapping the exact sum once. */
  lemma {:induction false} LongAccumulateWraps(s: seq<int>)
    ensures LongAccumulate(s) == WrapLong(Sum(s))
  {
    if |s| > 0 {
      var front := s[..|s| - 1];
      LongAccumulateWraps(front);
      WrapLongAdd(Sum(front), s[|s| - 1]);
    }
  }

  /** With no repetition every kept command time is still `LONG_MAX`, and
      their sum overflows: two commands in serial mode report a total of -2
      microseconds. */
  lemma ZeroRepetitionsOverflow()
    ensures BestPerCommand([], 2) == [LONG_MAX, LONG_MAX]
    ensures BenchSpec(true, [], [], 2).total == -2
  {
    var t := BestPerCommand([], 2);
    assert t[0] == LONG_MAX && t[1] == LONG_MAX;
    assert t == [LONG_MAX, LONG_MAX];
    assert LongAccumulate(t[..1]) == LONG_MAX by {
      assert t[..1][..0] == [];
    }
    var v := LONG_MAX + LONG_MAX;
    DivModUnique(v - LONG_MIN, SIZE_T_MODULUS, 1, LONG_MAX - 1);
    assert LongAccumulate(t) == WrapLong(v);
  }

  /** The repetition loop of `bench`, reading the clock values from `totals`
      and `rows`. */
  method BenchLoop(serial: bool, totals: seq<Micros>, rows: seq<seq<Micros>>, width: nat)
    returns (total: int, times: seq<int>)
    requires |rows| == |totals| && Rectangular(rows, width)
    ensures BenchResult(total, times) == BenchSpec(serial, totals, rows, width)
  {
    total := LONG_MAX;
    times := if serial then seq(width, _ => LONG_MAX) else [];
    var r := 0;
    while r < |totals|
      invariant 0 <= r <= |totals|
      invariant total == MinOf(totals[..r])
      invariant serial ==> times == BestPerCommand(rows[..r], width)
      invariant !serial ==> times == []
    {
      if serial {
        var prev := times;
        times := MinInto(prev, rows[r]);
        BestPerCommandStep(rows, r, width, prev, times);
      }
      assert totals[..r + 1][..r] == totals[..r];
      total := Min(total, totals[r]);
      r := r + 1;
    }
    assert totals[..r] == totals && rows[..r] == rows;
    if serial {
      total := Min(total, LongAccumulate(times));
    }
  }

  /** The inner loop of serial mode: every command's kept time lowered to its
      time in the current repetition. */
  method MinInto(prev: seq<int>, row: seq<Micros>) returns (times: seq<int>)
    requires |row| == |prev|
    ensures |times| == |prev|
    ensures forall k :: 0 <= k < |prev| ==> times[k] == Min(prev[k], row[k])
  {
    times := prev;
    var i := 0;
    while i < |prev|
      invariant 0 <= i <= |prev| && |times| == |prev|
      invariant forall k :: 0 <= k < i ==> times[k] == Min(prev[k], row[k])
      invariant forall k :: i <= k < |prev| ==> times[k] == prev[k]
    {
      times := times[i := Min(times[i], row[i])];
      i := i + 1;
    }
  }

  /** One more repetition lowers every command's best time to its new time. */
  lemma BestPerCommandStep(rows: seq<seq<Micros>>, r: nat, width: nat, prev: seq<int>, next: seq<int>)
    requires r < |rows| && Rectangular(rows, width)
    requires prev == BestPerCommand(rows[..r], width)
    requires |next| == width && forall k :: 0 <= k < width ==> next[k] == Min(prev[k], rows[r][k])
    ensures next == BestPerCommand(rows[..r + 1], width)
  {
    forall k | 0 <= k < width
      ensures next[k] == MinOf(Column(rows[..r + 1], k))
    {
      assert Column(rows[..r + 1], k)[..r] == Column(rows[..r], k);
    }
  }

  // ---------------------------------------------------------------------------
  // Properties of the kept times
  // ---------------------------------------------------------------------------

  /** One more repetition never makes a kept minimum worse. */
  lemma MoreRepetitionsNeverWorse(s: seq<int>, x: int)
    ensures MinOf(s + [x]) <= MinOf(s) && MinOf(s + [x]) <= x
  {
    assert (s + [x])[..|s|] == s;
  }

  lemma SumMonotone(a: seq<int>, b: seq<int>)
    requires |a| == |b| && forall k :: 0 <= k < |a| ==> a[k] <= b[k]
    ensures Sum(a) <= Sum(b)
  {
    if |a| > 0 {
      SumMonotone(a[..|a| - 1], b[..|b| - 1]);
    }
  }

  lemma SumBoundsElements(s: seq<int>, k: nat)
    requires k < |s| && forall j :: 0 <= j < |s| ==> s[j] >= 0
    ensures s[k] <= Sum(s)
  {
    if k < |s| - 1 {
      SumBoundsElements(s[..|s| - 1], k);
    }
    SumNonNegative(s[..|s| - 1]);
  }

  lemma SumNonNegative(s: seq<int>)
    requires forall j :: 0 <= j < |s| ==> s[j] >= 0
    ensures Sum(s) >= 0
  {
    if |s| > 0 {
      SumNonNegative(s[..|s| - 1]);
    }
  }

  /** In serial mode each repetition waits for every command in turn, so its
      total contains all of its command times. When that holds for every
      repetition, the serial total is exactly the sum of the per-command
      bests, and no command's best exceeds it. */
  lemma {:induction false} SerialTotalIsSumOfBests(totals: seq<Micros>, rows: seq<seq<Micros>>, width: nat)
    requires |rows| == |totals| > 0 && Rectangular(rows, width)
    requires forall r :: 0 <= r < |rows| ==> Sum(rows[r]) <= totals[r]
    ensures var res := BenchSpec(true, totals, rows, width);
            && res.total == Sum(res.times)
            && forall i :: 0 <= i < width ==> 0 <= res.times[i] <= res.total
  {
    var t := BestPerCommand(rows, width);
    forall i | 0 <= i < width
      ensures 0 <= t[i]
    {
      MinOfBounds(Column(rows, i));
    }
    forall r | 0 <= r < |rows|
      ensures Sum(t) <= totals[r]
    {
      forall i | 0 <= i < width
        ensures t[i] <= rows[r][i]
      {
        assert Column(rows, i)[r] == rows[r][i];
      }
      SumMonotone(t, rows[r]);
    }
    MinOfBounds(totals);
    var k :| 0 <= k < |totals| && totals[k] == MinOf(totals) by {
      assert MinOf(totals) <= totals[0] <= LONG_MAX;
      if MinOf(totals) == LONG_MAX {
        assert totals[0] == LONG_MAX;
      }
    }
    forall i | 0 <= i < width
      ensures t[i] <= Sum(t)
    {
      SumBoundsElements(t, i);
    }
    SumNonNegative(t);
    LongAccumulateWraps(t);
  }

  // ---------------------------------------------------------------------------
  // omp_con_meta.cpp and faster.cpp: the slowest command of the best repetition
  // ---------------------------------------------------------------------------

  /** `std::max_element`: the FIRST position of the largest value. */
  function ArgMax(s: seq<int>): (k: nat)
    requires |s| > 0
    ensures k < |s|
    ensures forall j :: 0 <= j < |s| ==> s[j] <= s[k]
    ensures forall j :: 0 <= j < k ==> s[j] < s[k]
  {
    if |s| == 1 then 0
    else
      var k := ArgMax(s[..|s| - 1]);
      assert forall j :: 0 <= j < |s| - 1 ==> s[..|s| - 1][j] == s[j];
      if s[|s| - 1] > s[k] then |s| - 1 else k
  }

  /** Position of the first smallest total. */
  function FirstMin(s: seq<int>): (k: nat)
    requires |s| > 0
    ensures k < |s|
    ensures forall j :: 0 <= j < |s| ==> s[k] <= s[j]
    ensures forall j :: 0 <= j < k ==> s[k] < s[j]
  {
    if |s| == 1 then 0
    else
      var k := FirstMin(s[..|s| - 1]);
      assert forall j :: 0 <= j < |s| - 1 ==> s[..|s| - 1][j] == s[j];
      if s[|s| - 1] < s[k] then |s| - 1 else k
  }

  /** What the earlier drivers record. `slowest` is `None` when no repetition
      ever beat `LONG_MAX` (the out-parameters are then never written). */
  datatype Record = Record(total: int, slowest: Option<(nat, int)>)

  /** The repetition kept is the first one with the smallest total, and the
      command recorded is the first slowest command of that repetition. */
  function RecordSpec(totals: seq<Micros>, rows: seq<seq<Micros>>, width: nat): Record
    requires |rows| == |totals| && Rectangular(rows, width) && width > 0
  {
    if |totals| == 0 || MinOf(totals) == LONG_MAX then Record(LONG_MAX, None)
    else
      var r := FirstMin(totals);
      var k := ArgMax(rows[r]);
      Record(totals[r], Some((k, rows[r][k] as int)))
  }

  /** The second `bench` call of omp_con_meta.cpp passes NULL for both
      slowest-command out-parameters but hands on the user's mode. In
      `serial` mode the first repetition that improves on `LONG_MAX` writes
      through NULL, reported here as `None`; in the other modes only the
      best total is kept. */
  function MetaConcurrentTotal(mode: string, totals: seq<Micros>, rows: seq<seq<Micros>>, width: nat): (r: Option<int>)
    requires |rows| == |totals| && Rectangular(rows, width) && width > 0
    ensures r.None? <==> mode == "serial" && exists k :: 0 <= k < |totals| && totals[k] < LONG_MAX
    ensures r.Some? ==> r.value == MinOf(totals)
  {
    var rec := RecordSpec(totals, rows, width);
    RecordKeepsMin(totals, rows, width);
    if mode == "serial" && rec.slowest.Some? then None else Some(rec.total)
  }

  /** The recorded total is the minimum, and a slowest command is recorded
      exactly when some repetition beat `LONG_MAX`. */
  lemma RecordKeepsMin(totals: seq<Micros>, rows: seq<seq<Micros>>, width: nat)
    requires |rows| == |totals| && Rectangular(rows, width) && width > 0
    ensures RecordSpec(totals, rows, width).total == MinOf(totals)
    ensures RecordSpec(totals, rows, width).slowest.Some? <==>
            exists k :: 0 <= k < |totals| && totals[k] < LONG_MAX
  {
    if |totals| > 0 {
      MinOfIsFirstMin(totals);
    }
  }

  lemma MinOfIsFirstMin(s: seq<Micros>)
    requires |s| > 0
    ensures MinOf(s) == s[FirstMin(s)]
  {
    var k := FirstMin(s);
    assert MinOf(s) <= s[k];
    if MinOf(s) != LONG_MAX {
      var j :| 0 <= j < |s| && s[j] == MinOf(s);
    }
  }

  /** Extending the totals by one repetition: it is kept only when strictly
      faster than every earlier one. */
  lemma RecordSpecStep(totals: seq<Micros>, rows: seq<seq<Micros>>, width: nat, r: nat)
    requires |rows| == |totals| && Rectangular(rows, width) && width > 0 && r < |totals|
    ensures var before := RecordSpec(totals[..r], rows[..r], width);
            RecordSpec(totals[..r + 1], rows[..r + 1], width) ==
              if totals[r] < before.total
              then Record(totals[r], Some((ArgMax(rows[r]), rows[r][ArgMax(rows[r])] as int)))
              else before
  {
    var s, t := totals[..r], totals[..r + 1];
    var x := totals[r];
    assert t == s + [x];
    assert rows[..r + 1][r] == rows[r];
    assert forall j :: 0 <= j < r ==> rows[..r + 1][j] == rows[..r][j];
    MinOfSnoc(s, x);
    if r > 0 {
      FirstMinSnoc(s, x);
      MinOfIsFirstMin(s);
      MinOfIsFirstMin(t);
    } else {
      MinOfIsFirstMin(t);
    }
  }

  lemma MinOfSnoc(s: seq<int>, x: int)
    ensures MinOf(s + [x]) == Min(MinOf(s), x)
  {
    assert (s + [x])[..|s|] == s;
  }

  lemma FirstMinSnoc(s: seq<int>, x: int)
    requires |s| > 0
    ensures FirstMin(s + [x]) == if x < s[FirstMin(s)] then |s| else FirstMin(s)
  {
    assert (s + [x])[..|s|] == s;
  }

  /** The serial-mode loop of those drivers: strict improvement only. */
  method RecordLoop(totals: seq<Micros>, rows: seq<seq<Micros>>, width: nat) returns (rec: Record)
    requires |rows| == |totals| && Rectangular(rows, width) && width > 0
    ensures rec == RecordSpec(totals, rows, width)
  {
    rec := Record(LONG_MAX, None);
    var r := 0;
    while r < |totals|
      invariant 0 <= r <= |totals|
      invariant rec == RecordSpec(totals[..r], rows[..r], width)
    {
      RecordSpecStep(totals, rows, width, r);
      if totals[r] < rec.total {
        var k := ArgMax(rows[r]);
        rec := Record(totals[r], Some((k, rows[r][k] as int)));
      }
      r := r + 1;
    }
    assert totals[..r] == totals && rows[..r] == rows;
  }

  /** The recorded slowest time never exceeds the kept total when each
      repetition's total contains its command times. */
  lemma RecordedSlowestWithinTotal(totals: seq<Micros>, rows: seq<seq<Micros>>, width: nat)
    requires |rows| == |totals| && Rectangular(rows, width) && width > 0
    requires forall r :: 0 <= r < |rows| ==> Sum(rows[r]) <= totals[r]
    ensures var rec := RecordSpec(totals, rows, width);
            rec.slowest.Some? ==> 0 <= rec.slowest.value.1 <= rec.total
  {
    var rec := RecordSpec(totals, rows, width);
    if rec.slowest.Some? {
      var r := FirstMin(totals);
      var k := ArgMax(rows[r]);
      SumBoundsElements(rows[r], k);
    }
  }
}
