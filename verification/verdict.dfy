/** The pass/fail decision that ends every driver, and the byte count of the
    report line. Times are the microsecond counts `bench` returns; a serial
    total can be negative after the `long` overflow of a run without
    repetitions. Every `double` quotient and product is modelled as the EXACT
    real value, keeping only the two special results a division by zero can
    give: the rules below are the verdicts of exact arithmetic, and an input
    within one rounding step of a boundary can get the other verdict from
    the compiled comparison. */
module Verdict {
  import opened Common
  import opened Parameters
  import Timing

  // ---------------------------------------------------------------------------
  // Division of two time counts in `double`
  // ---------------------------------------------------------------------------

  /** A quotient of a count by a non-negative count: a finite value, `+inf`
      (positive over zero), `-inf` (negative over zero) or NaN (zero over
      zero). */
  datatype Ratio = Finite(v: real) | PosInf | NegInf | NaN

  function Div(num: int, den: nat): (q: Ratio)
    ensures den > 0 ==> q.Finite? && q.v * den as real == num as real
    ensures den == 0 ==> (q.NaN? <==> num == 0)
    ensures den == 0 ==> (q.PosInf? <==> num > 0) && (q.NegInf? <==> num < 0)
    ensures q.Finite? && num >= 0 ==> q.v >= 0.0
    ensures q.Finite? && num < 0 ==> q.v < 0.0
  {
    if den > 0 then Finite(num as real / den as real)
    else if num > 0 then PosInf
    else if num < 0 then NegInf
    else NaN
  }

  /** `k * q` for a positive constant `k`. */
  function Scale(k: real, q: Ratio): (r: Ratio)
    requires k > 0.0
    ensures r.Finite? <==> q.Finite?
    ensures r.NaN? <==> q.NaN?
    ensures r.PosInf? <==> q.PosInf?
    ensures r.Finite? ==> r.v == k * q.v
  {
    match q
    case Finite(v) => Finite(k * v)
    case PosInf => PosInf
    case NegInf => NegInf
    case NaN => NaN
  }

  /** `a >= b` in IEEE arithmetic: false whenever either side is NaN. */
  predicate AtLeast(a: Ratio, b: Ratio)
  {
    match (a, b)
    case (NaN, _) => false
    case (_, NaN) => false
    case (PosInf, _) => true
    case (_, NegInf) => true
    case (NegInf, _) => false
    case (Finite(_), PosInf) => false
    case (Finite(x), Finite(y)) => x >= y
  }

  /** `q <= bound` for a finite bound. */
  predicate AtMost(q: Ratio, bound: real)
  {
    q.NegInf? || (q.Finite? && q.v <= bound)
  }

  // ---------------------------------------------------------------------------
  // main.cpp, sycl_con.cpp and omp_con.cpp
  // ---------------------------------------------------------------------------

  /** `TOL_SPEEDUP` of main.cpp; the other two write the factor `1.3`. */
  const TOL_SPEEDUP: real := 0.3
  const WARN_SPEEDUP: real := 1.5

  /** Exit code 1 in exact arithmetic: the theoretical speedup (serial total
      over the slowest command) is at least 1.3 times the measured one
      (serial total over the concurrent total). The program compares rounded
      `double` values, which can differ next to the boundary: serial 1,
      slowest 70 and concurrent 91 meet the exact rule (`91 * 10 == 70 * 13`)
      but the doubles give `0.014285714285714285 < 0.014285714285714287` and
      SUCCESS. */
  predicate SpeedupFails(serial: int, slowest: nat, concurrent: nat)
  {
    AtLeast(Div(serial, slowest), Scale(1.0 + TOL_SPEEDUP, Div(serial, concurrent)))
  }

  /** The unbalance warning on standard error. */
  predicate SpeedupWarns(commands: nat, serial: int, slowest: nat)
  {
    commands >= 1 && AtMost(Div(serial, slowest), WARN_SPEEDUP)
  }

  // ---------------------------------------------------------------------------
  // omp_con_meta.cpp and faster.cpp
  // ---------------------------------------------------------------------------

  const META_FACTOR: real := 1.30

  /** Exit code 0: the concurrent total is within 1.30 times the slowest
      command of the best serial repetition. */
  predicate ConcurrentSucceeds(slowest: nat, concurrent: nat)
  {
    concurrent as real <= META_FACTOR * slowest as real
  }

  predicate ConcurrentWarns(serial: nat, slowest: nat)
  {
    AtMost(Div(serial, slowest), META_FACTOR)
  }

  // ---------------------------------------------------------------------------
  // Properties
  // ---------------------------------------------------------------------------

  lemma ScaleCompare(a: real, b: real, c: real)
    requires c > 0.0
    ensures a <= b <==> a * c <= b * c
  {
  }

  /** With positive times the speedup rule is an integer comparison of the
      concurrent total with the slowest command: it fails iff
      `10 * concurrent >= 13 * slowest`. The serial total cancels. */
  lemma SpeedupFailsIff(serial: nat, slowest: nat, concurrent: nat)
    requires serial > 0 && slowest > 0 && concurrent > 0
    ensures SpeedupFails(serial, slowest, concurrent) <==> 10 * concurrent >= 13 * slowest
  {
    var s, m, c := serial as real, slowest as real, concurrent as real;
    var lhs, rhs := s / m, 1.3 * (s / c);
    assert Div(serial, slowest) == Finite(lhs);
    assert Scale(1.0 + TOL_SPEEDUP, Div(serial, concurrent)) == Finite(rhs);
    var mc := m * c;
    assert mc > 0.0;
    assert lhs * mc == s * c;
    assert rhs * mc == 1.3 * s * m;
    ScaleCompare(rhs, lhs, mc);
    assert lhs >= rhs <==> s * c >= 1.3 * s * m;
    ScaleCompare(1.3 * m, c, s);
    assert s * c >= 1.3 * s * m <==> c >= 1.3 * m;
    assert c >= 1.3 * m <==> 10.0 * c >= 13.0 * m;
  }

  /** A finite quotient compared with the fraction `a / b`, cross-multiplied. */
  lemma QuotientAtMost(num: nat, den: nat, a: nat, b: nat)
    requires den > 0 && b > 0
    ensures AtMost(Div(num, den), a as real / b as real) <==> b * num <= a * den
  {
    var n, d, x, y := num as real, den as real, a as real, b as real;
    var v, k := n / d, x / y;
    assert Div(num, den) == Finite(v);
    assert v * d == n && k * y == x;
    ScaleCompare(v, k, d);
    ScaleCompare(n, k * d, y);
    assert k * d * y == x * d;
    assert (b * num) as real == y * n;
    assert (a * den) as real == x * d;
  }

  /** The warning of the newer drivers: `2 * serial <= 3 * slowest`. */
  lemma SpeedupWarnsIff(commands: nat, serial: nat, slowest: nat)
    requires slowest > 0
    ensures SpeedupWarns(commands, serial, slowest) <==> commands >= 1 && 2 * serial <= 3 * slowest
  {
    QuotientAtMost(serial, slowest, 3, 2);
    assert 3 as real / 2 as real == WARN_SPEEDUP;
  }

  /** The older rule is an integer comparison for every input. */
  lemma ConcurrentSucceedsIff(slowest: nat, concurrent: nat)
    ensures ConcurrentSucceeds(slowest, concurrent) <==> 10 * concurrent <= 13 * slowest
  {
  }

  lemma ConcurrentWarnsIff(serial: nat, slowest: nat)
    requires slowest > 0
    ensures ConcurrentWarns(serial, slowest) <==> 10 * serial <= 13 * slowest
  {
    QuotientAtMost(serial, slowest, 13, 10);
    assert 13 as real / 10 as real == META_FACTOR;
  }

  /** In exact arithmetic and for positive times the two rules give opposite
      answers except exactly at `10 * concurrent == 13 * slowest`, where the
      newer rule fails and the older one succeeds. */
  lemma RulesAgreeOffBoundary(serial: nat, slowest: nat, concurrent: nat)
    requires serial > 0 && slowest > 0 && concurrent > 0
    ensures 10 * concurrent != 13 * slowest ==>
              (SpeedupFails(serial, slowest, concurrent) <==> !ConcurrentSucceeds(slowest, concurrent))
    ensures 10 * concurrent == 13 * slowest ==>
              SpeedupFails(serial, slowest, concurrent) && ConcurrentSucceeds(slowest, concurrent)
  {
    SpeedupFailsIff(serial, slowest, concurrent);
    ConcurrentSucceedsIff(slowest, concurrent);
  }

  /** A concurrent total of zero makes the measured speedup infinite (or NaN),
      which the newer rule never fails while the theoretical one is finite. */
  lemma ZeroConcurrentPasses(serial: nat, slowest: nat)
    requires slowest > 0
    ensures !SpeedupFails(serial, slowest, 0)
    ensures ConcurrentSucceeds(slowest, 0)
  {
  }

  /** In exact arithmetic the verdict depends on the serial total only
      through its sign (the rounded quotients need not cancel exactly). */
  lemma SpeedupIgnoresSerialScale(s1: nat, s2: nat, slowest: nat, concurrent: nat)
    requires s1 > 0 && s2 > 0 && slowest > 0 && concurrent > 0
    ensures SpeedupFails(s1, slowest, concurrent) == SpeedupFails(s2, slowest, concurrent)
  {
    SpeedupFailsIff(s1, slowest, concurrent);
    SpeedupFailsIff(s2, slowest, concurrent);
  }

  // ---------------------------------------------------------------------------
  // main.cpp: the verdict from the two `bench` results
  // ---------------------------------------------------------------------------

  /** Exit code 1 of main.cpp: the theoretical speedup divides the serial
      total by the first largest per-command best (`std::max_element`), the
      measured one by the concurrent total. */
  predicate MainFails(serial: Timing.BenchResult, concurrent: int)
    requires |serial.times| > 0 && concurrent >= 0
    requires forall i :: 0 <= i < |serial.times| ==> serial.times[i] >= 0
  {
    SpeedupFails(serial.total, serial.times[Timing.ArgMax(serial.times)], concurrent)
  }

  /** A positive minimum of positive readings. */
  lemma MinOfPositive(s: seq<int>)
    requires |s| > 0 && forall r :: 0 <= r < |s| ==> 0 < s[r] <= LONG_MAX
    ensures 0 < Timing.MinOf(s)
  {
    if Timing.MinOf(s) != LONG_MAX {
      var k :| 0 <= k < |s| && s[k] == Timing.MinOf(s);
    }
  }

  /** When every reading is positive and each serial repetition's total
      contains its command times, main.cpp fails exactly when the best
      concurrent total reaches 1.3 times the best time of the first slowest
      command; the serial total plays no part. */
  lemma MainVerdictFromBench(totals: seq<Micros>, rows: seq<seq<Micros>>, width: nat,
                             concurrentTotals: seq<Micros>, concurrentRows: seq<seq<Micros>>)
    requires |rows| == |totals| > 0 && Timing.Rectangular(rows, width) && width > 0
    requires forall r :: 0 <= r < |rows| ==> Sum(rows[r]) <= totals[r]
    requires forall r, i :: 0 <= r < |rows| && 0 <= i < width ==> rows[r][i] > 0
    requires |concurrentRows| == |concurrentTotals| > 0 && Timing.Rectangular(concurrentRows, width)
    requires forall r :: 0 <= r < |concurrentTotals| ==> concurrentTotals[r] > 0
    ensures var s := Timing.BenchSpec(true, totals, rows, width);
            |s.times| == width && s.total > 0 && forall i :: 0 <= i < width ==> s.times[i] > 0
    ensures Timing.BenchSpec(false, concurrentTotals, concurrentRows, width).total > 0
    ensures MainFails(Timing.BenchSpec(true, totals, rows, width),
                      Timing.BenchSpec(false, concurrentTotals, concurrentRows, width).total)
            <==> 10 * Timing.MinOf(concurrentTotals)
                 >= 13 * Timing.MinOf(Timing.Column(rows, Timing.ArgMax(Timing.BestPerCommand(rows, width))))
  {
    var s := Timing.BenchSpec(true, totals, rows, width);
    var t := Timing.BestPerCommand(rows, width);
    Timing.SerialTotalIsSumOfBests(totals, rows, width);
    forall i | 0 <= i < width
      ensures t[i] > 0
    {
      MinOfPositive(Timing.Column(rows, i));
    }
    assert s.total >= s.times[0] > 0;
    var c := Timing.MinOf(concurrentTotals);
    MinOfPositive(concurrentTotals);
    var k := Timing.ArgMax(t);
    SpeedupFailsIff(s.total, t[k], c);
  }

  /** `--repetitions 0` with two commands: both per-command bests stay
      `LONG_MAX`, their `long` sum wraps to a serial total of -2, and the
      concurrent total stays `LONG_MAX`. Both speedups are then the negative
      `-2 / LONG_MAX`, which is at least 1.3 times itself, so main.cpp prints
      the unbalance warning and FAILURE. */
  lemma ZeroRepetitionsFail()
    ensures var s := Timing.BenchSpec(true, [], [], 2);
            var c := Timing.BenchSpec(false, [], [], 2).total;
            && s.total == -2 && s.times == [LONG_MAX, LONG_MAX] && c == LONG_MAX
            && MainFails(s, c)
            && SpeedupWarns(2, s.total, s.times[Timing.ArgMax(s.times)])
  {
    Timing.ZeroRepetitionsOverflow();
    var s := Timing.BenchSpec(true, [], [], 2);
    assert s.times == [LONG_MAX, LONG_MAX];
    assert Timing.ArgMax(s.times) == 0;
    var q := -2.0 / (LONG_MAX as real);
    assert q < 0.0;
    assert Div(-2, LONG_MAX) == Finite(q);
    assert Scale(1.0 + TOL_SPEEDUP, Div(-2, LONG_MAX)) == Finite(1.3 * q);
    assert q >= 1.3 * q;
  }

  /** Two balanced commands of 1000us each and a serial total of 2000us:
      1250us concurrent passes both rules, 1300us fails the newer rule
      and passes the older one, 1400us fails both. */
  lemma TwoCommandScenarios()
    ensures !SpeedupFails(2000, 1000, 1250) && ConcurrentSucceeds(1000, 1250)
    ensures SpeedupFails(2000, 1000, 1300) && ConcurrentSucceeds(1000, 1300)
    ensures SpeedupFails(2000, 1000, 1400) && !ConcurrentSucceeds(1000, 1400)
    ensures !SpeedupWarns(2, 2000, 1000) && !ConcurrentWarns(2000, 1000)
  {
    SpeedupFailsIff(2000, 1000, 1250);
    SpeedupFailsIff(2000, 1000, 1300);
    SpeedupFailsIff(2000, 1000, 1400);
    SpeedupWarnsIff(2, 2000, 1000);
    ConcurrentWarnsIff(2000, 1000);
  }

  /** When the serial total is the sum of the per-command bests (each
      repetition waits for every command), the theoretical speedup lies
      between 1 and the number of commands. */
  lemma TheoreticalSpeedupBounds(times: seq<nat>, slowest: nat)
    requires |times| > 0 && slowest > 0
    requires (exists k :: 0 <= k < |times| && times[k] == slowest)
    requires forall k :: 0 <= k < |times| ==> times[k] <= slowest
    ensures var q := Div(NatSum(times), slowest);
            q.Finite? && 1.0 <= q.v <= |times| as real
  {
    var k :| 0 <= k < |times| && times[k] == slowest;
    NatSumBounds(times, slowest, k);
    var total := NatSum(times);
    QuotientAtMost(total, slowest, |times|, 1);
    assert |times| as real / 1 as real == |times| as real;
    QuotientAtLeastOne(total, slowest);
  }

  lemma QuotientAtLeastOne(num: nat, den: nat)
    requires 0 < den <= num
    ensures Div(num, den).Finite? && Div(num, den).v >= 1.0
  {
    var v, n, d := Div(num, den).v, num as real, den as real;
    assert v * d == n;
    assert d <= n;
    ScaleCompare(1.0, v, d);
    assert 1.0 * d <= v * d;
  }

  function NatSum(s: seq<nat>): nat
  {
    if |s| == 0 then 0 else NatSum(s[..|s| - 1]) + s[|s| - 1]
  }

  lemma {:induction false} NatSumBounds(s: seq<nat>, bound: nat, k: nat)
    requires k < |s| && forall j :: 0 <= j < |s| ==> s[j] <= bound
    ensures s[k] <= NatSum(s) <= |s| * bound
  {
    var n := |s| - 1;
    var p := s[..n];
    assert forall j :: 0 <= j < n ==> p[j] == s[j];
    assert NatSum(s) == NatSum(p) + s[n];
    MulSucc(n, bound);
    if n == 0 {
      assert NatSum(p) == 0;
    } else if k < n {
      NatSumBounds(p, bound, k);
    } else {
      NatSumBounds(p, bound, 0);
    }
  }

  lemma MulSucc(n: nat, b: nat)
    ensures (n + 1) * b == n * b + b
  {
  }

  // ---------------------------------------------------------------------------
  // The byte count of `time_info` in main.cpp
  // ---------------------------------------------------------------------------

  const UNSIGNED_MODULUS: int := 0x1_0000_0000

  /** Bytes moved by the transfer commands of a list, from their
      `globalsize_` entries (a missing entry reads as 0). */
  function TransferBytes(commands: seq<string>, table: map<string, int>): int
  {
    if |commands| == 0 then 0
    else
      var n := |commands| - 1;
      var c := commands[n];
      TransferBytes(commands[..n], table)
        + (if c == "C" then 0 else Lookup(table, GlobalsizeKey(c)) * SIZEOF_FLOAT)
  }

  /** As written: the count is accumulated in a 32-bit `unsigned`. */
  function ReportedBytes(commands: seq<string>, table: map<string, int>): (b: int)
    ensures b == TransferBytes(commands, table) % UNSIGNED_MODULUS
    ensures 0 <= TransferBytes(commands, table) < UNSIGNED_MODULUS ==> b == TransferBytes(commands, table)
  {
    if |commands| == 0 then 0
    else
      var n := |commands| - 1;
      var c := commands[n];
      var add := if c == "C" then 0 else Lookup(table, GlobalsizeKey(c)) * SIZEOF_FLOAT;
      var prev := ReportedBytes(commands[..n], table);
      ModSum(TransferBytes(commands[..n], table), prev, add);
      (prev + add) % UNSIGNED_MODULUS
  }

  lemma ModSum(exact: int, prev: int, add: int)
    requires prev == exact % UNSIGNED_MODULUS
    ensures (prev + add) % UNSIGNED_MODULUS == (exact + add) % UNSIGNED_MODULUS
  {
  }

  /** Corrected: the count kept at the width of the parameters (`size_t`). */
  function ReportedBytesWide(commands: seq<string>, table: map<string, int>): (b: int)
    requires forall k :: 0 <= k < |commands| ==> Lookup(table, GlobalsizeKey(commands[k])) >= 0
    ensures b == TransferBytes(commands, table)
    ensures b >= 0
  {
    if |commands| == 0 then 0
    else
      var n := |commands| - 1;
      var c := commands[n];
      assert forall k :: 0 <= k < n ==> commands[..n][k] == commands[k];
      ReportedBytesWide(commands[..n], table)
        + (if c == "C" then 0 else Lookup(table, GlobalsizeKey(c)) * SIZEOF_FLOAT)
  }

  function Repeat(tok: string, n: nat): (s: seq<string>)
    ensures |s| == n && forall k :: 0 <= k < n ==> s[k] == tok
  {
    seq(n, _ => tok)
  }

  lemma {:induction false} TransferBytesRepeat(tok: string, n: nat, table: map<string, int>)
    requires tok != "C"
    ensures TransferBytes(Repeat(tok, n), table) == n * Lookup(table, GlobalsizeKey(tok)) * SIZEOF_FLOAT
  {
    if n > 0 {
      assert Repeat(tok, n)[..n - 1] == Repeat(tok, n - 1);
      TransferBytesRepeat(tok, n - 1, table);
    }
  }

  /** Five transfers at the default buffer size move 5e9 bytes, but the
      report counts 705032704. */
  lemma ReportedBytesWraps()
    ensures var table := map[GlobalsizeKey("MD") := DEFAULT_MEMORY_ELEMENTS];
            && TransferBytes(Repeat("MD", 5), table) == 5_000_000_000
            && ReportedBytes(Repeat("MD", 5), table) == 705_032_704
  {
    var table := map[GlobalsizeKey("MD") := DEFAULT_MEMORY_ELEMENTS];
    TransferBytesRepeat("MD", 5, table);
  }
}
