/** The entry points of the three allreduce miniapps: the SYCL one
    (allreduce-mpi-sycl.cpp), the OpenMP unified-shared-memory one
    (allreduce-usm-mpi-omp-offload.cpp) and the OpenMP mapped-memory one
    (allreduce-map-mpi-omp-offload.cpp). Each checks its environment, reads
    its options, then runs either the ring of module `Ring` or the
    collective, and asserts the value every rank ends with. The arguments
    are taken as `getopt` classifies them. */
module Allreduce {
  import opened Common
  import opened Numbers
  import opened Ring
  import Devices

  // ---------------------------------------------------------------------------
  // Options
  // ---------------------------------------------------------------------------

  /** What `getopt` hands the loop, in command-line order: a known letter,
      a letter outside the option string (reported as `'?'` and ignored by
      the `switch`), or an argument that is not an option at all. */
  datatype Opt =
    | HelpOpt | CollectiveOpt | HostOpt | DeviceOpt | SharedOpt | PowerOpt(arg: string)
    | UnknownOpt
    | Positional(arg: string)

  /** Where the three arrays live: `-H`, `-D`, `-S`, or the program's own
      default (shared USM for SYCL, `omp_target_alloc` for OpenMP). */
  datatype AllocKind = HostAlloc | DeviceAlloc | SharedAlloc | TargetAlloc

  /** `arraySize` is `None` when `1 << x` is undefined for the given `x`. */
  datatype Settings = Settings(arraySize: Option<nat>, collective: bool, alloc: AllocKind)

  const DEFAULT_POWER: nat := 25

  function Pow2(k: nat): (p: nat)
    ensures p >= 1
  {
    if k == 0 then 1 else 2 * Pow2(k - 1)
  }

  /** `1 << x` on a 32-bit `int`: a power of two up to `x = 30`; a shift by
      a negative amount or into or past the sign bit is not a valid size. */
  function ShiftedSize(x: int): (r: Option<nat>)
    ensures r.Some? <==> 0 <= x <= 30
    ensures r.Some? ==> r.value == Pow2(x) && r.value <= INT_MAX
  {
    if 0 <= x <= 30 then
      Pow2Bound(x);
      Some(Pow2(x))
    else None
  }

  lemma {:induction false} Pow2Bound(k: nat)
    requires k <= 30
    ensures Pow2(k) <= 0x4000_0000
    decreases 30 - k
  {
    if k < 30 {
      Pow2Bound(k + 1);
      assert Pow2(k + 1) == 2 * Pow2(k);
    } else {
      assert Pow2(10) == 1024;
      assert Pow2(20) == 1024 * 1024;
    }
  }

  /** How the option loop ends when it does not run out of options: `-h`
      prints the usage and returns, and a non-option argument makes the loop
      spin forever, since `getopt` then keeps returning -1 without moving
      `optind` past it. */
  datatype OptStop = HelpRequested | NonOptionSpin

  predicate HasPositional(opts: seq<Opt>)
  {
    exists k :: 0 <= k < |opts| && opts[k].Positional?
  }

  /** The `while (optind < argc)` loop around `getopt`. GNU `getopt` permutes
      the arguments, so every option is seen, in order, before the
      non-options are left over. `allocOptions` is false for the
      mapped-memory miniapp, whose option string has no `H`, `D` or `S`, so
      those letters change nothing. */
  function ApplyOptions(opts: seq<Opt>, s: Settings, allocOptions: bool): (r: Result<Settings, OptStop>)
    ensures r == Err(HelpRequested) <==> HelpOpt in opts
    ensures r == Err(NonOptionSpin) <==> HelpOpt !in opts && HasPositional(opts)
    ensures r.Ok? && !allocOptions ==> r.value.alloc == s.alloc
    ensures r.Ok? ==> (r.value.collective <==> s.collective || CollectiveOpt in opts)
  {
    if |opts| == 0 then Ok(s)
    else
      var rest := opts[1..];
      assert opts == [opts[0]] + rest;
      assert forall k :: 0 <= k < |rest| ==> rest[k] == opts[k + 1];
      assert opts[0].Positional? ==> HasPositional(opts);
      match opts[0]
      case HelpOpt => Err(HelpRequested)
      case Positional(_) =>
        var t := ApplyOptions(rest, s, allocOptions);
        if t == Err(HelpRequested) then t else Err(NonOptionSpin)
      case _ => ApplyOptions(rest, ApplyOne(opts[0], s, allocOptions), allocOptions)
  }

  /** One case of the `switch`. */
  function ApplyOne(o: Opt, s: Settings, allocOptions: bool): (t: Settings)
    ensures !allocOptions ==> t.alloc == s.alloc
    ensures t.collective <==> s.collective || o.CollectiveOpt?
  {
    match o
    case CollectiveOpt => s.(collective := true)
    case HostOpt => if allocOptions then s.(alloc := HostAlloc) else s
    case DeviceOpt => if allocOptions then s.(alloc := DeviceAlloc) else s
    case SharedOpt => if allocOptions then s.(alloc := SharedAlloc) else s
    case PowerOpt(a) => s.(arraySize := ShiftedSize(Atoi(a)))
    case _ => s
  }

  lemma ApplyOptionsSingle(o: Opt, s: Settings, allocOptions: bool)
    requires !o.HelpOpt? && !o.Positional?
    ensures ApplyOptions([o], s, allocOptions) == Ok(ApplyOne(o, s, allocOptions))
  {
    assert [o][1..] == [];
  }

  /** `-p x` gives `2^x` elements for every `x` from 0 to 30. */
  lemma PowerOption(x: nat, s0: Settings, allocOptions: bool)
    requires x <= 30
    ensures var s := ApplyOptions([PowerOpt(Decimal(x))], s0, allocOptions);
            s.Ok? && s.value.arraySize == Some(Pow2(x))
  {
    PowerArgument(x, s0, allocOptions);
    ApplyOptionsSingle(PowerOpt(Decimal(x)), s0, allocOptions);
  }

  /** `-p` with the decimal form of `x` shifts by `x`. */
  lemma PowerArgument(x: int, s0: Settings, allocOptions: bool)
    requires InInt(x)
    ensures ApplyOne(PowerOpt(Decimal(x)), s0, allocOptions).arraySize == ShiftedSize(x)
  {
    AtoiRoundTrip(x);
  }

  /** `-p x` outside 0 to 30 leaves no valid size. */
  lemma PowerOutOfRange(x: int, s0: Settings, allocOptions: bool)
    requires InInt(x) && (x < 0 || x > 30)
    ensures var s := ApplyOptions([PowerOpt(Decimal(x))], s0, allocOptions);
            s.Ok? && s.value.arraySize.None?
  {
    PowerArgument(x, s0, allocOptions);
    ApplyOptionsSingle(PowerOpt(Decimal(x)), s0, allocOptions);
  }

  // ---------------------------------------------------------------------------
  // Running
  // ---------------------------------------------------------------------------

  datatype RunError =
    | SizeRejected      // "Set MPI ranks to an even integer >= 4"
    | HelpShown
    | OptionLoopSpins   // a non-option argument: the `getopt` loop never ends
    | NoDevices
    | NoDeviceDivision  // `rank % 0`: undefined behaviour
    | InvalidSize       // `1 << x` undefined or the allocation of that size fails
    | Deadlock          // a receive whose matching send never comes

  function StopError(e: OptStop): RunError
  {
    match e
    case HelpRequested => HelpShown
    case NonOptionSpin => OptionLoopSpins
  }

  /** `VC` of every rank at the end: the ring or the collective, started from
      `Initialize`'s values. */
  function FinalValues(n: nat, collective: bool): (vc: seq<int>)
    requires n >= 1
    ensures |vc| == n
  {
    var init := InitialStates(n);
    var fin := if collective then Collective(init) else RingAfter(init, n - 1);
    seq(n, r requires 0 <= r < n => fin[r].vc)
  }

  /** The closing assertion, `result == (size - 1) * size / 2`, on every
      rank (the values are whole numbers, so the 1e-6 tolerance is
      equality). */
  predicate Passes(vc: seq<int>, n: nat)
  {
    forall r :: 0 <= r < |vc| ==> vc[r] == (n - 1) * n / 2
  }

  lemma FinalValuesPass(n: nat, collective: bool)
    requires n >= 1
    ensures Passes(FinalValues(n, collective), n)
  {
    forall r | 0 <= r < n
      ensures FinalValues(n, collective)[r] == (n - 1) * n / 2
    {
      RingResult(n, r);
    }
  }

  predicate SyclSizeOk(n: nat)
  {
    !(n < 4 || n % 2 != 0)
  }

  /** The ring loop runs `n - 1` rounds, so with one rank it posts no
      message at all; otherwise it completes when every receive is
      matched. */
  predicate RingCompletes(n: nat)
  {
    n < 2 || AllMatched(n)
  }

  lemma RingCompletesIff(n: nat)
    requires n >= 1
    ensures RingCompletes(n) <==> n == 1 || n % 2 == 0
  {
    AllMatchedIffEven(n);
  }

  /** The timed section: the collective always completes; the ring completes
      unless a receive is never matched. */
  function RunRing(n: nat, collective: bool): (r: Result<seq<int>, RunError>)
    requires n >= 1
    ensures r.Ok? ==> Passes(r.value, n) && |r.value| == n
    ensures r.Err? <==> !collective && n >= 3 && n % 2 == 1
    ensures r.Err? ==> r.error == Deadlock
  {
    RingCompletesIff(n);
    if !collective && !RingCompletes(n) then Err(Deadlock)
    else
      FinalValuesPass(n, collective);
      Ok(FinalValues(n, collective))
  }

  /** The allocation and everything after it, once a device is chosen. */
  function RunWith(n: nat, s: Settings): (r: Result<seq<int>, RunError>)
    requires n >= 1
    ensures r.Ok? ==> Passes(r.value, n) && |r.value| == n
    ensures r == Err(InvalidSize) <==> s.arraySize.None?
    ensures r == Err(Deadlock) <==> s.arraySize.Some? && !s.collective && n >= 3 && n % 2 == 1
    ensures r.Err? ==> r.error == InvalidSize || r.error == Deadlock
  {
    if s.arraySize.None? then Err(InvalidSize) else RunRing(n, s.collective)
  }

  /** allreduce-mpi-sycl.cpp: the size check comes first, then the options,
      then the device list of module `Devices` (its length is `devices`). */
  function SyclMain(n: nat, devices: nat, opts: seq<Opt>): (r: Result<seq<int>, RunError>)
    requires n >= 1
    ensures r == Err(SizeRejected) <==> !SyclSizeOk(n)
    ensures r == Err(OptionLoopSpins) <==> SyclSizeOk(n) && HelpOpt !in opts && HasPositional(opts)
    ensures r.Ok? ==> SyclSizeOk(n) && devices > 0 && Passes(r.value, n) && |r.value| == n
    ensures r.Err? ==> !r.error.Deadlock?
  {
    if !SyclSizeOk(n) then Err(SizeRejected)
    else match ApplyOptions(opts, Settings(Some(Pow2(DEFAULT_POWER)), false, SharedAlloc), true)
      case Err(e) => Err(StopError(e))
      case Ok(s) =>
        if devices == 0 then Err(NoDevices) else RunWith(n, s)
  }

  /** The device count SyclMain takes is the length of the rank's list from
      `get_devices(mpi_rank, mpi_size, true)` (allreduce-mpi-sycl.cpp:135-147):
      when that list is non-empty `mpi_rank % num_devices` picks one of its
      entries, and without a matching platform the list is empty and the
      miniapp never runs the ring. */
  lemma SyclDeviceChoice<D>(platforms: seq<Devices.Platform<D>>, tiles: D -> Option<seq<D>>,
                            rank: nat, n: nat, opts: seq<Opt>)
    requires rank < n
    ensures var devs := Devices.RankDevices(platforms, tiles, rank, n, true);
            && (|devs| > 0 ==> RoundRobin(rank, |devs|) < |devs|)
            && (|Devices.PlatformDevices(platforms, "Intel(R) OpenCL")| == 0 ==> !SyclMain(n, |devs|, opts).Ok?)
  {
    Devices.RankDevicesFromPlatform(platforms, tiles, rank, n, true);
  }

  /** The SYCL guard admits exactly the sizes of at least three ranks at
      which the ring completes. */
  lemma SyclGuardMatches(n: nat)
    requires n >= 1
    ensures SyclSizeOk(n) <==> RingCompletes(n) && n >= 3
  {
    RingCompletesIff(n);
  }

  /** allreduce-usm-mpi-omp-offload.cpp as written: options, then the device
      count, and no check of the size, so an odd size reaches the ring. */
  function UsmMain(n: nat, numDevices: nat, opts: seq<Opt>): (r: Result<seq<int>, RunError>)
    requires n >= 1
    ensures r.Ok? ==> Passes(r.value, n) && numDevices > 0
    ensures r == Err(NoDevices) <==> HelpOpt !in opts && !HasPositional(opts) && numDevices == 0
    ensures r == Err(OptionLoopSpins) <==> HelpOpt !in opts && HasPositional(opts)
  {
    match ApplyOptions(opts, Settings(Some(Pow2(DEFAULT_POWER)), false, TargetAlloc), true)
    case Err(e) => Err(StopError(e))
    case Ok(s) =>
      if numDevices == 0 then Err(NoDevices) else RunWith(n, s)
  }

  /** allreduce-map-mpi-omp-offload.cpp as written: like the USM one, but a
      device count of zero reaches `rank % num_devices`. */
  function MapMain(n: nat, numDevices: nat, opts: seq<Opt>): (r: Result<seq<int>, RunError>)
    requires n >= 1
    ensures r.Ok? ==> Passes(r.value, n) && numDevices > 0
    ensures r == Err(NoDeviceDivision) <==> HelpOpt !in opts && !HasPositional(opts) && numDevices == 0
    ensures r == Err(OptionLoopSpins) <==> HelpOpt !in opts && HasPositional(opts)
  {
    match ApplyOptions(opts, Settings(Some(Pow2(DEFAULT_POWER)), false, TargetAlloc), false)
    case Err(e) => Err(StopError(e))
    case Ok(s) =>
      if numDevices == 0 then Err(NoDeviceDivision) else RunWith(n, s)
  }

  /** Three ranks: the USM and mapped miniapps start the ring and hang,
      while the SYCL miniapp refuses the size. */
  lemma ThreeRanksHang(numDevices: nat)
    requires numDevices > 0
    ensures UsmMain(3, numDevices, []) == Err(Deadlock)
    ensures MapMain(3, numDevices, []) == Err(Deadlock)
    ensures SyclMain(3, numDevices, []) == Err(SizeRejected)
  {
    OddSizeUnmatched(3);
  }

  /** One rank: the ring loop has no round, and the USM and mapped miniapps
      pass with the value 0. */
  lemma OneRankPasses(numDevices: nat)
    requires numDevices > 0
    ensures UsmMain(1, numDevices, []) == Ok([0])
    ensures MapMain(1, numDevices, []) == Ok([0])
  {
    var vc := FinalValues(1, false);
    FinalValuesPass(1, false);
    assert vc == [vc[0]];
  }

  /** Corrected USM and mapped entries: the SYCL miniapp's size check first.
      No accepted size deadlocks, and every completed run passes. */
  function UsmMainGuarded(n: nat, numDevices: nat, opts: seq<Opt>): (r: Result<seq<int>, RunError>)
    requires n >= 1
    ensures r == Err(SizeRejected) <==> !SyclSizeOk(n)
    ensures r.Ok? ==> Passes(r.value, n) && |r.value| == n
    ensures r != Err(Deadlock)
  {
    if !SyclSizeOk(n) then Err(SizeRejected) else UsmMain(n, numDevices, opts)
  }

  function MapMainGuarded(n: nat, numDevices: nat, opts: seq<Opt>): (r: Result<seq<int>, RunError>)
    requires n >= 1
    ensures r == Err(SizeRejected) <==> !SyclSizeOk(n)
    ensures r.Ok? ==> Passes(r.value, n) && |r.value| == n
    ensures r != Err(Deadlock)
  {
    if !SyclSizeOk(n) then Err(SizeRejected) else MapMain(n, numDevices, opts)
  }

  /** With the guard the three miniapps agree on every size that has devices. */
  lemma GuardedAgreesWithSycl(n: nat, numDevices: nat, opts: seq<Opt>)
    requires n >= 1 && numDevices > 0
    requires forall k :: 0 <= k < |opts| ==> !opts[k].HostOpt? && !opts[k].DeviceOpt? && !opts[k].SharedOpt?
    ensures UsmMainGuarded(n, numDevices, opts) == SyclMain(n, numDevices, opts)
    ensures MapMainGuarded(n, numDevices, opts) == SyclMain(n, numDevices, opts)
  {
    var s0 := Settings(Some(Pow2(DEFAULT_POWER)), false, SharedAlloc);
    var s1 := Settings(Some(Pow2(DEFAULT_POWER)), false, TargetAlloc);
    OptionsIgnoreAlloc(opts, s0, s1, true);
    OptionsIgnoreFlag(opts, s1);
  }

  /** Without allocation options the starting allocation kind only passes
      through. */
  lemma {:induction false} OptionsIgnoreAlloc(opts: seq<Opt>, s0: Settings, s1: Settings, allocOptions: bool)
    requires s0.arraySize == s1.arraySize && s0.collective == s1.collective
    requires forall k :: 0 <= k < |opts| ==> !opts[k].HostOpt? && !opts[k].DeviceOpt? && !opts[k].SharedOpt?
    ensures ApplyOptions(opts, s0, allocOptions).Err? == ApplyOptions(opts, s1, allocOptions).Err?
    ensures ApplyOptions(opts, s0, allocOptions).Err? ==>
              ApplyOptions(opts, s0, allocOptions) == ApplyOptions(opts, s1, allocOptions)
    ensures ApplyOptions(opts, s0, allocOptions).Ok? ==>
              && ApplyOptions(opts, s0, allocOptions).value.collective == ApplyOptions(opts, s1, allocOptions).value.collective
              && ApplyOptions(opts, s0, allocOptions).value.arraySize == ApplyOptions(opts, s1, allocOptions).value.arraySize
  {
    if |opts| > 0 {
      var rest := opts[1..];
      assert forall k :: 0 <= k < |rest| ==> rest[k] == opts[k + 1];
      match opts[0]
      case HelpOpt =>
      case Positional(_) => OptionsIgnoreAlloc(rest, s0, s1, allocOptions);
      case HostOpt =>
      case DeviceOpt =>
      case SharedOpt =>
      case _ =>
        OptionsIgnoreAlloc(rest, ApplyOne(opts[0], s0, allocOptions), ApplyOne(opts[0], s1, allocOptions), allocOptions);
    }
  }

  /** The allocation flag only matters for allocation options. */
  lemma {:induction false} OptionsIgnoreFlag(opts: seq<Opt>, s: Settings)
    requires forall k :: 0 <= k < |opts| ==> !opts[k].HostOpt? && !opts[k].DeviceOpt? && !opts[k].SharedOpt?
    ensures ApplyOptions(opts, s, true) == ApplyOptions(opts, s, false)
  {
    if |opts| > 0 {
      var rest := opts[1..];
      assert forall k :: 0 <= k < |rest| ==> rest[k] == opts[k + 1];
      match opts[0]
      case HelpOpt =>
      case Positional(_) => OptionsIgnoreFlag(rest, s);
      case HostOpt =>
      case DeviceOpt =>
      case SharedOpt =>
      case _ =>
        assert ApplyOne(opts[0], s, true) == ApplyOne(opts[0], s, false);
        OptionsIgnoreFlag(rest, ApplyOne(opts[0], s, true));
    }
  }
}
