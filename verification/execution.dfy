/** What one benchmark repetition does with a command list: which queue (or
    host thread) runs each command, which buffers each command allocates and
    which operation it submits. Kernels, copies and clocks are not executed;
    only the decisions the harness takes about them are modelled. Covers
    concurency/bench_sycl.cpp, concurency/bench_omp.cpp, the `bench` functions
    of concurency/sycl_con.cpp, concurency/omp_con.cpp,
    concurency/omp_con_meta.cpp and concurency/faster.cpp. */
module Execution {
  import opened Common
  import opened Text

  // ---------------------------------------------------------------------------
  // Queues
  // ---------------------------------------------------------------------------

  datatype PoolError = NoQueue | UnboundedPool

  /** The queue pool of `n_queues` entries. With zero queues the first
      `i % n_queues` divides by zero; a negative count is compared as a
      `size_t` and the creation loop does not stop. */
  function QueuePool(n: int): (r: Result<nat, PoolError>)
    ensures r.Ok? <==> n > 0
    ensures r.Ok? ==> r.value == n
  {
    if n > 0 then Ok(n) else if n == 0 then Err(NoQueue) else Err(UnboundedPool)
  }

  /** Number of the first `m` commands that land on queue `q`; command `i`
      runs on `Qs[i % n_queues]`. */
  function CountOnQueue(m: nat, n: nat, q: nat): nat
    requires n > 0
  {
    if m == 0 then 0 else CountOnQueue(m - 1, n, q) + (if RoundRobin(m - 1, n) == q then 1 else 0)
  }

  /** How quotient and remainder move when the dividend grows by one. */
  lemma DivModSucc(a: nat, n: nat)
    requires n > 0
    ensures (a + 1) / n == a / n + (if a % n == n - 1 then 1 else 0)
    ensures (a + 1) % n == (if a % n == n - 1 then 0 else a % n + 1)
  {
    var qa, ra := a / n, a % n;
    assert a == qa * n + ra;
    if ra == n - 1 {
      assert a + 1 == (qa + 1) * n + 0;
      DivModUnique(a + 1, n, qa + 1, 0);
    } else {
      DivModUnique(a + 1, n, qa, ra + 1);
    }
  }

  /** Round-robin is as even as it can be: queue `q` gets `m / n` commands,
      plus one when `q < m % n`. */
  lemma {:induction false} RoundRobinCount(m: nat, n: nat, q: nat)
    requires 0 < n && q < n
    ensures CountOnQueue(m, n, q) == m / n + (if q < m % n then 1 else 0)
  {
    if m > 0 {
      var a := m - 1;
      RoundRobinCount(a, n, q);
      DivModSucc(a, n);
      var qa, ra, qm, rm := a / n, a % n, m / n, m % n;
      assert CountOnQueue(m, n, q) == CountOnQueue(a, n, q) + (if ra == q then 1 else 0);
      if ra == n - 1 {
        assert qm == qa + 1 && rm == 0;
      } else {
        assert qm == qa && rm == ra + 1;
      }
    }
  }

  /** Hence no two queues' loads differ by more than one command, and with as
      many queues as commands every command has its own queue. */
  lemma RoundRobinBalanced(m: nat, n: nat, q1: nat, q2: nat)
    requires 0 < n && q1 < n && q2 < n
    ensures -1 <= CountOnQueue(m, n, q1) - CountOnQueue(m, n, q2) <= 1
    ensures m == n ==> CountOnQueue(m, n, q1) == 1
  {
    RoundRobinCount(m, n, q1);
    RoundRobinCount(m, n, q2);
  }

  /** `sycl::property_list` of every queue. */
  datatype QueueProps = QueueProps(inOrder: bool, profiling: bool)

  /** The property list of every queue of bench_sycl.cpp and sycl_con.cpp. */
  function SyclQueueProps(mode: string, profiling: bool): QueueProps
  {
    QueueProps(mode == "in_order", profiling)
  }

  /** The queue count `bench` in bench_sycl.cpp falls back to when handed
      `-1`: one per command in `in_order` mode, one otherwise. Only `-1` is
      replaced, and the resulting pool can be built unless the count given
      was non-positive or there are no commands to size it by. */
  function BenchSyclQueues(mode: string, n: int, numCommands: nat): (r: int)
    ensures r == n || n == -1
    ensures QueuePool(r).Ok? <==> n > 0 || (n == -1 && (mode != "in_order" || numCommands > 0))
  {
    if n == -1 then (if mode == "in_order" then numCommands else 1) else n
  }

  /** The host-thread count of bench_omp.cpp, keyed on `host_threads`. */
  function BenchOmpThreads(mode: string, n: int, numCommands: nat): (r: int)
    ensures r == n || n == -1
    ensures r > 0 <==> n > 0 || (n == -1 && (mode != "host_threads" || numCommands > 0))
  {
    if n == -1 then (if mode == "host_threads" then numCommands else 1) else n
  }

  /** faster.cpp resolves `-1` to one queue per command in every mode. */
  function FasterQueues(n: int, numCommands: nat): (r: int)
    ensures r == n || n == -1
    ensures QueuePool(r).Ok? <==> n > 0 || (n == -1 && numCommands > 0)
  {
    if n == -1 then numCommands else n
  }

  /** With the default count and at least one command, `in_order` mode gives
      every command its own in-order queue, while the other SYCL modes put
      every command on the same out-of-order queue. */
  lemma DefaultSyclQueues(mode: string, profiling: bool, numCommands: nat, i: nat)
    requires i < numCommands
    ensures var n := BenchSyclQueues(mode, -1, numCommands);
            && n > 0
            && RoundRobin(i, n) == (if mode == "in_order" then i else 0)
            && (SyclQueueProps(mode, profiling).inOrder <==> n == numCommands && mode == "in_order")
  {
    var n := BenchSyclQueues(mode, -1, numCommands);
    if mode == "in_order" {
      DivModUnique(i, n, 0, i);
    } else {
      DivModUnique(i, 1, i, 0);
    }
  }

  /** The three drivers resolve a count the same way once their modes are
      matched: SYCL `in_order` with OpenMP `host_threads` (and with
      faster.cpp, which always takes one per command), and every other mode
      with every other mode. */
  lemma CountsAgreeAcrossDrivers(syclMode: string, ompMode: string, n: int, numCommands: nat)
    requires (syclMode == "in_order") == (ompMode == "host_threads")
    ensures BenchSyclQueues(syclMode, n, numCommands) == BenchOmpThreads(ompMode, n, numCommands)
    ensures syclMode == "in_order" ==> BenchSyclQueues(syclMode, n, numCommands) == FasterQueues(n, numCommands)
  {
  }

  /** How the OpenMP bench runs the command loop: host threads run one
      command each with blocking offloads; otherwise a single thread issues
      `nowait` offloads and waits for them with `taskwait`. */
  datatype OmpPlan = OmpPlan(parallelFor: bool, threads: Option<int>, nowaitOffload: bool, waitEachCommand: bool)

  /** Exactly one of the two ways of overlapping commands is used; `serial`
      runs the `nowait` offloads on one thread and waits for each before
      the next starts, `nowait` never waits inside the loop, and
      `host_threads` runs one thread per command by default. */
  function BenchOmpPlan(mode: string, n: int, numCommands: nat): (r: OmpPlan)
    ensures r.parallelFor != r.nowaitOffload
    ensures r.waitEachCommand ==> r.nowaitOffload && r.threads == Some(1)
    ensures mode == "serial" <==> r.waitEachCommand
    ensures mode == "nowait" ==> r.nowaitOffload && !r.waitEachCommand && r.threads.None?
    ensures r.parallelFor <==> mode == "host_threads"
    ensures r.parallelFor ==> r.threads.Some? && (n == -1 ==> r.threads.value == numCommands)
  {
    var hostThreads := mode == "host_threads";
    OmpPlan(hostThreads,
            if mode == "serial" then Some(1)
            else if hostThreads then Some(BenchOmpThreads(mode, n, numCommands))
            else None,
            !hostThreads, mode == "serial")
  }

  // ---------------------------------------------------------------------------
  // Buffers and actions
  // ---------------------------------------------------------------------------

  /** Where a buffer lives and how it was obtained. */
  datatype MemKind =
    | DeviceUsm      // sycl::malloc_device
    | HostUsm        // sycl::malloc_host
    | SharedUsm      // sycl::malloc_shared
    | Calloc         // calloc, zeroed
    | MallocZeroed   // malloc followed by std::fill with 0
    | MallocRaw      // malloc, contents unspecified
    | PinnedHost     // omp_target_alloc_host
    | Garbage        // an uninitialised pointer variable

  /** What the command loop submits for one command. */
  datatype Action =
    | Kernel                        // the busy-wait compute kernel
    | Copy(src: MemKind, dst: MemKind)
    | UpdateFrom                    // `target update from`: device to host
    | UpdateTo                      // `target update to`: host to device
    | NoAction                      // nothing is submitted; only the clock runs
    | OutOfRange                    // `buffers[i][1]` of a one-buffer command

  /** The SYCL letter table (bench_sycl.cpp and sycl_con.cpp); letters outside
      it allocate nothing. */
  function SyclKind(c: char): Option<MemKind>
  {
    match c
    case 'C' => Some(DeviceUsm)
    case 'M' => Some(Calloc)
    case 'D' => Some(DeviceUsm)
    case 'H' => Some(HostUsm)
    case 'S' => Some(SharedUsm)
    case _ => None
  }

  /** One buffer per letter of the table, in order. */
  function SyclBuffers(cmd: string): (r: seq<MemKind>)
    ensures |r| <= |cmd|
    ensures (forall k :: 0 <= k < |cmd| ==> SyclKind(cmd[k]).Some?) ==> |r| == |cmd|
  {
    if |cmd| == 0 then []
    else
      var rest := SyclBuffers(cmd[1..]);
      match SyclKind(cmd[0])
      case Some(kind) => [kind] + rest
      case None => rest
  }

  lemma SyclBuffersAt(cmd: string, k: nat)
    requires k < |cmd| && forall j :: 0 <= j < |cmd| ==> SyclKind(cmd[j]).Some?
    ensures k < |SyclBuffers(cmd)| && SyclBuffers(cmd)[k] == SyclKind(cmd[k]).value
  {
    if k > 0 {
      SyclBuffersAt(cmd[1..], k - 1);
    }
  }

  /** The SYCL command loop: `C` launches the kernel, everything else copies
      its first buffer into its second. */
  function SyclActionOf(cmd: string, buffers: seq<MemKind>): (a: Action)
    ensures a.Copy? ==> cmd != "C" && |buffers| >= 2 && a.src == buffers[0] && a.dst == buffers[1]
    ensures a == OutOfRange <==> cmd != "C" && |buffers| < 2
  {
    if cmd == "C" then Kernel
    else if |buffers| < 2 then OutOfRange
    else Copy(buffers[0], buffers[1])
  }

  /** bench_sycl.cpp receives sanitised commands from main.cpp and walks
      their letters; sycl_con.cpp receives raw commands and sanitises them
      for the buffers but compares the raw command with `"C"`. */
  function BenchSyclAction(cmd: string): Action
  {
    SyclActionOf(cmd, SyclBuffers(cmd))
  }

  function SyclConAction(cmd: string): Action
  {
    SyclActionOf(cmd, SyclBuffers(Sanitize(cmd)))
  }

  predicate TransferLetter(c: char)
  {
    c == 'M' || c == 'D' || c == 'H' || c == 'S'
  }

  lemma SyclBuffersPair(a: char, b: char)
    requires TransferLetter(a) && TransferLetter(b)
    ensures SyclBuffers([a, b]) == [SyclKind(a).value, SyclKind(b).value]
  {
    assert [a, b][1..] == [b];
    assert [b][1..] == [];
  }

  /** A transfer `A2B` copies from A's buffer to B's, in both SYCL drivers,
      and main.cpp's sanitised spelling behaves exactly like the standalone
      program's raw one. */
  lemma SyclTransferDirection(a: char, b: char)
    requires TransferLetter(a) && TransferLetter(b)
    ensures SyclConAction([a, '2', b]) == Copy(SyclKind(a).value, SyclKind(b).value)
    ensures BenchSyclAction(Sanitize([a, '2', b])) == SyclConAction([a, '2', b])
  {
    SanitizeTransferToken(a, b);
    SyclBuffersPair(a, b);
    assert [a, '2', b] != "C";
    assert [a, b] != "C";
  }

  /** A one-letter transfer passes the command-line check but has a single
      buffer, so the copy reads past it; in sycl_con.cpp a `C` written with a
      '2' (`C2`) is taken for a copy too. */
  lemma SyclOneBufferCommands()
    ensures BenchSyclAction("M") == OutOfRange
    ensures SyclConAction("C2") == OutOfRange
    ensures BenchSyclAction(Sanitize("C2")) == Kernel
  {
    assert Sanitize("C2") == "C" by {
      assert "C2"[1..] == "2";
    }
    assert SyclBuffers("M") == [Calloc] by {
      assert "M"[1..] == "";
    }
    assert SyclBuffers("C") == [DeviceUsm] by {
      assert "C"[1..] == "";
    }
  }

  /** The SYCL drivers free USM memory with `sycl::free` and the rest with
      `free`, which matches how each buffer was obtained. */
  predicate SyclFreesWithSycl(k: MemKind)
  {
    k == DeviceUsm || k == HostUsm || k == SharedUsm
  }

  lemma SyclFreeMatchesAllocation(c: char)
    requires SyclKind(c).Some?
    ensures SyclFreesWithSycl(SyclKind(c).value) <==> c != 'M'
  {
  }

  // ---------------------------------------------------------------------------
  // OpenMP drivers
  // ---------------------------------------------------------------------------

  /** bench_omp.cpp and omp_con.cpp: one buffer per command, pinned host
      memory when the command mentions `H`, `calloc` otherwise; it is released
      by the same test. */
  function OmpBuffer(cmd: string): (k: MemKind)
    ensures k == PinnedHost <==> 'H' in cmd
    ensures k == PinnedHost || k == Calloc
  {
    ContainsLetter(cmd, 'H');
    if Contains(cmd, "H") then PinnedHost else Calloc
  }

  /** bench_omp.cpp tests the sanitised command and omp_con.cpp the raw one;
      removing the '2's never changes which memory a command gets. */
  lemma OmpBufferIgnoresSanitize(cmd: string)
    ensures OmpBuffer(Sanitize(cmd)) == OmpBuffer(cmd)
  {
    SanitizeKeepsOthers(cmd);
    assert 'H' in cmd <==> 'H' in multiset(cmd);
    assert 'H' in Sanitize(cmd) <==> 'H' in multiset(Sanitize(cmd));
  }

  /** bench_omp.cpp compares the sanitised command. */
  function BenchOmpAction(cmd: string): Action
  {
    if cmd == "C" then Kernel
    else if cmd == "DM" || cmd == "DH" then UpdateFrom
    else if cmd == "MD" || cmd == "HD" then UpdateTo
    else NoAction
  }

  /** omp_con.cpp compares the raw command. */
  function OmpConAction(cmd: string): Action
  {
    if cmd == "C" then Kernel
    else if cmd == "D2M" || cmd == "D2H" then UpdateFrom
    else if cmd == "M2D" || cmd == "H2D" then UpdateTo
    else NoAction
  }

  /** The two OpenMP drivers agree on every canonical token, main.cpp
      sanitising it first; omp_con.cpp accepts `MD` on the command line but
      then submits nothing for it. */
  lemma OmpDriversAgree(t: string)
    requires t in ["C", "D2M", "D2H", "M2D", "H2D"]
    ensures BenchOmpAction(Sanitize(t)) == OmpConAction(t)
    ensures OmpConAction(t) != NoAction
  {
    if t != "C" {
      SanitizeTransferToken(t[0], t[2]);
      assert t == [t[0], '2', t[2]];
    } else {
      assert t[1..] == "";
    }
  }

  lemma OmpConIgnoresShortSpelling()
    ensures OmpConAction("MD") == NoAction
    ensures BenchOmpAction("MD") == UpdateTo
  {
  }

  /** omp_con_meta.cpp: buffers by first letter, whole-token dispatch. */
  function MetaBuffer(cmd: string): Option<MemKind>
  {
    if |cmd| == 0 then None
    else if cmd[0] == 'M' then Some(MallocZeroed)
    else if cmd[0] == 'D' then Some(MallocRaw)
    else if cmd[0] == 'C' then Some(MallocRaw)
    else None
  }

  function MetaAction(cmd: string): Action
  {
    if cmd == "C" then Kernel
    else if cmd == "DM" then UpdateFrom
    else if cmd == "MD" then UpdateTo
    else NoAction
  }

  /** The meta driver and bench_omp.cpp agree on the tokens the meta driver
      accepts. */
  lemma MetaAgreesWithBenchOmp(t: string)
    requires t == "C" || t == "MD" || t == "DM"
    ensures MetaAction(t) == BenchOmpAction(t) && MetaAction(t) != NoAction
    ensures MetaBuffer(t).Some?
  {
  }

  // ---------------------------------------------------------------------------
  // faster.cpp
  // ---------------------------------------------------------------------------

  function FasterKind(c: char): (k: MemKind)
  {
    if c == 'M' then MallocZeroed
    else if c == 'D' then DeviceUsm
    else if c == 'C' then DeviceUsm
    else Garbage
  }

  /** One buffer for EVERY letter, known or not. */
  function FasterBuffers(cmd: string): (r: seq<MemKind>)
    ensures |r| == |cmd|
    ensures forall k :: 0 <= k < |cmd| ==> r[k] == FasterKind(cmd[k])
  {
    seq(|cmd|, k requires 0 <= k < |cmd| => FasterKind(cmd[k]))
  }

  /** faster.cpp copies the SECOND buffer into the first. */
  function FasterAction(cmd: string): (a: Action)
    ensures a.Copy? ==> |cmd| >= 2 && a.src == FasterKind(cmd[1]) && a.dst == FasterKind(cmd[0])
    ensures a == OutOfRange <==> cmd != "C" && |cmd| < 2
  {
    var b := FasterBuffers(cmd);
    if cmd == "C" then Kernel
    else if |b| < 2 then OutOfRange
    else Copy(b[1], b[0])
  }

  /** The same two letters name opposite directions in faster.cpp and in the
      later SYCL drivers: there `MD` is a device-to-host copy. */
  lemma FasterDirectionReversed()
    ensures FasterAction("MD") == Copy(DeviceUsm, MallocZeroed)
    ensures BenchSyclAction("MD") == Copy(Calloc, DeviceUsm)
  {
    SyclBuffersPair('M', 'D');
  }
}
