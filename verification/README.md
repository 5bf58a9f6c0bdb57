# Concurrency harness and ring allreduce miniapps, modelled in Dafny

This project models two small pieces of HPC benchmarking code.

The first is a **concurrency harness** in `concurency/`. It checks whether a GPU runtime really overlaps independent commands:
- A command is a compute kernel `C` or a memory transfer such as `M2D`, `D2M`, `H2D` or `D2H`.
- The driver (`main.cpp` with the SYCL `bench_sycl.cpp` or the OpenMP `bench_omp.cpp`, and the standalone `sycl_con.cpp` and `omp_con.cpp`) parses the command line.
- It fills in default sizes and tripcounts and, when needed, autotunes the sizes so that every command takes about the same time.
- It times the commands first one after another (serial mode), then in the requested concurrent mode (`in_order`, `out_of_order`, `nowait`, `host_threads`, ...).
- It ends with SUCCESS or FAILURE depending on how close the measured speedup comes to the theoretical one.

Two earlier drivers follow a slightly different rule: `omp_con_meta.cpp` and `faster.cpp`. The log parser `parse.py` turns a log of many runs into one table of verdicts per environment.

The second is the **ring allreduce miniapps** of `aurora.mpich.miniapps`, in SYCL, OpenMP-offload USM and OpenMP-offload map flavours:
- Every MPI rank starts with its own rank number.
- A ring of `size - 1` send/receive rounds, or one `MPI_Allreduce`, must leave every rank holding the sum of all ranks.
- `devices.hpp` is the platform and sub-device lookup they use to pick a GPU.

The model is pure functions over immutable data.
- Clock readings, device properties and the number of MPI ranks are inputs.
- C++ integer widths are written out: `long` wrap-around, `size_t` reinterpretation, the 32-bit `unsigned` byte counter and the `int` range of `atoi`/`stoi`.
- `double` quotients are exact reals, with `+inf` and NaN for a division by zero.

| module (file) | what it models |
|---|---|
| `Common` (common.dfy) | option/result types, C integer limits, `long` wrap-around, sums |
| `Text` (text.dfy) | the command sanitiser, C++ `rfind`/`find`, Python `strip`/`split`/`join` |
| `Numbers` (numbers.dfy) | `std::stoi`, `std::stol`, `atoi`, and decimal rendering |
| `Cli` (cli.dfy) | the option loop of `main.cpp`, `sycl_con.cpp` and `omp_con.cpp` |
| `LegacyCli` (cli_legacy.dfy) | the argument handling of `omp_con_meta.cpp` and `faster.cpp` |
| `Parameters` (parameters.dfy) | parameter keys, defaults, `try_emplace` and resolution of the table |
| `Autotune` (autotune.dfy) | the linear rebalancing of the tuned parameters |
| `Execution` (execution.dfy) | queue and thread counts, round-robin queue use, buffer kinds and command actions |
| `Timing` (timing.dfy) | the repetition loops: best totals, per-command bests, the slowest command |
| `Verdict` (verdict.dfy) | the SUCCESS/FAILURE and warning rules, the reported byte count |
| `LogParse` (logparse.dfy) | `parse.py`'s line classification and result table |
| `Devices` (devices.dfy) | the platform lookup and sub-device selection of `devices.hpp` |
| `Ring` (ring.dfy) | the parity-ordered ring exchange and its arithmetic |
| `Allreduce` (allreduce.dfy) | the options, guards and outcome of the three miniapps |

## Model

| member | source | states |
|---|---|---|
| Common.ToSizeT | concurency/main.cpp:174-177 | a `long` parameter stored into the `size_t` table keeps its value when non-negative and wraps to `v + 2^64` when negative |
| Common.WrapLong | concurency/bench_sycl.cpp:124-126 | a `long` result is always in the `long` range, and a value already in range is unchanged |
| Common.RoundRobin | concurency/bench_sycl.cpp:89 | `i % n` is a valid slot: every command goes to an existing queue (`Qs[i % n_queues]`), and every rank to an existing device (`mpi_rank % num_devices` in the miniapps) |
| Devices.PlatformDevices | aurora.mpich.miniapps/src/include/devices.hpp:6-13 | the lookup returns the devices of the first platform whose name matches, and an empty list when no platform matches |
| Devices.NameMatchesPrefix | aurora.mpich.miniapps/src/include/devices.hpp:8 | `rfind(target) == 0` holds exactly when the name starts with the target and the target does not occur again later in the name |
| Devices.IntelPlatformMatches | aurora.mpich.miniapps/src/include/devices.hpp:26 | an OpenCL GPU platform named `Intel(R) OpenCL HD Graphics` matches the Intel lookup, and the Level-Zero platform does not |
| Devices.FissionAppend | aurora.mpich.miniapps/src/include/devices.hpp:28-38 | splitting a list of GPUs into tiles keeps the order: the tiles of earlier GPUs come first |
| Devices.FissionCount | aurora.mpich.miniapps/src/include/devices.hpp:28-38 | the split list has one entry per tile of each splittable GPU and one per GPU that cannot be split |
| Devices.FissionWithoutTiles | aurora.mpich.miniapps/src/include/devices.hpp:35-37 | when no GPU can be split, fission gives back the GPU list unchanged |
| Devices.Distribute | aurora.mpich.miniapps/src/include/devices.hpp:43-53 | no device gives an empty list; fewer devices than ranks gives the single device `rank % count`; otherwise the rank gets the `count / size` consecutive devices starting at `rank * (count / size)`, all inside the list |
| Devices.SliceInBounds | aurora.mpich.miniapps/src/include/devices.hpp:49-52 | the block of every rank lies inside the device list |
| Devices.OwnerIsQuotient | aurora.mpich.miniapps/src/include/devices.hpp:49-52 | in block mode, device `i` belongs to a rank exactly when it lies before `size * (count / size)`, and then to rank `i / (count / size)` |
| Devices.BlocksDisjoint | aurora.mpich.miniapps/src/include/devices.hpp:49-52 | no device is handed to two ranks in block mode |
| Devices.TrailingUnassigned | aurora.mpich.miniapps/src/include/devices.hpp:49-52 | in block mode, the last `count % size` devices go to no rank |
| Devices.SharedModeCoversAll | aurora.mpich.miniapps/src/include/devices.hpp:46-47 | with fewer devices than ranks, device `i` is the one rank `i` uses, so every device is used |
| Devices.SingleDevice | aurora.mpich.miniapps/src/include/devices.hpp:54-57 | the branch for other compilers has no device exactly when the list is empty (a division by zero in the source), and otherwise picks the device at `rank % count` |
| Devices.RankDevicesFromPlatform | aurora.mpich.miniapps/src/include/devices.hpp:24-53 | without fission every device handed to a rank belongs to the matching Intel platform, and without a matching platform a rank gets no device |
| Text.Sanitize | concurency/main.cpp:13-18 | the sanitised command holds no `2` and is no longer than the token |
| Text.SanitizeKeepsOthers | concurency/main.cpp:13-18 | every character other than `2` survives as often as it occurred, and every `2` is gone |
| Text.SanitizeCons | concurency/main.cpp:14-15 | the sanitiser handles the first character on its own and the rest independently |
| Text.SanitizeConcat | concurency/main.cpp:14-15 | `std::remove` keeps the order of what it keeps, so sanitising distributes over concatenation |
| Text.SanitizeFixpoint | concurency/main.cpp:13-18 | a token is left unchanged exactly when it holds no `2` |
| Text.SanitizeIdempotent | concurency/main.cpp:13-18 | sanitising twice is sanitising once |
| Text.SanitizeTransferToken | concurency/main.cpp:152 | a transfer token such as `M2D` becomes `MD` |
| Text.RFindFrom | aurora.mpich.miniapps/src/include/devices.hpp:8 | a backwards search from a position finds the last occurrence at or before it, or reports none at or before it |
| Text.RFind | aurora.mpich.miniapps/src/include/devices.hpp:8 | `rfind` returns the position of the last occurrence, or `npos` when there is none |
| Text.RFindIsZero | aurora.mpich.miniapps/src/include/devices.hpp:8 | `rfind(p) == 0` holds exactly when `p` is a prefix that never occurs again further right, so it is stricter than a prefix test |
| Text.RFindMissesRepeatedPrefix | concurency/main.cpp:141 | a token that starts with `--tripcount_` and repeats it later is not taken as a tripcount option |
| Text.FindFrom | concurency/bench_omp.cpp:42 | a forward search from a position finds the first occurrence at or after it, or reports none |
| Text.Find | concurency/bench_omp.cpp:42 | `find` returns the position of the first occurrence, or `npos` when there is none |
| Text.ContainsLetter | concurency/parse.py:18-28 | Python's `p in s` for a one-letter `p` holds exactly when the letter is in the string |
| Text.StripLeft | concurency/parse.py:19 | stripping on the left removes exactly the leading whitespace and leaves a suffix of the line |
| Text.StripRight | concurency/parse.py:21 | stripping on the right removes exactly the trailing whitespace and leaves a prefix of the line |
| Text.Strip | concurency/parse.py:19-21 | `strip()` leaves neither leading nor trailing whitespace, and removes only whitespace |
| Text.WordLength | concurency/parse.py:21 | the first word ends at the first whitespace character |
| Text.Words | concurency/parse.py:21 | `split()` returns only non-empty words without whitespace |
| Text.WordsCons | concurency/parse.py:21 | a word followed by words is a list of words |
| Text.FirstWordIsWord | concurency/parse.py:21 | a line that starts with a non-space character starts with a non-empty word |
| Text.WordsOfWordThenRest | concurency/parse.py:21 | a word followed by whitespace or the end splits into that word and the words of the rest |
| Text.WordsSkipsSpace | concurency/parse.py:21 | a leading blank does not change the words |
| Text.WordsAfterStrip | concurency/parse.py:21 | the words depend only on what is left after the leading whitespace |
| Text.JoinCons | concurency/parse.py:32 | `" ".join` of two or more words is the first word, one blank, and the join of the rest |
| Text.WordsJoinRoundTrip | concurency/parse.py:21-32 | splitting a space-joined list of words gives that list back, so the table key `" ".join(argv)` keeps the arguments |
| Numbers.SkipCSpace | concurency/main.cpp:130 | the conversion skips a run of leading white space, leaving a suffix that starts with a non-space |
| Numbers.DigitCount | concurency/main.cpp:130 | the digit run read is the longest run of leading decimal digits |
| Numbers.Stol | concurency/main.cpp:144 | `std::stol` yields a `long` equal to the value read; it throws `invalid_argument` exactly when no digit is read, and `out_of_range` otherwise |
| Numbers.Stoi | concurency/main.cpp:130 | `std::stoi` yields an `int` equal to the value read; it throws `invalid_argument` exactly when no digit is read, and `out_of_range` otherwise |
| Numbers.Atoi | concurency/faster.cpp:114 | `atoi` always yields an `int`: 0 when no digit is read, and the value read whenever that value fits an `int` |
| Numbers.LowBits | concurency/faster.cpp:117 | truncating an `int` value to 32 bits and reading the bits back as signed gives the value |
| Numbers.NatDigits | concurency/faster.cpp:114 | the decimal text of a natural number is a non-empty digit string |
| Numbers.NatDigitsValue | concurency/faster.cpp:114 | the decimal text of a natural number reads back as that number |
| Numbers.DigitCountAll | concurency/main.cpp:137 | a digit string is read in full |
| Numbers.ParseDecimalRoundTrip | concurency/main.cpp:137 | every integer reads back from its decimal text, sign included |
| Numbers.ParseUnsigned | concurency/main.cpp:137 | a digit string reads as its value |
| Numbers.MinusRead | concurency/main.cpp:137 | a minus sign followed by digits reads as the negated value |
| Numbers.WholeDigitRun | concurency/main.cpp:137 | the whole digit string is the leading digit run |
| Numbers.NoLeadingSpace | concurency/main.cpp:137 | text that does not start with white space is read from its first character |
| Numbers.StolRoundTrip | concurency/main.cpp:144 | `std::stol` reads back the decimal text of every `long` |
| Numbers.StoiRoundTrip | concurency/main.cpp:130 | `std::stoi` reads back the decimal text of every `int`, and rejects the text of any other integer as out of range |
| Numbers.AtoiRoundTrip | concurency/faster.cpp:117 | `atoi` reads back the decimal text of every `int` |
| Cli.StoredTokenOk | concurency/main.cpp:150-158 | a token whose sanitised letters are all supported is stored in a form made of supported letters, with no `2` left in main.cpp |
| Cli.NoDashNoOption | concurency/main.cpp:148-150 | an argument that does not start with `-` matches none of the options and reaches the command-token branch |
| Cli.Classify | concurency/main.cpp:121-159 | an argument is taken as a command token exactly when it has no leading `-` and its sanitised letters are all supported, and rejected as a command exactly when it has no leading `-` and some letter is not supported |
| Cli.Scan | concurency/main.cpp:120-160 | the option loop keeps the mode, only appends commands, keeps every stored command well formed and every stored parameter a `long`, and can fail only by a missing value, an unsupported option or command, or a number `std::stoi`/`std::stol` rejects |
| Cli.SetParameter | concurency/main.cpp:141-147 | `--tripcount_…`/`--globalsize_…` stores a `long` value, keeping the table's initial keys and the command list |
| Cli.ParameterOptionLength | concurency/main.cpp:144 | a parameter option is long enough for `substr(2)` |
| Cli.AddCommand | concurency/main.cpp:158 | an accepted token is appended to the command list in its stored spelling, and nothing else changes |
| Cli.Parse | concurency/main.cpp:112-165 | no argument at all gives the usage, and only that does; an unknown mode is refused; an accepted command line has a valid mode, at least one command, well-formed commands, and a queue count that is no longer the unset value |
| Cli.ScanCommandStep | concurency/main.cpp:150-158 | a plain command token is stored and the loop moves on to the next argument |
| Cli.ScanRepetitionsStep | concurency/main.cpp:134-140 | the repetition option consumes its value and sets the repetition count to what `std::stoi` reads |
| Cli.RepetitionsOptionClassified | concurency/main.cpp:134 | the repetition option is not mistaken for any option checked before it |
| Cli.StoreAllCons | concurency/main.cpp:158 | storing a token list stores its first token followed by the rest |
| Cli.ScanEnd | concurency/main.cpp:120 | the loop ends at the last argument, leaving the configuration as it is |
| Cli.ScanPlainTokens | concurency/main.cpp:120-160 | arguments that are all plain command tokens are stored, each in its stored spelling and in command-line order |
| Cli.ParseFromScan | concurency/main.cpp:161-165 | after a successful option loop with commands, the queue count defaults when it was left unset and is kept otherwise |
| Cli.ParsePositional | concurency/main.cpp:109-165 | a mode followed only by command tokens is accepted; every token is stored in order, sanitised in main.cpp and as typed in the standalone programs; the queue count falls back to its default, the repetition count stays 10, and the parameter table stays at its initial entries |
| Cli.ParseRejectsToken | concurency/main.cpp:151-156 | a non-option token is refused exactly when one of its sanitised letters is not supported, and then with that token's error |
| Cli.RepetitionsRejected | concurency/sycl_con.cpp:235-250 | the standalone programs refuse the correctly spelt `--repetitions` as an unsupported option |
| Cli.RepetitionsIsOther | concurency/sycl_con.cpp:242-250 | in the standalone programs `--repetitions` matches no parameter option and falls to the unsupported-option branch |
| Cli.ScanStopsAtOption | concurency/main.cpp:148-149 | an unknown option ends the loop with that option's error |
| Cli.ParseFromScanError | concurency/main.cpp:120-160 | an error of the option loop is the program's error |
| Cli.RepetitionsTypo | concurency/sycl_con.cpp:235-241 | in the standalone programs only the misspelt `--repetitionss` sets the repetition count, to the value `std::stoi` reads |
| Cli.MainRepetitions | concurency/main.cpp:134-140 | main.cpp's `--repetitions` sets the repetition count to the value `std::stoi` reads |
| Cli.RepetitionsSet | concurency/main.cpp:134-140 | the repetition option, its value and command tokens give that repetition count and every token stored in order |
| Cli.ScanRepetitionsArgs | concurency/main.cpp:120-160 | the option loop over a repetition option, its value and command tokens ends with that count and all the tokens stored |
| Cli.ScanRepetitionsFirst | concurency/main.cpp:134-140 | the loop reads the repetition option and its value first, from a well-formed initial configuration |
| Cli.ScanTokensFrom | concurency/main.cpp:150-158 | command tokens after the options are all stored, in order, so the list is not empty |
| Cli.InitialConfigOk | concurency/main.cpp:104-110 | the initial table and defaults are a well-formed configuration |
| Cli.InOrderQueueDefaults | concurency/main.cpp:161-162 | main.cpp keys the default queue count on `host_threads`, so with the SYCL bench an `in_order` run of several commands gets one queue, where the standalone SYCL program gives every command its own queue |
| LegacyCli.MetaScan | concurency/omp_con_meta.cpp:156-184 | the meta driver's option loop keeps the mode, only appends commands, stores only the whole tokens `C`, `MD` and `DM`, and fails only by a missing value, an unsupported option or command, or a rejected number |
| LegacyCli.MetaParse | concurency/omp_con_meta.cpp:143-190 | no argument gives the usage, and only that does; an unknown mode is refused; an accepted command line has a valid mode, at least one whole-token command, and a thread count that is no longer unset |
| LegacyCli.MetaScanCommands | concurency/omp_con_meta.cpp:177-183 | arguments that are all whole-token commands are stored as typed and in order |
| LegacyCli.MetaParsePositional | concurency/omp_con_meta.cpp:151-190 | a mode followed only by commands keeps them as typed, with the tripcount 10000 and one thread per command |
| LegacyCli.MetaRejectsTransferSpelling | concurency/omp_con_meta.cpp:178-181 | the meta driver refuses the `M2D` spelling that the newer front ends accept, and accepts `MD` |
| LegacyCli.FasterDecode | concurency/faster.cpp:113-118 | fewer than four arguments hand the terminating NULL of `argv`, or an entry past it, to `atoi` or `std::string`; exactly four leave no command for the serial run, and otherwise the commands are every argument from the fifth on, the flags are the exact words `enable_profiling` and `in_order`, and the tripcount is an `int` |
| LegacyCli.FasterRoundTrip | concurency/faster.cpp:113-118 | decoding the argument vector written for any `int`-range configuration with a command gives that configuration back, with `-1` queues resolved to one queue per command |
| LegacyCli.FasterProfilingSpelling | concurency/faster.cpp:115 | the option spelling `--enable_profiling` of the other drivers leaves profiling off here |
| Parameters.GlobalsizeKeyInjective | concurency/main.cpp:173 | different commands get different `globalsize_` keys |
| Parameters.TunedKeyInjective | concurency/main.cpp:92-96 | different commands tune different keys, and no command tunes `globalsize_C` |
| Parameters.DefaultParameter | concurency/main.cpp:77-90 | the fixed defaults always fit a `size_t`; only the device-dependent ones of sycl_con.cpp come from the device |
| Parameters.EmplaceGlobalsizes | concurency/main.cpp:172-173 | `try_emplace` adds a `globalsize_` key for every command, keeps every existing entry's value, and sets only the new keys to `-1` |
| Parameters.ResolveTable | concurency/main.cpp:174-177 | the resolved table has exactly the keys after `try_emplace`, has a size for every command, and converts every value set on the command line to `size_t` |
| Parameters.StartsWithGlobalsizeC | concurency/main.cpp:79-83 | a command's size key starts with `globalsize_C` exactly when the command starts with `C`, always starts with `globalsize_`, and never with `tripcount_C` |
| Parameters.ResolvedGlobalsize | concurency/sycl_con.cpp:182-195 | a command's element count is its command-line value when set; otherwise the compute default (1, or the sub-group size on the device) for a command starting with `C`; otherwise `globalsize_default_memory` when set; otherwise the memory default |
| Parameters.ResolvedTripcount | concurency/main.cpp:81-82 | an unset `tripcount_C` becomes 40000 in every variant, and a set one keeps its value |
| Ring.Right | aurora.mpich.miniapps/src/allreduce/mpi-omp-offload/allreduce-usm-mpi-omp-offload.cpp:181 | the right neighbour is a valid rank |
| Ring.Left | aurora.mpich.miniapps/src/allreduce/mpi-omp-offload/allreduce-usm-mpi-omp-offload.cpp:182 | the left neighbour is a valid rank |
| Ring.NeighbourFormulas | aurora.mpich.miniapps/src/allreduce/mpi-omp-offload/allreduce-usm-mpi-omp-offload.cpp:181-182 | the neighbours are `(rank + 1 + size) % size` and `(rank - 1 + size) % size` |
| Ring.NeighboursInverse | aurora.mpich.miniapps/src/allreduce/mpi-omp-offload/allreduce-usm-mpi-omp-offload.cpp:181-182 | the left neighbour of the right neighbour, and the right neighbour of the left neighbour, is the rank itself |
| Ring.Program | aurora.mpich.miniapps/src/allreduce/mpi-omp-offload/allreduce-usm-mpi-omp-offload.cpp:33-49 | odd ranks send right with tag 0 and then receive from the left with tag 1; even ranks receive from the left with tag 0 and then send right with tag 1 |
| Ring.AllMatchedIffEven | aurora.mpich.miniapps/src/allreduce/mpi-omp-offload/allreduce-usm-mpi-omp-offload.cpp:33-49 | every receive of the round has a matching send exactly when the number of ranks is even |
| Ring.OddSizeUnmatched | aurora.mpich.miniapps/src/allreduce/mpi-omp-offload/allreduce-usm-mpi-omp-offload.cpp:40-48 | with an odd number of ranks, rank 0 first waits for a tag-0 message from the last rank, which only sends with tag 1, so the round never completes |
| Ring.EvenRingSchedule | aurora.mpich.miniapps/src/allreduce/mpi-omp-offload/allreduce-usm-mpi-omp-offload.cpp:40-48 | with an even number of ranks, every odd rank's send meets its right neighbour's first receive, and every even rank's send meets its right neighbour's second receive |
| Ring.InitialStates | aurora.mpich.miniapps/src/allreduce/mpi-omp-offload/allreduce-usm-mpi-omp-offload.cpp:168-179 | every rank starts with `VA = VB = rank` and `VC = 0` |
| Ring.Accumulate | aurora.mpich.miniapps/src/allreduce/mpi-omp-offload/allreduce-usm-mpi-omp-offload.cpp:22-31 | `VC += VA` keeps one state per rank |
| Ring.Shift | aurora.mpich.miniapps/src/allreduce/mpi-omp-offload/allreduce-usm-mpi-omp-offload.cpp:192-194 | a round keeps one state per rank |
| Ring.RingAfter | aurora.mpich.miniapps/src/allreduce/mpi-omp-offload/allreduce-usm-mpi-omp-offload.cpp:190-196 | the loop keeps one state per rank |
| Ring.Collective | aurora.mpich.miniapps/src/allreduce/mpi-omp-offload/allreduce-usm-mpi-omp-offload.cpp:51-57 | `MPI_Allreduce` with `MPI_SUM` leaves the sum of every rank's `VA` in every rank's `VC` |
| Ring.Behind | aurora.mpich.miniapps/src/allreduce/mpi-omp-offload/allreduce-usm-mpi-omp-offload.cpp:182 | the rank `s` places to the left is a valid rank |
| Ring.BehindIsMod | aurora.mpich.miniapps/src/allreduce/mpi-omp-offload/allreduce-usm-mpi-omp-offload.cpp:182 | that rank is `(r - s) mod n` |
| Ring.RingInvariant | aurora.mpich.miniapps/src/allreduce/mpi-omp-offload/allreduce-usm-mpi-omp-offload.cpp:190-196 | after round `s`, rank `r` holds the block that started `s` places to its left, and has accumulated every block it has held so far |
| Ring.RoundStep | aurora.mpich.miniapps/src/allreduce/mpi-omp-offload/allreduce-usm-mpi-omp-offload.cpp:191-196 | one round gives rank `r` its left neighbour's block in `VA`, its own old block in `VB`, and adds the new block to `VC` |
| Ring.RangeSumSnoc | aurora.mpich.miniapps/src/allreduce/mpi-omp-offload/allreduce-usm-mpi-omp-offload.cpp:190-196 | a range sum is the shorter sum plus its last element |
| Ring.RangeSumIsValues | aurora.mpich.miniapps/src/allreduce/mpi-omp-offload/allreduce-usm-mpi-omp-offload.cpp:190-196 | a range sum from rank 0 is the sum of the first ranks' blocks |
| Ring.RangeSumSplit | aurora.mpich.miniapps/src/allreduce/mpi-omp-offload/allreduce-usm-mpi-omp-offload.cpp:190-196 | a range sum splits at any midpoint |
| Ring.WindowRanges | aurora.mpich.miniapps/src/allreduce/mpi-omp-offload/allreduce-usm-mpi-omp-offload.cpp:190-196 | the blocks a rank has accumulated form one contiguous range of ranks, or two once the window wraps past rank 0 |
| Ring.WindowCoversAll | aurora.mpich.miniapps/src/allreduce/mpi-omp-offload/allreduce-usm-mpi-omp-offload.cpp:191 | after `size - 1` rounds a rank's window covers every rank exactly once |
| Ring.RingSumsAll | aurora.mpich.miniapps/src/allreduce/mpi-omp-offload/allreduce-usm-mpi-omp-offload.cpp:187-197 | after `size - 1` rounds every rank has added every rank's block to its `VC` |
| Ring.RingResult | aurora.mpich.miniapps/src/allreduce/mpi-sycl/allreduce-mpi-sycl.cpp:192-204 | from the initial values, every rank ends with `size (size - 1) / 2`, the value the miniapps assert, which is also what the collective leaves |
| Ring.RankSum | aurora.mpich.miniapps/src/allreduce/mpi-sycl/allreduce-mpi-sycl.cpp:192 | the sum of the ranks `0 .. k - 1` is `k (k - 1) / 2` |
| Ring.TwiceRankSum | aurora.mpich.miniapps/src/allreduce/mpi-sycl/allreduce-mpi-sycl.cpp:192 | twice the sum of the ranks `0 .. k - 1` is `k (k - 1)` |
| Autotune.SingleCommandNeverTuned | concurency/main.cpp:192 | a command list that repeats one command, however often, never triggers balancing |
| Autotune.ShouldAutotuneIff | concurency/main.cpp:186-192 | over any table `cli`: balancing runs exactly when some command's tuned key reads -1 in it and the list holds two different commands |
| Autotune.EmplacedTunedKey | concurency/main.cpp:172-190 | after `try_emplace` of `globalsize_<cmd>`, every command's tuned key is in the table, and it reads -1 exactly when the command line never gave it or gave -1 |
| Autotune.EmplacedShouldAutotuneIff | concurency/main.cpp:172-192 | on the table the program reads, balancing runs exactly when some command's tuned key was never given or was given as -1, and the list holds two different commands |
| Autotune.FreshPairBalanced | concurency/main.cpp:172-192 | two different commands, the first with a tuned key the command line never gave, are balanced once the table is completed by `try_emplace` |
| Autotune.TwoTransfersBalanced | concurency/main.cpp:172-192 | `in_order MD DM` with no option balances the two transfers; the table before `try_emplace` would not trigger balancing |
| Autotune.MinNonCompute | concurency/main.cpp:201-206 | `min_time` is at most every non-compute command's time, and it is either `LONG_MAX` or the time of some non-compute command |
| Autotune.MinIsMeasured | concurency/main.cpp:201-206 | with two distinct commands, `min_time` is the measured time of some non-compute command, never the `LONG_MAX` start value |
| Autotune.RescaledIsQuotient | concurency/main.cpp:213-214 | on exact arithmetic, the new parameter `min_time / time * parameter` truncated to an integer is the integer quotient of `min_time * parameter` by the command's time |
| Autotune.RescaledBalances | concurency/main.cpp:184-185 | the new parameter is the largest one that a linear cost model predicts to take no longer than the fastest transfer |
| Autotune.TunedIndex | concurency/main.cpp:208-210 | a key found belongs to the command at that index; no command has a key reported as missing |
| Autotune.TunedIndexOf | concurency/main.cpp:92-96 | with distinct commands, each command's tuned key leads back to that command |
| Autotune.BalancedPrefixStep | concurency/main.cpp:208-217 | one pass of the regression loop rescales the visited command's tuned key, still at its initial value, and nothing else |
| Autotune.BalancedPrefixStepValues | concurency/main.cpp:208-217 | after one pass, the keys are unchanged and each value is the one the visit of that command gives |
| Autotune.BalancedPrefixAtKey | concurency/main.cpp:211-215 | the visited command's key is rescaled from its untouched value exactly when it reads -1 in `cli`, the table after `try_emplace` |
| Autotune.BalancedPrefixOther | concurency/main.cpp:208-217 | a pass leaves every key but the visited command's tuned key unchanged |
| Autotune.FastestNonCompute | concurency/main.cpp:201-206 | the first loop computes the fastest non-compute time |
| Autotune.BalancedPrefixZero | concurency/main.cpp:208 | before the regression loop the table is unchanged |
| Autotune.ApplyAutotune | concurency/main.cpp:201-217 | both loops together produce the balanced table: each tuned key reading -1 in `cli`, the table after `try_emplace`, is rescaled against the fastest non-compute time, and every other entry is kept |
| Autotune.BalancedKeepsOthers | concurency/main.cpp:211 | an entry that is not the tuned key of a command, or that was set on the command line, keeps its value |
| Autotune.RescaledShrinks | concurency/main.cpp:213-214 | a command at least as slow as the fastest transfer never gets a larger parameter |
| Autotune.RescaledFixed | concurency/main.cpp:213-214 | the fastest transfer keeps its own parameter |
| Autotune.BalancedAt | concurency/main.cpp:208-217 | each command's tuned key ends as its rescaled value if it reads -1 in `cli`, the table after `try_emplace`, and as its table value otherwise |
| Autotune.BalancedTransfers | concurency/main.cpp:184-217 | every unset tuned parameter satisfies the linear balance condition against the fastest transfer time; a transfer's parameter only shrinks, and the fastest transfer keeps its own |
| Autotune.ResolvedTableReady | concurency/main.cpp:172-177 | the resolved table handed to `bench` has only non-negative entries and holds every listed command's tuned key, so the regression applies to it |
| Autotune.BalancedFromCommandLine | concurency/main.cpp:172-217 | end to end: each distinct command's tuned key is rescaled from its resolved value when the command line never gave it or gave -1, and otherwise ends as the given value converted to `size_t` |
| Execution.QueuePool | concurency/bench_sycl.cpp:50-52 | a pool can be built exactly when the queue count is positive, and then it has that many queues; zero queues make `i % n_queues` divide by zero, and a negative count never ends the creation loop |
| Execution.DivModSucc | concurency/bench_sycl.cpp:89 | moving to the next command advances the queue index by one, wrapping to queue 0 after the last queue |
| Execution.RoundRobinCount | concurency/bench_sycl.cpp:87-89 | among the first `m` commands, queue `q` receives `m / n` of them, plus one when `q < m % n` |
| Execution.RoundRobinBalanced | concurency/bench_sycl.cpp:87-89 | no two queues' loads differ by more than one command, and with as many queues as commands every queue runs exactly one |
| Execution.BenchSyclQueues | concurency/bench_sycl.cpp:29-30 | only the count `-1` is replaced; the resulting pool can be built exactly when the given count is positive, or is `-1` and the mode is not `in_order` or there is a command |
| Execution.BenchOmpThreads | concurency/bench_omp.cpp:32-33 | only `-1` is replaced; the thread count is positive exactly when the given count is, or it is `-1` and the mode is not `host_threads` or there is a command |
| Execution.FasterQueues | concurency/faster.cpp:42-43 | only `-1` is replaced; the pool can be built exactly when the given count is positive, or is `-1` and there is a command |
| Execution.DefaultSyclQueues | concurency/bench_sycl.cpp:29-45 | with the default count, `in_order` mode gives every command its own in-order queue, while the other modes put every command on the single queue 0 |
| Execution.CountsAgreeAcrossDrivers | concurency/bench_omp.cpp:32-33 | the SYCL and OpenMP benches resolve a count the same way once `in_order` is paired with `host_threads`, and in `in_order` mode faster.cpp resolves it the same way too |
| Execution.BenchOmpPlan | concurency/bench_omp.cpp:52-95 | the OpenMP bench overlaps commands either with host threads or with `nowait` offloads, never both; `serial` runs on one thread and waits after each command; `nowait` never waits inside the loop; `host_threads` defaults to one thread per command |
| Execution.SyclBuffers | concurency/bench_sycl.cpp:55-72 | each command has at most one buffer per letter, and exactly one per letter when every letter is in the table |
| Execution.SyclBuffersAt | concurency/bench_sycl.cpp:59-70 | the `k`-th buffer of a command made of table letters has the kind of its `k`-th letter |
| Execution.SyclActionOf | concurency/bench_sycl.cpp:92-101 | `C` launches the kernel; any other command copies its first buffer into its second, and reads past its buffers when it has fewer than two |
| Execution.SyclBuffersPair | concurency/bench_sycl.cpp:55-72 | a two-letter transfer has the two buffers of its letters, in order |
| Execution.SyclTransferDirection | concurency/sycl_con.cpp:69-112 | a transfer `A2B` copies from A's memory to B's, and main.cpp's sanitised spelling makes bench_sycl.cpp submit exactly what sycl_con.cpp submits for the raw token |
| Execution.SyclOneBufferCommands | concurency/sycl_con.cpp:102-112 | a one-letter transfer such as `M` reads past its single buffer, and sycl_con.cpp takes `C2` for a copy while main.cpp's sanitised `C` is the kernel |
| Execution.SyclFreeMatchesAllocation | concurency/bench_sycl.cpp:132-136 | a buffer is released with `sycl::free` exactly when it was not obtained by `calloc`, which matches how it was allocated |
| Execution.OmpBuffer | concurency/bench_omp.cpp:38-50 | a command gets pinned host memory exactly when it contains `H`, and `calloc` memory otherwise |
| Execution.OmpBufferIgnoresSanitize | concurency/omp_con.cpp:55-67 | testing the raw command, as omp_con.cpp does, or the sanitised one, as bench_omp.cpp does, gives the same memory |
| Execution.OmpDriversAgree | concurency/omp_con.cpp:91-112 | on every canonical token the two OpenMP drivers submit the same operation, and never nothing |
| Execution.OmpConIgnoresShortSpelling | concurency/omp_con.cpp:100-112 | omp_con.cpp submits nothing for `MD`, which bench_omp.cpp treats as a host-to-device update |
| Execution.MetaAgreesWithBenchOmp | concurency/omp_con_meta.cpp:71-89 | on the tokens the meta driver accepts, it submits what bench_omp.cpp submits and allocates a buffer |
| Execution.FasterBuffers | concurency/faster.cpp:57-73 | faster.cpp allocates one buffer for every letter, leaving it uninitialised for a letter it does not know |
| Execution.FasterAction | concurency/faster.cpp:83-88 | faster.cpp copies the second buffer into the first, and reads past the buffers of any one-letter non-compute command |
| Execution.FasterDirectionReversed | concurency/faster.cpp:87 | `MD` copies device memory to host memory in faster.cpp but host memory to device memory in the later SYCL drivers |
| Timing.MinOf | concurency/bench_sycl.cpp:74-120 | the kept best is at most `LONG_MAX` and at most every reading, and is either `LONG_MAX` or one of the readings |
| Timing.MinOfBounds | concurency/bench_sycl.cpp:74-120 | with non-negative readings the kept best lies between 0 and `LONG_MAX` |
| Timing.Column | concurency/bench_sycl.cpp:103-109 | one command's readings, one per repetition |
| Timing.BestPerCommand | concurency/bench_sycl.cpp:76-109 | serial mode keeps, for every command, the smallest of its readings over all repetitions, starting from `LONG_MAX` |
| Timing.LongAccumulateWraps | concurency/bench_sycl.cpp:124-126 | `std::accumulate` in `long` with every partial sum wrapped equals the exact sum wrapped once into the `long` range |
| Timing.ZeroRepetitionsOverflow | concurency/bench_sycl.cpp:76-126 | with zero repetitions both command times stay `LONG_MAX`, their sum overflows, and serial mode reports a total of -2 microseconds |
| Timing.BenchLoop | concurency/bench_sycl.cpp:74-126 | the repetition loop returns the smallest whole-loop reading, lowered in serial mode to the wrapped sum of the per-command bests, and returns those bests only in serial mode |
| Timing.MinInto | concurency/bench_sycl.cpp:103-109 | one repetition lowers every command's kept time to its reading, if that is smaller, and keeps the number of commands |
| Timing.BestPerCommandStep | concurency/bench_sycl.cpp:103-109 | lowering the kept times by one more repetition's readings gives the per-command bests over one more repetition |
| Timing.MoreRepetitionsNeverWorse | concurency/bench_sycl.cpp:120 | one more repetition never raises the kept best, and the new best is at most the new reading |
| Timing.SerialTotalIsSumOfBests | concurency/bench_sycl.cpp:103-126 | when every repetition's total contains its command times, the serial total is exactly the sum of the per-command bests, and no command's best exceeds it |
| Timing.ArgMax | concurency/omp_con_meta.cpp:105-108 | `std::max_element` returns the first position of the largest command time |
| Timing.FirstMin | concurency/omp_con_meta.cpp:103 | the repetition kept by a strict `<` test is the first one with the smallest total |
| Timing.MetaConcurrentTotal | concurency/omp_con_meta.cpp:103-110 | the second `bench` call, with NULL out-parameters, writes through NULL exactly when the mode is `serial` and some repetition beats `LONG_MAX`; otherwise it returns the best total |
| Timing.RecordKeepsMin | concurency/omp_con_meta.cpp:61-104 | the recorded total is the smallest total, and a slowest command is recorded exactly when some repetition beat `LONG_MAX` |
| Timing.MinOfIsFirstMin | concurency/omp_con_meta.cpp:103-104 | the best total is the total of the first fastest repetition |
| Timing.RecordSpecStep | concurency/omp_con_meta.cpp:103-111 | one more repetition replaces the record only when its total is strictly below the kept one, and then records its first slowest command |
| Timing.MinOfSnoc | concurency/omp_con_meta.cpp:103-104 | the best of one more repetition is the smaller of the old best and the new total |
| Timing.FirstMinSnoc | concurency/omp_con_meta.cpp:103 | the first fastest repetition moves to the new one only when the new total is strictly smaller |
| Timing.RecordLoop | concurency/faster.cpp:76-107 | the loop records the first fastest repetition's total and, for it, the first slowest command and its time |
| Timing.RecordedSlowestWithinTotal | concurency/faster.cpp:100-106 | when a repetition's total contains its command times, the recorded slowest time lies between 0 and the recorded total |
| Verdict.Div | concurency/main.cpp:243-255 | a `double` quotient of two counts is finite with the exact value when the divisor is positive, `+inf` for a positive count over zero, `-inf` for a negative one, and NaN for zero over zero; its sign is the numerator's |
| Verdict.Scale | concurency/main.cpp:258 | multiplying by the positive factor `1 + TOL_SPEEDUP` keeps `+inf` and NaN and scales finite values |
| Verdict.SpeedupFailsIff | concurency/main.cpp:243-258 | with positive times, main.cpp fails exactly when `10 * concurrent >= 13 * slowest`; the serial total cancels |
| Verdict.QuotientAtMost | concurency/main.cpp:248 | comparing a quotient of counts with a fraction is the cross-multiplied integer comparison |
| Verdict.SpeedupWarnsIff | concurency/main.cpp:248-249 | the unbalance warning is printed exactly when there is a command and `2 * serial <= 3 * slowest` |
| Verdict.ConcurrentSucceedsIff | concurency/omp_con_meta.cpp:216-219 | omp_con_meta.cpp succeeds exactly when `10 * concurrent <= 13 * slowest`, for every input |
| Verdict.ConcurrentWarnsIff | concurency/omp_con_meta.cpp:201-208 | omp_con_meta.cpp warns exactly when `10 * serial <= 13 * slowest` |
| Verdict.RulesAgreeOffBoundary | concurency/main.cpp:258-264 | with positive times the newer and the older rule give opposite answers, except exactly at `10 * concurrent == 13 * slowest`, where the newer fails and the older succeeds |
| Verdict.ZeroConcurrentPasses | concurency/main.cpp:255-258 | a concurrent total of 0 makes the measured speedup infinite or NaN, and neither rule fails |
| Verdict.SpeedupIgnoresSerialScale | concurency/main.cpp:243-258 | any two positive serial totals give the same verdict |
| Verdict.MinOfPositive | concurency/main.cpp:234-235 | a best of positive readings is positive |
| Verdict.MainVerdictFromBench | concurency/main.cpp:234-264 | from the two `bench` results, with positive readings and serial totals that contain their command times, main.cpp fails exactly when 10 times the best concurrent total reaches 13 times the best time of the first slowest command |
| Verdict.ZeroRepetitionsFail | concurency/main.cpp:234-264 | with `--repetitions 0` and two commands, the serial total wraps to -2 while the concurrent total stays `LONG_MAX`, so both speedups are negative and main.cpp prints the unbalance warning and FAILURE |
| Verdict.TwoCommandScenarios | concurency/main.cpp:248-264 | two 1000us commands: 1250us concurrent passes both rules, 1300us fails the newer rule and passes the older one, 1400us fails both, and neither driver warns |
| Verdict.TheoreticalSpeedupBounds | concurency/main.cpp:243-245 | when the serial total is the sum of the command times, the theoretical speedup lies between 1 and the number of commands |
| Verdict.QuotientAtLeastOne | concurency/main.cpp:243-245 | a count over a positive smaller count is at least 1 |
| Verdict.NatSumBounds | concurency/main.cpp:243-245 | a sum of bounded counts is at least any one of them and at most the count times the bound |
| Verdict.ReportedBytes | concurency/main.cpp:24-27 | the reported byte count is the true count modulo 2^32, and equals it whenever it fits |
| Verdict.ReportedBytesWide | concurency/main.cpp:24-27 | counted at the width of the parameters, the byte count is the true transferred amount and is non-negative |
| Verdict.TransferBytesRepeat | concurency/main.cpp:25-27 | `n` copies of one transfer command move `n` times its buffer size in bytes |
| Verdict.ReportedBytesWraps | concurency/main.cpp:24-27 | five transfers at the default size of 1e9 bytes move 5e9 bytes but are reported as 705032704 |
| LogParse.Before | concurency/parse.py:29 | `split(sep)[0]` is a prefix of the line that contains no separator, and the whole line when the separator is absent |
| LogParse.NoEarlierOccurrence | concurency/parse.py:29 | a prefix that ends before the first separator contains none |
| LogParse.After | concurency/parse.py:19 | the text after the first separator is shorter than the line by at least the separator |
| LogParse.SplitReassembles | concurency/parse.py:19 | the text before the first separator, the separator and the text after it give back the line |
| LogParse.Field1 | concurency/parse.py:19 | `split(sep)[1]` holds no separator and begins the text after the first one |
| LogParse.Classify | concurency/parse.py:18-28 | a line is an `export` line exactly when it contains `export`; a command line exactly when it does not but contains `./`; a verdict line exactly when it contains neither but contains `FAILURE` or `SUCCESS` |
| LogParse.IndexOf | concurency/parse.py:23 | the position found holds the first occurrence of the word, and none is found exactly when the word is absent |
| LogParse.RemoveFirst | concurency/parse.py:22-27 | `list.remove` succeeds exactly when the word is present; then the result is the list without its first occurrence, everything else kept in order; otherwise the list is unchanged |
| LogParse.Fields | concurency/parse.py:21 | `strip().split()` yields non-empty words without whitespace |
| LogParse.ParseRun | concurency/parse.py:20-27 | a command line with fewer than three fields fails the unpacking; otherwise the kind is the third field, profiling is on exactly when `--enable_profiling` is among the later fields, and the arguments are those fields in order with the first such flag removed |
| LogParse.WordsSurviveRemoval | concurency/parse.py:22-23 | removing a flag leaves only whitespace-free words |
| LogParse.KeyDeterminesArgs | concurency/parse.py:32 | two argument lists give the same key `" ".join(argv)` exactly when they are the same list, so different runs never share a row |
| LogParse.Label | concurency/parse.py:29-31 | the recorded result is the text before the first colon, except that a `FAILURE` under profiling becomes `SUCCESS*`; it is `FAILURE` exactly when profiling is off and the line's head is `FAILURE` |
| LogParse.Store | concurency/parse.py:32 | after `d_result[env][key][kind] = result` that entry holds the result and every other entry is unchanged |
| LogParse.Step | concurency/parse.py:17-32 | an `export` line sets only the environment; a command line sets only the run, and fails exactly when its fields are too few; a verdict line fails exactly when no command line came before, and otherwise files its label under the current environment, argument string and kind; other lines change nothing |
| LogParse.ParseAppend | concurency/parse.py:17 | reading a log in two pieces gives the same outcome as reading it in one |
| LogParse.LastExport | concurency/parse.py:18-19 | the index found is the last `export` line, and none is found exactly when there is no `export` line |
| LogParse.EnvIsLatestExport | concurency/parse.py:16-19 | the environment after a log is the one named by its latest `export` line, or the starting one when there is none |
| LogParse.VerdictBeforeRunFails | concurency/parse.py:28-32 | a verdict line before any command line stops the script, since there is no run to file it under |
| LogParse.NoRunWithoutRunLine | concurency/parse.py:20-27 | without command lines the parser never learns a run |
| LogParse.ErrorSticks | concurency/parse.py:17 | once the script has stopped, further lines change nothing |
| LogParse.ParseTwo | concurency/parse.py:17 | a two-line log is the two steps in order |
| LogParse.ParseOne | concurency/parse.py:17 | a one-line log is one step |
| LogParse.LaterVerdictWins | concurency/parse.py:32 | of two verdicts for the same run, the table keeps the later one |
| LogParse.ProfiledRunNeverFails | concurency/parse.py:21-32 | a run whose command line carries the profiling flag is never recorded as `FAILURE` |
| LogParse.BenchmarkVerdicts | concurency/parse.py:29-31 | main.cpp's failure line is filed as `SUCCESS*` under profiling and as `FAILURE` without it, and the older drivers' success line as `SUCCESS` |
| LogParse.FailureVerdictLabel | concurency/parse.py:29-31 | the failure line's label is `SUCCESS*` under profiling and `FAILURE` otherwise |
| LogParse.SuccessVerdictLabel | concurency/parse.py:29-31 | the success line's label under profiling is `SUCCESS` |
| LogParse.VerdictHead | concurency/parse.py:29 | a line whose first colon follows a seven-letter verdict word has that word as its head |
| LogParse.LabelOfHead | concurency/parse.py:30-31 | the label is the head, except that a `FAILURE` head under profiling becomes `SUCCESS*` |
| LogParse.FirstColon | concurency/parse.py:29 | in a line whose first colon is at index 7, the head is the first seven characters |
| Allreduce.Pow2Bound | aurora.mpich.miniapps/src/allreduce/mpi-sycl/allreduce-mpi-sycl.cpp:127 | every shift amount from 0 to 30 gives a power of two that fits a 32-bit `int` |
| Allreduce.ShiftedSize | aurora.mpich.miniapps/src/allreduce/mpi-sycl/allreduce-mpi-sycl.cpp:125-128 | `-p x` yields a valid array size exactly when `0 <= x <= 30`, and that size is `2^x`, at most `INT_MAX`; any other shift yields no valid size |
| Allreduce.ApplyOptions | aurora.mpich.miniapps/src/allreduce/mpi-sycl/allreduce-mpi-sycl.cpp:107-131 | the `getopt` loop stops with the usage exactly when `-h` appears; it spins forever exactly when there is no `-h` and a non-option argument is present; `-a` selects the collective; without `H`/`D`/`S` in the option string the allocation kind is left alone |
| Allreduce.ApplyOne | aurora.mpich.miniapps/src/allreduce/mpi-sycl/allreduce-mpi-sycl.cpp:109-129 | one case of the option `switch`: only `-a` turns the collective on, and the allocation letters act only when the option string has them |
| Allreduce.ApplyOptionsSingle | aurora.mpich.miniapps/src/allreduce/mpi-sycl/allreduce-mpi-sycl.cpp:107-131 | a command line with one option that is neither `-h` nor a non-option is exactly one case of the `switch` |
| Allreduce.PowerOption | aurora.mpich.miniapps/src/allreduce/mpi-sycl/allreduce-mpi-sycl.cpp:125-128 | `-p` with the decimal text of any `x <= 30` sets the array size to `2^x` |
| Allreduce.PowerArgument | aurora.mpich.miniapps/src/allreduce/mpi-omp-offload/allreduce-usm-mpi-omp-offload.cpp:113-116 | `atoi` of the decimal text of `x` is `x`, so `-p` shifts by exactly that amount |
| Allreduce.PowerOutOfRange | aurora.mpich.miniapps/src/allreduce/mpi-omp-offload/allreduce-map-mpi-omp-offload.cpp:88-91 | `-p` with a negative amount or one above 30 leaves no valid array size |
| Allreduce.FinalValues | aurora.mpich.miniapps/src/allreduce/mpi-sycl/allreduce-mpi-sycl.cpp:173-182 | the timed section leaves one result value per rank |
| Allreduce.FinalValuesPass | aurora.mpich.miniapps/src/allreduce/mpi-sycl/allreduce-mpi-sycl.cpp:192-204 | after the ring of `n - 1` rounds, or after the collective, every rank holds `(n - 1) * n / 2`, so the closing assertion holds |
| Allreduce.RingCompletesIff | aurora.mpich.miniapps/src/allreduce/mpi-omp-offload/allreduce-usm-mpi-omp-offload.cpp:187-197 | the ring completes exactly when there is one rank (no round at all) or the number of ranks is even |
| Allreduce.RunRing | aurora.mpich.miniapps/src/allreduce/mpi-omp-offload/allreduce-usm-mpi-omp-offload.cpp:187-214 | the timed section fails exactly when the ring is used with an odd number of ranks of at least three, and then it fails by deadlock; otherwise every rank passes the check |
| Allreduce.RunWith | aurora.mpich.miniapps/src/allreduce/mpi-omp-offload/allreduce-usm-mpi-omp-offload.cpp:141-214 | a run after device selection fails with an invalid size exactly when `1 << x` gave none, deadlocks exactly when the size is valid and the ring meets an odd size of at least three, and otherwise passes |
| Allreduce.SyclMain | aurora.mpich.miniapps/src/allreduce/mpi-sycl/allreduce-mpi-sycl.cpp:95-204 | the SYCL miniapp refuses exactly the sizes that are odd or below four, spins exactly on a non-option argument without `-h`, passes only with a device, and never deadlocks |
| Allreduce.SyclGuardMatches | aurora.mpich.miniapps/src/allreduce/mpi-sycl/allreduce-mpi-sycl.cpp:95-97 | the SYCL size check admits exactly the sizes of at least three ranks at which the ring completes |
| Allreduce.SyclDeviceChoice | aurora.mpich.miniapps/src/allreduce/mpi-sycl/allreduce-mpi-sycl.cpp:135-147 | with the rank's device list from `get_devices(mpi_rank, mpi_size, true)`, `mpi_rank % num_devices` picks an entry of that list, and with no matching platform the miniapp never runs the ring |
| Allreduce.UsmMain | aurora.mpich.miniapps/src/allreduce/mpi-omp-offload/allreduce-usm-mpi-omp-offload.cpp:95-214 | the USM miniapp as written: it stops with "No devices" exactly when options are accepted and there is no device, spins exactly on a non-option argument without `-h`, and passes only with a device |
| Allreduce.MapMain | aurora.mpich.miniapps/src/allreduce/mpi-omp-offload/allreduce-map-mpi-omp-offload.cpp:79-164 | the mapped miniapp as written: with zero devices and accepted options it reaches `rank % 0`, it spins exactly on a non-option argument without `-h`, and it passes only with a device |
| Allreduce.ThreeRanksHang | aurora.mpich.miniapps/src/allreduce/mpi-omp-offload/allreduce-map-mpi-omp-offload.cpp:136-145 | with three ranks the USM and mapped miniapps start the ring and deadlock, while the SYCL miniapp rejects the size |
| Allreduce.OneRankPasses | aurora.mpich.miniapps/src/allreduce/mpi-omp-offload/allreduce-usm-mpi-omp-offload.cpp:187-197 | with one rank the USM and mapped miniapps post no message and pass with the value 0 |
| Allreduce.UsmMainGuarded | aurora.mpich.miniapps/src/allreduce/mpi-omp-offload/allreduce-usm-mpi-omp-offload.cpp:187-197 | the USM miniapp with the SYCL size check added rejects exactly the sizes the SYCL miniapp rejects, never deadlocks, and passes whenever it completes |
| Allreduce.MapMainGuarded | aurora.mpich.miniapps/src/allreduce/mpi-omp-offload/allreduce-map-mpi-omp-offload.cpp:136-145 | the mapped miniapp with the SYCL size check added rejects exactly the sizes the SYCL miniapp rejects, never deadlocks, and passes whenever it completes |
| Allreduce.GuardedAgreesWithSycl | aurora.mpich.miniapps/src/allreduce/mpi-sycl/allreduce-mpi-sycl.cpp:95-97 | with the size check added and at least one device, the USM and mapped miniapps give the same outcome as the SYCL miniapp on every command line without allocation letters |
| Allreduce.OptionsIgnoreAlloc | aurora.mpich.miniapps/src/allreduce/mpi-omp-offload/allreduce-usm-mpi-omp-offload.cpp:95-119 | without `-H`, `-D` or `-S`, the default allocation kind changes neither whether the option loop stops, nor the size, nor the collective choice |
| Allreduce.OptionsIgnoreFlag | aurora.mpich.miniapps/src/allreduce/mpi-omp-offload/allreduce-map-mpi-omp-offload.cpp:79-94 | on command lines without allocation letters, the option string `hap:` of the mapped miniapp behaves as `haHDSp:` |

## Left out

- Kernels, copies and clocks are not executed: `busy_wait`, `parallel_for`, `Q.copy`, OpenMP `target` regions and `high_resolution_clock` are replaced by their decisions (which queue, which buffer, which operation) and by clock readings given as inputs.
- Output formatting is left out: the `std::cout`/`std::cerr` text, the help text, `time_info`'s bandwidth figure (its byte count is modelled) and parse.py's table printing with `tabulate` (parse.py lines 34-38). `print_help_and_exit` becomes an error value.
- Allocation is left out, apart from the kind of memory chosen and how it is released. Allocation failures are not modelled.
- MPI transport is left out. Ranks are simulated in one sequential model, with a send matched to a receive by source, destination and tag. Message contents are one value per rank, because the miniapps fill every element of an array with the same value.
- The miniapps' `MPI_Allreduce` of the elapsed times (with `MPI_MAX`) and their printed timings are left out.
- The OpenMP miniapps read `LIBOMPTARGET_DEVICES` into a `use_subdevices` flag that nothing uses. The environment is not modelled.
- The miniapps' element type `APP_DATA_TYPE` (by default `float`) is modelled as mathematical integers, and the `std::abs(result - VC[i]) < 1e-6` check as equality. All values involved are integers no larger than `size (size - 1) / 2`.
- concurency/bench.hpp (the shared `bench` declaration and `print_help_and_exit`), aurora.mpich.miniapps/src/include/mpi_datatype.hpp and the `sycl_omp_ze_interopt` files are not part of this model.
- omp_con.cpp chooses how commands overlap with the compile-time macros `NOWAIT` and `HOST_THREADS`, not with its mode. For that driver only the operation each command submits is modelled (Execution.OmpDriversAgree). The overlap plan is modelled for bench_omp.cpp (Execution.BenchOmpPlan).
- The miniapps' `getopt` is taken to be GNU `getopt`, which permutes the arguments so that every option is seen before the non-options. A strictly POSIX `getopt` stops at the first non-option, so it would never see an `-h` placed after one. That variant is not modelled. With either variant a non-option argument makes the `while (optind < argc)` loop spin.
- The USM miniapp's allocation-kind branches (`-H`, `-D`, `-S`) only choose where the arrays live. They are modelled as settings that do not change the result.
- The SYCL miniapp copies device-resident results into shared memory before checking them. That copy does not change the values checked and is not modelled.
- `1 << x` outside `0 .. 30` is undefined or overflows `int` in C++. The model treats it as an invalid array size instead of giving it a value.
- The meta driver's `threads_count` is read and passed to `bench`, which never uses it. The model keeps it as a field only.
- SpeedupFails: the speedup rule is decided on exact reals, not on rounded `double` values. Next to the boundary the program can decide the other way. Serial 1, slowest 70 and concurrent 91 meet the exact rule (`910 == 910`), so the model says FAILURE. The doubles compare `0.014285714285714285 < 0.014285714285714287`, so the program prints SUCCESS. The same exact-arithmetic reading applies to Verdict.RulesAgreeOffBoundary, Verdict.SpeedupIgnoresSerialScale and Verdict.MainVerdictFromBench.
- Rescaled: the autotuning regression `(1. * min_time) / time * parameter` is computed on exact reals before truncation. The program rounds twice, so it can give one less. For `min_time = 1`, `time = 49` and `parameter = 49` the doubles give `0.9999999999999999`, so the parameter becomes 0 where the model gives 1. Autotune.RescaledIsQuotient, Autotune.RescaledBalances and Autotune.BalancedTransfers state the exact-arithmetic value.
- ApplyAutotune: a serial time of 0 for a command whose tuned parameter is unset is excluded by `UnsetTimesPositive`. In the source it divides by zero and converts `inf` or NaN to `long`, which is undefined behaviour with no value to model.
- LongAccumulate: signed `long` overflow in `std::accumulate` is undefined behaviour in C++. The model takes the two's-complement wrap-around of the usual compilers, which is what Timing.ZeroRepetitionsOverflow and Verdict.ZeroRepetitionsFail rely on.
- MainVerdictFromBench: the verdict is characterised for runs with at least one repetition and positive readings. A run without repetitions is covered for two commands only, by Verdict.ZeroRepetitionsFail. For other command counts the wrapped serial total (`-count` for an even count, `LONG_MAX + 1 - count` for an odd one) is not carried through to the verdict.
- IsSpace: only the ASCII characters for which Python's `str.isspace` holds count as white space. Python's `strip()` and `split()` also treat Unicode white space such as U+00A0 and U+2028 as separators, and the model does not.
- Micros: clock readings are between 0 and `LONG_MAX` microseconds. A negative reading would need `high_resolution_clock` to go backwards, which it may do when it is not steady. That case is not modelled.
- Devices.SingleDevice: a rank of the non-Intel branch with no CUDA device divides by zero in the source. The model reports it as no device.

## Findings

| source | as written | input that shows it | evidently intended | confidence | as-written member | corrected member |
|---|---|---|---|---|---|---|
| aurora.mpich.miniapps/src/allreduce/mpi-omp-offload/allreduce-usm-mpi-omp-offload.cpp:187-197 | the USM and mapped miniapps check neither the parity nor the number of ranks before the parity-ordered ring; with an odd number of ranks (three or more), rank 0 waits for a tag-0 message from the last rank, which only sends with tag 1 | `mpirun -n 3` of either miniapp with no option | refuse odd sizes, as the SYCL miniapp does (allreduce-mpi-sycl.cpp lines 95-97), so that no accepted run hangs | not executed | Allreduce.ThreeRanksHang | Allreduce.UsmMainGuarded |
| aurora.mpich.miniapps/src/allreduce/mpi-omp-offload/allreduce-map-mpi-omp-offload.cpp:136-145 | the mapped miniapp has the same ring loop, without a size check | `mpirun -n 3` with no option | the same size check | not executed | Allreduce.ThreeRanksHang | Allreduce.MapMainGuarded |
| concurency/main.cpp:24-27 | `time_info` sums the transferred bytes in a 32-bit `unsigned`, so a run that moves 4 GiB or more reports the byte count modulo 2^32 | the commands `MD MD MD MD MD` at the default size of 1e9 bytes each: 5e9 bytes are reported as 705032704 | count at the width of the `size_t` parameters | not executed | Verdict.ReportedBytesWraps | Verdict.ReportedBytesWide |
