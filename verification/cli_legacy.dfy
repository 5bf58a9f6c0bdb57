/** The command lines of the two earlier drivers: concurency/omp_con_meta.cpp
    (an option loop with whole-token commands) and concurency/faster.cpp
    (purely positional arguments decoded with `atoi`). */
module LegacyCli {
  import opened Common
  import opened Text
  import opened Numbers

  // ---------------------------------------------------------------------------
  // omp_con_meta.cpp
  // ---------------------------------------------------------------------------

  const META_TRIPCOUNT_DEFAULT: int := 10000

  datatype MetaConfig = MetaConfig(mode: string, commands: seq<string>, tripcount: int, threads: int)

  datatype MetaError =
    | MetaHelp
    | MetaBadMode(mode: string)
    | MetaMissingValue(option: string)
    | MetaUnsupportedOption(option: string)
    | MetaUnsupportedCommand(token: string)
    | MetaNoCommands
    | MetaBadNumber(option: string, error: NumError)

  predicate MetaValidMode(mode: string)
  {
    mode == "nowait" || mode == "host_threads" || mode == "serial"
  }

  /** Whole tokens only: no '2' is removed and no other spelling is accepted. */
  predicate MetaCommand(tok: string)
  {
    tok == "C" || tok == "MD" || tok == "DM"
  }

  function MetaScan(args: seq<string>, i: nat, acc: MetaConfig): (r: Result<MetaConfig, MetaError>)
    requires forall k :: 0 <= k < |acc.commands| ==> MetaCommand(acc.commands[k])
    ensures r.Ok? ==> forall k :: 0 <= k < |r.value.commands| ==> MetaCommand(r.value.commands[k])
    ensures r.Ok? ==> r.value.mode == acc.mode && acc.commands <= r.value.commands
    ensures r.Err? ==> !r.error.MetaHelp? && !r.error.MetaBadMode? && !r.error.MetaNoCommands?
    decreases |args| - i
  {
    if i >= |args| then Ok(acc)
    else
      var s := args[i];
      if s == "--threads_count" then
        if i + 1 >= |args| then Err(MetaMissingValue(s))
        else if Stoi(args[i + 1]).Err? then Err(MetaBadNumber(s, Stoi(args[i + 1]).error))
        else MetaScan(args, i + 2, acc.(threads := Stoi(args[i + 1]).value))
      else if s == "--kernel_tripcount" then
        if i + 1 >= |args| then Err(MetaMissingValue(s))
        else if Stol(args[i + 1]).Err? then Err(MetaBadNumber(s, Stol(args[i + 1]).error))
        else MetaScan(args, i + 2, acc.(tripcount := Stol(args[i + 1]).value))
      else if StartsWith(s, "-") then Err(MetaUnsupportedOption(s))
      else if !MetaCommand(s) then Err(MetaUnsupportedCommand(s))
      else MetaScan(args, i + 1, acc.(commands := acc.commands + [s]))
  }

  /** The whole front end of omp_con_meta.cpp; `argl` is `argv` without the
      program name. An unset thread count becomes the number of commands. */
  function MetaParse(argl: seq<string>): (r: Result<MetaConfig, MetaError>)
    ensures |argl| == 0 <==> r == Err(MetaHelp)
    ensures |argl| > 0 && !MetaValidMode(argl[0]) ==> r == Err(MetaBadMode(argl[0]))
    ensures r.Ok? ==> MetaValidMode(r.value.mode) && |r.value.commands| > 0
    ensures r.Ok? ==> forall k :: 0 <= k < |r.value.commands| ==> MetaCommand(r.value.commands[k])
    ensures r.Ok? ==> r.value.threads != UNSET_THREADS
  {
    if |argl| == 0 then Err(MetaHelp)
    else if !MetaValidMode(argl[0]) then Err(MetaBadMode(argl[0]))
    else
      match MetaScan(argl, 1, MetaConfig(argl[0], [], META_TRIPCOUNT_DEFAULT, UNSET_THREADS))
      case Err(e) => Err(e)
      case Ok(c) =>
        var t := if c.threads == UNSET_THREADS then |c.commands| else c.threads;
        if |c.commands| == 0 then Err(MetaNoCommands) else Ok(c.(threads := t))
  }

  const UNSET_THREADS: int := -1

  lemma MetaScanCommands(args: seq<string>, i: nat, acc: MetaConfig)
    requires forall k :: 0 <= k < |acc.commands| ==> MetaCommand(acc.commands[k])
    requires i <= |args|
    requires forall k :: i <= k < |args| ==> MetaCommand(args[k])
    ensures MetaScan(args, i, acc) == Ok(acc.(commands := acc.commands + args[i..]))
    decreases |args| - i
  {
    if i == |args| {
      assert args[i..] == [];
      AppendNil(acc.commands);
    } else {
      var s := args[i];
      assert !StartsWith(s, "-") by {
        assert s[0] == 'C' || s[0] == 'M' || s[0] == 'D';
      }
      MetaScanCommands(args, i + 1, acc.(commands := acc.commands + [s]));
      SliceCons(args, i);
      AppendCons(acc.commands, s, args[i + 1..]);
    }
  }

  /** A mode followed only by commands: the commands are kept as typed, the
      tripcount is 10000 and there is one thread per command. */
  lemma MetaParsePositional(mode: string, toks: seq<string>)
    requires MetaValidMode(mode) && |toks| > 0
    requires forall k :: 0 <= k < |toks| ==> MetaCommand(toks[k])
    ensures MetaParse([mode] + toks) == Ok(MetaConfig(mode, toks, META_TRIPCOUNT_DEFAULT, |toks|))
  {
    var argl := [mode] + toks;
    var acc := MetaConfig(mode, [], META_TRIPCOUNT_DEFAULT, UNSET_THREADS);
    MetaScanCommands(argl, 1, acc);
    assert argl[1..] == toks;
    assert acc.commands + argl[1..] == toks;
  }

  /** Unlike the newer front ends, the meta driver does not accept the `A2B`
      spelling of a transfer. */
  lemma MetaRejectsTransferSpelling(mode: string)
    requires MetaValidMode(mode)
    ensures MetaParse([mode, "M2D"]) == Err(MetaUnsupportedCommand("M2D"))
    ensures MetaParse([mode, "MD"]).Ok?
  {
    assert !StartsWith("M2D", "-") by { assert "M2D"[0] == 'M'; }
    MetaParsePositional(mode, ["MD"]);
    assert [mode] + ["MD"] == [mode, "MD"];
  }

  // ---------------------------------------------------------------------------
  // faster.cpp
  // ---------------------------------------------------------------------------

  datatype FasterConfig = FasterConfig(
    tripcount: int,
    profiling: bool,
    inOrder: bool,
    queues: int,
    commands: seq<string>)

  /** Why faster.cpp cannot run a command line: with fewer than four
      arguments `main` hands an `argv` entry that is the terminating NULL, or
      lies past it, to `atoi` or `std::string`; with exactly four no command
      is left, so the serial `bench` dereferences `max_element` of an empty
      vector. */
  datatype FasterFault = MissingArgument | NoCommandTimes

  /** Decoding of `argv[1..]`: `atoi` of the first and fourth argument, two
      exact-match flags, and every later argument a command; `-1` queues means
      one queue per command. */
  function FasterDecode(argl: seq<string>): (r: Result<FasterConfig, FasterFault>)
    ensures r == Err(MissingArgument) <==> |argl| < 4
    ensures r == Err(NoCommandTimes) <==> |argl| == 4
    ensures r.Ok? ==> r.value.commands == argl[4..] && |r.value.commands| > 0
    ensures r.Ok? ==> (r.value.profiling <==> argl[1] == "enable_profiling")
    ensures r.Ok? ==> (r.value.inOrder <==> argl[2] == "in_order")
    ensures r.Ok? ==> InInt(r.value.tripcount)
  {
    if |argl| < 4 then Err(MissingArgument)
    else if |argl| == 4 then Err(NoCommandTimes)
    else
      var q := Atoi(argl[3]);
      var cmds := argl[4..];
      Ok(FasterConfig(Atoi(argl[0]), argl[1] == "enable_profiling", argl[2] == "in_order",
                      if q == -1 then |cmds| else q, cmds))
  }

  /** The argument vector a user writes for a configuration. */
  function FasterEncode(c: FasterConfig): seq<string>
  {
    [Decimal(c.tripcount),
     if c.profiling then "enable_profiling" else "disable_profiling",
     if c.inOrder then "in_order" else "out_of_order",
     Decimal(c.queues)] + c.commands
  }

  /** Decoding inverts encoding for every `int`-range configuration with at
      least one command, except that `-1` queues is resolved to the number of
      commands. */
  lemma FasterRoundTrip(c: FasterConfig)
    requires InInt(c.tripcount) && InInt(c.queues) && |c.commands| > 0
    ensures FasterDecode(FasterEncode(c)) ==
            Ok(c.(queues := if c.queues == -1 then |c.commands| else c.queues))
  {
    var a := FasterEncode(c);
    assert a[0] == Decimal(c.tripcount) && a[3] == Decimal(c.queues);
    assert a[1] == "enable_profiling" <==> c.profiling;
    assert a[2] == "in_order" <==> c.inOrder;
    assert a[4..] == c.commands;
    AtoiRoundTrip(c.tripcount);
    AtoiRoundTrip(c.queues);
  }

  /** The profiling flag is an exact word: the option spelling of the other
      drivers leaves profiling off. */
  lemma FasterProfilingSpelling(rest: seq<string>)
    requires |rest| >= 3
    ensures FasterDecode(["1", "--enable_profiling"] + rest).Ok?
    ensures !FasterDecode(["1", "--enable_profiling"] + rest).value.profiling
  {
    var a := ["1", "--enable_profiling"] + rest;
    assert a[1] == "--enable_profiling";
    assert |"--enable_profiling"| != |"enable_profiling"|;
  }
}
