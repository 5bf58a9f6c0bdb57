/** The command-line front end shared, with variations, by concurency/main.cpp
    (linked with either concurency/bench_sycl.cpp or concurency/bench_omp.cpp),
    concurency/sycl_con.cpp and concurency/omp_con.cpp: mode validation, the
    option loop, command-token validation and the queue-count default. */
module Cli {
  import opened Common
  import opened Text
  import opened Numbers
  import opened Parameters

  /** The four programs that share this front end. */
  datatype Program = MainSycl | MainOmp | SyclCon | OmpCon
  {
    predicate IsMain() { MainSycl? || MainOmp? }
  }

  datatype Config = Config(
    mode: string,
    commands: seq<string>,
    cli: map<string, int>,
    profiling: bool,
    verbose: bool,
    queues: int,
    repetitions: int)

  /** Every way the front end ends the process with usage text, or with an
      uncaught `std::stoi`/`std::stol` exception (`BadNumber`). */
  datatype CliError =
    | ShowHelp
    | BadMode(mode: string)
    | MissingValue(option: string)
    | UnsupportedOption(option: string)
    | UnsupportedCommand(token: string)
    | NoCommands
    | BadNumber(option: string, error: NumError)

  /** `validate_mode` of the linked bench file, or the inline check. */
  predicate ValidMode(p: Program, mode: string)
  {
    if p.MainSycl? || p.SyclCon? then mode == "in_order" || mode == "out_of_order" || mode == "serial"
    else mode == "nowait" || mode == "host_threads" || mode == "serial"
  }

  /** The letters a command token may be made of (after removing '2'). */
  function Letters(p: Program): set<char>
  {
    if p.SyclCon? then {'C', 'M', 'D', 'S', 'H'} else {'C', 'M', 'D', 'H'}
  }

  predicate AcceptedToken(p: Program, tok: string)
  {
    forall c :: c in Sanitize(tok) ==> c in Letters(p)
  }

  /** main.cpp stores the sanitised token; the standalone programs store the
      token as typed. */
  function StoredToken(p: Program, tok: string): string
  {
    if p.IsMain() then Sanitize(tok) else tok
  }

  /** The repetition option: the standalone programs only know the misspelt
      `--repetitionss`. */
  function RepetitionsOption(p: Program): string
  {
    if p.IsMain() then "--repetitions" else "--repetitionss"
  }

  /** The mode in which the default queue count is one queue per command. */
  function OneQueuePerCommandMode(p: Program): string
  {
    if p.SyclCon? then "in_order" else "host_threads"
  }

  function DefaultQueues(p: Program, mode: string, numCommands: nat): (q: nat)
  {
    if mode == OneQueuePerCommandMode(p) then numCommands else 1
  }

  /** `s.rfind("--tripcount_") == 0 || s.rfind("--globalsize_", 0) == 0`. */
  predicate IsParameterOption(s: string)
  {
    RFind(s, "--tripcount_") == Some(0) || StartsWith(s, "--globalsize_")
  }

  /** What a stored command looks like: made of accepted letters, and with no
      '2' left when main.cpp sanitised it. */
  predicate StoredOk(p: Program, cmd: string)
  {
    AcceptedToken(p, cmd) && (p.IsMain() ==> '2' !in cmd)
  }

  predicate ConfigInvariant(p: Program, c: Config)
  {
    && LongValues(c.cli)
    && InitialCliTable().Keys <= c.cli.Keys
    && forall k :: 0 <= k < |c.commands| ==> StoredOk(p, c.commands[k])
  }

  lemma StoredTokenOk(p: Program, tok: string)
    requires AcceptedToken(p, tok)
    ensures StoredOk(p, StoredToken(p, tok))
  {
    SanitizeIdempotent(tok);
  }

  /** An argument that does not start with '-' is none of the options. */
  lemma NoDashNoOption(p: Program, s: string)
    ensures !StartsWith(s, "-") ==>
              && s != "--enable_profiling" && s != "--verbose" && s != "--queues"
              && s != RepetitionsOption(p) && !IsParameterOption(s)
  {
    if |s| > 0 && s[0] == '-' {
      assert s[..1] == "-";
    }
    if RFind(s, "--tripcount_") == Some(0) {
      assert OccursAt(s, "--tripcount_", 0);
      assert s[0] == '-';
    }
    if StartsWith(s, "--globalsize_") {
      assert s[0] == '-';
    }
  }

  predicate PlainToken(p: Program, tok: string)
  {
    !StartsWith(tok, "-") && AcceptedToken(p, tok)
  }

  /** How the option loop reads one argument, in the order it tests them. */
  datatype ArgKind =
    | ProfilingFlag
    | VerboseFlag
    | QueuesOption
    | RepetitionsValue
    | ParameterValue
    | OtherOption
    | CommandToken
    | BadCommandToken

  function Classify(p: Program, s: string): (k: ArgKind)
    ensures k == CommandToken <==> PlainToken(p, s)
    ensures k == BadCommandToken <==> !StartsWith(s, "-") && !AcceptedToken(p, s)
  {
    NoDashNoOption(p, s);
    if s == "--enable_profiling" && !p.OmpCon? then ProfilingFlag
    else if s == "--verbose" && p.IsMain() then VerboseFlag
    else if s == "--queues" then QueuesOption
    else if s == RepetitionsOption(p) then RepetitionsValue
    else if IsParameterOption(s) then ParameterValue
    else if StartsWith(s, "-") then OtherOption
    else if AcceptedToken(p, s) then CommandToken
    else BadCommandToken
  }

  /** The option loop, from argument `i` on (argument 0 is the mode). */
  function Scan(p: Program, args: seq<string>, i: nat, acc: Config): (r: Result<Config, CliError>)
    requires ConfigInvariant(p, acc)
    ensures r.Ok? ==> ConfigInvariant(p, r.value)
    ensures r.Ok? ==> r.value.mode == acc.mode && acc.commands <= r.value.commands
    ensures r.Err? ==> !r.error.ShowHelp? && !r.error.BadMode? && !r.error.NoCommands?
    decreases |args| - i
  {
    if i >= |args| then Ok(acc)
    else
      var s := args[i];
      match Classify(p, s)
      case ProfilingFlag => Scan(p, args, i + 1, acc.(profiling := true))
      case VerboseFlag => Scan(p, args, i + 1, acc.(verbose := true))
      case QueuesOption =>
        if i + 1 >= |args| then Err(MissingValue(s))
        else if Stoi(args[i + 1]).Err? then Err(BadNumber(s, Stoi(args[i + 1]).error))
        else Scan(p, args, i + 2, acc.(queues := Stoi(args[i + 1]).value))
      case RepetitionsValue =>
        if i + 1 >= |args| then Err(MissingValue(s))
        else if Stoi(args[i + 1]).Err? then Err(BadNumber(s, Stoi(args[i + 1]).error))
        else Scan(p, args, i + 2, acc.(repetitions := Stoi(args[i + 1]).value))
      case ParameterValue =>
        if i + 1 >= |args| then Err(MissingValue(s))
        else if Stol(args[i + 1]).Err? then Err(BadNumber(s, Stol(args[i + 1]).error))
        else Scan(p, args, i + 2, SetParameter(p, acc, s, Stol(args[i + 1]).value))
      case OtherOption => Err(UnsupportedOption(s))
      case BadCommandToken => Err(UnsupportedCommand(s))
      case CommandToken => Scan(p, args, i + 1, AddCommand(p, acc, s))
  }

  /** `--<key> <value>` stores the value under the key without its dashes. */
  function SetParameter(p: Program, acc: Config, option: string, v: int): (c: Config)
    requires ConfigInvariant(p, acc) && IsParameterOption(option) && InLong(v)
    ensures ConfigInvariant(p, c)
    ensures c.mode == acc.mode && c.commands == acc.commands
  {
    ParameterOptionLength(option);
    acc.(cli := acc.cli[option[2..] := v])
  }

  lemma ParameterOptionLength(s: string)
    requires IsParameterOption(s)
    ensures |s| >= 2
  {
    if RFind(s, "--tripcount_") == Some(0) {
      assert OccursAt(s, "--tripcount_", 0);
    }
  }

  /** A command token is appended in its stored spelling. */
  function AddCommand(p: Program, acc: Config, tok: string): (c: Config)
    requires ConfigInvariant(p, acc) && AcceptedToken(p, tok)
    ensures ConfigInvariant(p, c)
    ensures c.mode == acc.mode && c.commands == acc.commands + [StoredToken(p, tok)]
  {
    StoredTokenOk(p, tok);
    acc.(commands := acc.commands + [StoredToken(p, tok)])
  }

  function InitialConfig(mode: string): Config
  {
    Config(mode, [], InitialCliTable(), false, false, UNSET, 10)
  }

  /** The whole front end: `argl` is `argv` without the program name. */
  function Parse(p: Program, argl: seq<string>): (r: Result<Config, CliError>)
    ensures |argl| == 0 <==> r == Err(ShowHelp)
    ensures |argl| > 0 && !ValidMode(p, argl[0]) ==> r == Err(BadMode(argl[0]))
    ensures r.Ok? ==> ValidMode(p, r.value.mode) && |r.value.commands| > 0
    ensures r.Ok? ==> ConfigInvariant(p, r.value)
    ensures r.Ok? ==> r.value.queues != UNSET
  {
    if |argl| == 0 then Err(ShowHelp)
    else if !ValidMode(p, argl[0]) then Err(BadMode(argl[0]))
    else
      match Scan(p, argl, 1, InitialConfig(argl[0]))
      case Err(e) => Err(e)
      case Ok(c) =>
        var q := if c.queues == UNSET then DefaultQueues(p, c.mode, |c.commands|) else c.queues;
        if |c.commands| == 0 then Err(NoCommands) else Ok(c.(queues := q))
  }

  // ---------------------------------------------------------------------------
  // Properties of the front end
  // ---------------------------------------------------------------------------

  function StoreAll(p: Program, toks: seq<string>): seq<string>
  {
    seq(|toks|, k requires 0 <= k < |toks| => StoredToken(p, toks[k]))
  }

  lemma ScanCommandStep(p: Program, args: seq<string>, i: nat, acc: Config)
    requires ConfigInvariant(p, acc) && i < |args| && PlainToken(p, args[i])
    ensures StoredOk(p, StoredToken(p, args[i]))
    ensures Scan(p, args, i, acc) ==
            Scan(p, args, i + 1, acc.(commands := acc.commands + [StoredToken(p, args[i])]))
  {
    StoredTokenOk(p, args[i]);
    assert Classify(p, args[i]) == CommandToken;
  }

  lemma ScanRepetitionsStep(p: Program, args: seq<string>, i: nat, acc: Config)
    requires ConfigInvariant(p, acc) && i + 1 < |args| && args[i] == RepetitionsOption(p)
    requires Stoi(args[i + 1]).Ok?
    ensures Scan(p, args, i, acc) == Scan(p, args, i + 2, acc.(repetitions := Stoi(args[i + 1]).value))
  {
    RepetitionsOptionClassified(p);
  }

  /** The repetition option is told apart from the other options by length. */
  lemma RepetitionsOptionClassified(p: Program)
    ensures Classify(p, RepetitionsOption(p)) == RepetitionsValue
  {
    var r := RepetitionsOption(p);
    assert |r| >= 13;
    assert |"--enable_profiling"| == 18 && |"--verbose"| == 9 && |"--queues"| == 8;
    assert r != "--enable_profiling" by {
      assert r[2] == 'r' && "--enable_profiling"[2] == 'e';
    }
  }

  lemma StoreAllCons(p: Program, args: seq<string>, i: nat)
    requires i < |args|
    ensures StoreAll(p, args[i..]) == [StoredToken(p, args[i])] + StoreAll(p, args[i + 1..])
  {
    var l := StoreAll(p, args[i..]);
    var r := [StoredToken(p, args[i])] + StoreAll(p, args[i + 1..]);
    forall k | 0 <= k < |l|
      ensures l[k] == r[k]
    {
      if k > 0 {
        assert args[i..][k] == args[i + 1..][k - 1];
      }
    }
  }

  lemma ScanEnd(p: Program, args: seq<string>, acc: Config)
    requires ConfigInvariant(p, acc)
    ensures Scan(p, args, |args|, acc) == Ok(acc.(commands := acc.commands + StoreAll(p, args[|args|..])))
  {
    assert |StoreAll(p, args[|args|..])| == 0;
    AppendNil(acc.commands);
  }

  lemma {:induction false} ScanPlainTokens(p: Program, args: seq<string>, i: nat, acc: Config)
    requires ConfigInvariant(p, acc)
    requires i <= |args|
    requires forall k :: i <= k < |args| ==> PlainToken(p, args[k])
    ensures Scan(p, args, i, acc) == Ok(acc.(commands := acc.commands + StoreAll(p, args[i..])))
    decreases |args| - i
  {
    if i == |args| {
      ScanEnd(p, args, acc);
    } else {
      ScanCommandStep(p, args, i, acc);
      var acc' := acc.(commands := acc.commands + [StoredToken(p, args[i])]);
      ScanPlainTokens(p, args, i + 1, acc');
      StoreAllCons(p, args, i);
      AppendCons(acc.commands, StoredToken(p, args[i]), StoreAll(p, args[i + 1..]));
    }
  }

  /** How `Parse` finishes once the option loop succeeded. */
  lemma ParseFromScan(p: Program, argl: seq<string>, c: Config)
    requires |argl| > 0 && ValidMode(p, argl[0])
    requires Scan(p, argl, 1, InitialConfig(argl[0])) == Ok(c) && |c.commands| > 0
    ensures Parse(p, argl) ==
            Ok(c.(queues := if c.queues == UNSET then DefaultQueues(p, c.mode, |c.commands|) else c.queues))
  {
  }

  /** A mode followed only by command tokens: every token is stored (the
      sanitised form in main.cpp, the raw one otherwise), in order, and the
      queue count falls back to its default. */
  lemma ParsePositional(p: Program, mode: string, toks: seq<string>)
    requires ValidMode(p, mode) && |toks| > 0
    requires forall k :: 0 <= k < |toks| ==> PlainToken(p, toks[k])
    ensures var r := Parse(p, [mode] + toks);
            && r.Ok?
            && r.value.commands == StoreAll(p, toks)
            && r.value.queues == DefaultQueues(p, mode, |toks|)
            && r.value.repetitions == 10
            && r.value.cli == InitialCliTable()
  {
    var argl := [mode] + toks;
    ScanPlainTokens(p, argl, 1, InitialConfig(mode));
    assert argl[1..] == toks;
  }

  /** A token is rejected exactly when its sanitised form has a letter outside
      the program's set. */
  lemma ParseRejectsToken(p: Program, mode: string, tok: string)
    requires ValidMode(p, mode) && !StartsWith(tok, "-")
    ensures Parse(p, [mode, tok]).Err? <==> !AcceptedToken(p, tok)
    ensures !AcceptedToken(p, tok) ==> Parse(p, [mode, tok]) == Err(UnsupportedCommand(tok))
  {
    if AcceptedToken(p, tok) {
      ParsePositional(p, mode, [tok]);
      assert [mode] + [tok] == [mode, tok];
    } else {
      assert Classify(p, tok) == BadCommandToken;
    }
  }

  /** The standalone programs do not know the correctly spelt
      `--repetitions`: it is an unsupported option there. */
  lemma RepetitionsRejected(p: Program, mode: string, rest: seq<string>)
    requires !p.IsMain() && ValidMode(p, mode)
    ensures Parse(p, [mode, "--repetitions"] + rest) == Err(UnsupportedOption("--repetitions"))
  {
    RepetitionsIsOther(p);
    var a := [mode, "--repetitions"] + rest;
    assert a[0] == mode && a[1] == "--repetitions";
    ScanStopsAtOption(p, a, 1, InitialConfig(mode));
    ParseFromScanError(p, a, UnsupportedOption("--repetitions"));
  }

  lemma RepetitionsIsOther(p: Program)
    requires !p.IsMain()
    ensures Classify(p, "--repetitions") == OtherOption
  {
    assert !IsParameterOption("--repetitions") by {
      RFindIsZero("--repetitions", "--tripcount_");
      assert "--repetitions"[2] != "--tripcount_"[2];
      assert "--repetitions"[2] != "--globalsize_"[2];
    }
    assert StartsWith("--repetitions", "-");
  }

  lemma ScanStopsAtOption(p: Program, args: seq<string>, i: nat, acc: Config)
    requires ConfigInvariant(p, acc) && i < |args| && Classify(p, args[i]) == OtherOption
    ensures Scan(p, args, i, acc) == Err(UnsupportedOption(args[i]))
  {
  }

  lemma ParseFromScanError(p: Program, argl: seq<string>, e: CliError)
    requires |argl| > 0 && ValidMode(p, argl[0])
    requires Scan(p, argl, 1, InitialConfig(argl[0])) == Err(e)
    ensures Parse(p, argl) == Err(e)
  {
  }

  /** Only their misspelt `--repetitionss` sets the repetition count, to the
      value `std::stoi` reads from the next argument. */
  lemma RepetitionsTypo(p: Program, mode: string, num: string, tok: string)
    requires !p.IsMain() && ValidMode(p, mode) && PlainToken(p, tok) && Stoi(num).Ok?
    ensures Parse(p, [mode, "--repetitionss", num, tok]).Ok?
    ensures Parse(p, [mode, "--repetitionss", num, tok]).value.repetitions == Stoi(num).value
  {
    RepetitionsSet(p, mode, num, [tok]);
    assert [mode, "--repetitionss", num] + [tok] == [mode, "--repetitionss", num, tok];
  }

  /** main.cpp spells the option correctly. */
  lemma MainRepetitions(p: Program, mode: string, num: string, tok: string)
    requires p.IsMain() && ValidMode(p, mode) && PlainToken(p, tok) && Stoi(num).Ok?
    ensures Parse(p, [mode, "--repetitions", num, tok]).Ok?
    ensures Parse(p, [mode, "--repetitions", num, tok]).value.repetitions == Stoi(num).value
  {
    RepetitionsSet(p, mode, num, [tok]);
    assert [mode, "--repetitions", num] + [tok] == [mode, "--repetitions", num, tok];
  }

  /** The repetition option followed by its value and command tokens: the
      count is the value `std::stoi` reads, and every token is stored. */
  lemma RepetitionsSet(p: Program, mode: string, num: string, toks: seq<string>)
    requires ValidMode(p, mode) && Stoi(num).Ok? && |toks| > 0
    requires forall k :: 0 <= k < |toks| ==> PlainToken(p, toks[k])
    ensures var r := Parse(p, [mode, RepetitionsOption(p), num] + toks);
            r.Ok? && r.value.repetitions == Stoi(num).value && r.value.commands == StoreAll(p, toks)
  {
    var b := [mode, RepetitionsOption(p), num] + toks;
    assert b[0] == mode && b[1] == RepetitionsOption(p) && b[2] == num && b[3..] == toks;
    var c := ScanRepetitionsArgs(p, b);
    ParseFromScan(p, b, c);
  }

  /** The option loop over a mode, the repetition option, its value and
      command tokens. */
  lemma ScanRepetitionsArgs(p: Program, b: seq<string>) returns (c: Config)
    requires |b| >= 4 && b[1] == RepetitionsOption(p) && Stoi(b[2]).Ok?
    requires forall k :: 3 <= k < |b| ==> PlainToken(p, b[k])
    ensures Scan(p, b, 1, InitialConfig(b[0])) == Ok(c)
    ensures c.repetitions == Stoi(b[2]).value && c.commands == StoreAll(p, b[3..]) && |c.commands| > 0
  {
    var acc := InitialConfig(b[0]).(repetitions := Stoi(b[2]).value);
    ScanRepetitionsFirst(p, b);
    c := ScanTokensFrom(p, b, acc);
  }

  lemma ScanRepetitionsFirst(p: Program, b: seq<string>)
    requires |b| >= 4 && b[1] == RepetitionsOption(p) && Stoi(b[2]).Ok?
    ensures ConfigInvariant(p, InitialConfig(b[0]).(repetitions := Stoi(b[2]).value))
    ensures Scan(p, b, 1, InitialConfig(b[0])) == Scan(p, b, 3, InitialConfig(b[0]).(repetitions := Stoi(b[2]).value))
  {
    InitialConfigOk(p, b[0]);
    ScanRepetitionsStep(p, b, 1, InitialConfig(b[0]));
  }

  /** Command tokens from argument 3 on, after options that stored no
      command. */
  lemma ScanTokensFrom(p: Program, b: seq<string>, acc: Config) returns (c: Config)
    requires ConfigInvariant(p, acc) && acc.commands == [] && 3 < |b|
    requires forall k :: 3 <= k < |b| ==> PlainToken(p, b[k])
    ensures Scan(p, b, 3, acc) == Ok(c) && c == acc.(commands := StoreAll(p, b[3..]))
    ensures |c.commands| > 0
  {
    ScanPlainTokens(p, b, 3, acc);
    AppendNilLeft(StoreAll(p, b[3..]));
    c := acc.(commands := StoreAll(p, b[3..]));
  }

  lemma InitialConfigOk(p: Program, mode: string)
    ensures ConfigInvariant(p, InitialConfig(mode))
  {
  }

  /** main.cpp decides the default queue count itself, keyed on
      `host_threads`; linked with the SYCL bench, whose modes do not include
      `host_threads`, an `in_order` run therefore gets one queue, whereas the
      standalone SYCL program gives every command its own queue. */
  lemma InOrderQueueDefaults(toks: seq<string>)
    requires |toks| > 1
    requires forall k :: 0 <= k < |toks| ==> PlainToken(MainSycl, toks[k]) && PlainToken(SyclCon, toks[k])
    ensures Parse(MainSycl, ["in_order"] + toks).Ok? && Parse(MainSycl, ["in_order"] + toks).value.queues == 1
    ensures Parse(SyclCon, ["in_order"] + toks).Ok? && Parse(SyclCon, ["in_order"] + toks).value.queues == |toks|
  {
    ParsePositional(MainSycl, "in_order", toks);
    ParsePositional(SyclCon, "in_order", toks);
  }
}
