/** The tuning parameter table of the harness (concurency/main.cpp and the
    standalone concurency/sycl_con.cpp and concurency/omp_con.cpp): keys such
    as `tripcount_C` or `globalsize_M2D`, with `-1` meaning "unset", the
    defaults that replace unset entries, and the key each command tunes. */
module Parameters {
  import opened Common
  import opened Text

  const UNSET: int := -1
  const TRIPCOUNT_C_DEFAULT: nat := 40000
  const GLOBALSIZE_C_DEFAULT: nat := 1
  /** `1e9 / sizeof(float)`: about one gigabyte of floats. */
  const DEFAULT_MEMORY_ELEMENTS: nat := 250_000_000
  const SIZEOF_FLOAT: nat := 4

  /** The table the option loop starts from. */
  function InitialCliTable(): map<string, int>
  {
    map["globalsize_C" := UNSET, "tripcount_C" := UNSET, "globalsize_default_memory" := UNSET]
  }

  function GlobalsizeKey(cmd: string): string
  {
    "globalsize_" + cmd
  }

  /** `commands_to_parameters_tunned`: the one free parameter of a command. */
  function TunedKey(cmd: string): string
  {
    if cmd == "C" then "tripcount_C" else GlobalsizeKey(cmd)
  }

  lemma GlobalsizeKeyInjective(a: string, b: string)
    ensures GlobalsizeKey(a) == GlobalsizeKey(b) <==> a == b
  {
    if GlobalsizeKey(a) == GlobalsizeKey(b) {
      assert a == GlobalsizeKey(a)[11..];
    }
  }

  /** Distinct commands tune distinct keys, and no command tunes `globalsize_C`
      (the compute kernel's global size is never autotuned). */
  lemma TunedKeyInjective(a: string, b: string)
    ensures TunedKey(a) == TunedKey(b) <==> a == b
    ensures TunedKey(a) != "globalsize_C"
  {
    GlobalsizeKeyInjective(a, "C");
    GlobalsizeKeyInjective(b, "C");
    GlobalsizeKeyInjective(a, b);
    assert GlobalsizeKey(a)[0] == 'g';
    assert GlobalsizeKey(b)[0] == 'g';
    assert "tripcount_C"[0] == 't';
  }

  /** Device properties the standalone SYCL variant queries for its defaults. */
  datatype DeviceInfo = DeviceInfo(subGroupSize: nat, globalMemSize: nat, maxMemAllocSize: nat)

  /** Which `get_default_command_parameter` is linked: the fixed one of
      concurency/main.cpp and concurency/omp_con.cpp, or the device-dependent
      one of concurency/sycl_con.cpp. */
  datatype Defaults = FixedDefaults | DeviceDefaults(info: DeviceInfo)

  /** `get_default_command_parameter(key, num_command, cli)`. */
  function DefaultParameter(d: Defaults, key: string, numCommands: nat, cli: map<string, int>): (r: int)
    requires numCommands > 0
    requires InLong(Lookup(cli, "globalsize_default_memory"))
    ensures 0 <= r < SIZE_T_MODULUS || d.DeviceDefaults?
  {
    if StartsWith(key, "globalsize_C") then
      (match d
       case FixedDefaults => GLOBALSIZE_C_DEFAULT
       case DeviceDefaults(info) => info.subGroupSize)
    else if StartsWith(key, "tripcount_C") then TRIPCOUNT_C_DEFAULT
    else if StartsWith(key, "globalsize_") then
      if Lookup(cli, "globalsize_default_memory") != UNSET then
        ToSizeT(Lookup(cli, "globalsize_default_memory"))
      else
        (match d
         case FixedDefaults => DEFAULT_MEMORY_ELEMENTS
         case DeviceDefaults(info) =>
           Min(info.globalMemSize / numCommands, info.maxMemAllocSize) / SIZEOF_FLOAT)
    else 0
  }

  /** `try_emplace("globalsize_" + command, -1)` for every command. */
  function EmplaceGlobalsizes(cli: map<string, int>, cmds: seq<string>): (r: map<string, int>)
    ensures r.Keys == cli.Keys + set c | c in cmds :: GlobalsizeKey(c)
    ensures forall k :: k in cli ==> r[k] == cli[k]
    ensures forall k :: k in r && k !in cli ==> r[k] == UNSET
  {
    if |cmds| == 0 then cli
    else
      var key := GlobalsizeKey(cmds[|cmds| - 1]);
      var m := EmplaceGlobalsizes(cli, cmds[..|cmds| - 1]);
      assert forall c :: c in cmds <==> c in cmds[..|cmds| - 1] || c == cmds[|cmds| - 1];
      if key in m then m else m[key := UNSET]
  }

  predicate LongValues(m: map<string, int>)
  {
    forall k :: k in m ==> InLong(m[k])
  }

  /** The table handed to `bench`: the command line's table with a
      `globalsize_<cmd>` entry for every command, every unset entry replaced
      by its default and every set one converted to `size_t`. */
  function ResolveTable(d: Defaults, cli: map<string, int>, cmds: seq<string>): (r: map<string, int>)
    requires |cmds| > 0
    requires LongValues(cli) && "globalsize_default_memory" in cli
    ensures r.Keys == EmplaceGlobalsizes(cli, cmds).Keys
    ensures forall c :: c in cmds ==> GlobalsizeKey(c) in r
    ensures forall k :: k in cli && cli[k] != UNSET ==> r[k] == ToSizeT(cli[k])
  {
    var full := EmplaceGlobalsizes(cli, cmds);
    assert Lookup(full, "globalsize_default_memory") == Lookup(cli, "globalsize_default_memory");
    map k | k in full ::
      if full[k] == UNSET then DefaultParameter(d, k, |cmds|, full) else ToSizeT(full[k])
  }

  lemma StartsWithGlobalsizeC(c: string)
    ensures StartsWith(GlobalsizeKey(c), "globalsize_C") <==> StartsWith(c, "C")
    ensures StartsWith(GlobalsizeKey(c), "globalsize_")
    ensures !StartsWith(GlobalsizeKey(c), "tripcount_C")
  {
    var k := GlobalsizeKey(c);
    assert k[..11] == "globalsize_";
    assert k[0] == 'g';
    assert "tripcount_C"[0] == 't';
    if StartsWith(c, "C") {
      assert k[..12] == "globalsize_" + c[..1];
    }
    if StartsWith(k, "globalsize_C") {
      assert c[0] == k[11];
      assert c[..1] == "C";
    }
  }

  /** The element count a command runs with: its command-line value when set,
      otherwise 1 (the fixed default, or the device's sub-group size) for a
      command starting with `C`, otherwise `globalsize_default_memory` when set,
      otherwise the memory default. */
  lemma ResolvedGlobalsize(d: Defaults, cli: map<string, int>, cmds: seq<string>, c: string)
    requires |cmds| > 0 && LongValues(cli) && "globalsize_default_memory" in cli && c in cmds
    ensures var r := ResolveTable(d, cli, cmds);
            var key := GlobalsizeKey(c);
            var mem := Lookup(cli, "globalsize_default_memory");
            r[key] ==
              if key in cli && cli[key] != UNSET then ToSizeT(cli[key])
              else if StartsWith(c, "C") then
                (if d.FixedDefaults? then GLOBALSIZE_C_DEFAULT else d.info.subGroupSize)
              else if mem != UNSET then ToSizeT(mem)
              else if d.FixedDefaults? then DEFAULT_MEMORY_ELEMENTS
              else Min(d.info.globalMemSize / |cmds|, d.info.maxMemAllocSize) / SIZEOF_FLOAT
  {
    StartsWithGlobalsizeC(c);
    var full := EmplaceGlobalsizes(cli, cmds);
    assert Lookup(full, "globalsize_default_memory") == Lookup(cli, "globalsize_default_memory");
  }

  /** An unset `tripcount_C` becomes 40000 in every variant. */
  lemma ResolvedTripcount(d: Defaults, cli: map<string, int>, cmds: seq<string>)
    requires |cmds| > 0 && LongValues(cli) && "globalsize_default_memory" in cli && "tripcount_C" in cli
    ensures var r := ResolveTable(d, cli, cmds);
            r["tripcount_C"] ==
              if cli["tripcount_C"] == UNSET then TRIPCOUNT_C_DEFAULT else ToSizeT(cli["tripcount_C"])
  {
    var k := "tripcount_C";
    assert !StartsWith(k, "globalsize_C") && !StartsWith(k, "globalsize_") by {
      assert k[0] == 't';
    }
    assert StartsWith(k, "tripcount_C");
  }
}
