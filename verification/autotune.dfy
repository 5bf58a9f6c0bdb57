/** The balancing step of concurency/main.cpp (and its copies in
    concurency/sycl_con.cpp and concurency/omp_con.cpp): when some command's
    tuned parameter was left unset and there is more than one distinct
    command, the distinct commands are timed serially once and every unset
    tuned parameter is scaled by `fastest non-compute time / own time`, so that
    under a linear cost model every command takes about as long as the fastest
    transfer. */
module Autotune {
  import opened Common
  import opened Parameters

  /** `need_auto_tunne`: some distinct command's tuned key reads -1 in `cli`.
      Here `cli` is the command line's table after the `try_emplace` of
      `globalsize_<cmd>` for every command, which is the table the program
      reads, so a size never given reads -1 (EmplacedShouldAutotuneIff). A
      key the table lacks would read as 0, as `operator[]` gives, but after
      that step no command's tuned key is missing (EmplacedTunedKey). */
  predicate NeedsAutotune(cli: map<string, int>, cmds: seq<string>)
  {
    exists i :: 0 <= i < |cmds| && Lookup(cli, TunedKey(cmds[i])) == UNSET
  }

  /** The condition guarding the balancing step. */
  predicate ShouldAutotune(cli: map<string, int>, cmds: seq<string>)
  {
    NeedsAutotune(cli, cmds) && |set c | c in cmds| != 1
  }

  /** Repeating one command, however often, never triggers balancing. */
  lemma SingleCommandNeverTuned(cli: map<string, int>, cmds: seq<string>, c: string)
    requires forall i :: 0 <= i < |cmds| ==> cmds[i] == c
    requires |cmds| > 0
    ensures !ShouldAutotune(cli, cmds)
  {
    assert (set x | x in cmds) == {c} by {
      assert cmds[0] in cmds;
    }
  }

  /** Balancing happens exactly when an unset tuned key meets a second
      distinct command. */
  lemma ShouldAutotuneIff(cli: map<string, int>, cmds: seq<string>)
    ensures ShouldAutotune(cli, cmds) <==>
            (exists i :: 0 <= i < |cmds| && Lookup(cli, TunedKey(cmds[i])) == UNSET) &&
            (exists i, j :: 0 <= i < j < |cmds| && cmds[i] != cmds[j])
  {
    var s := set c | c in cmds;
    if exists i, j :: 0 <= i < j < |cmds| && cmds[i] != cmds[j] {
      var i, j :| 0 <= i < j < |cmds| && cmds[i] != cmds[j];
      assert {cmds[i], cmds[j]} <= s;
      assert |{cmds[i], cmds[j]}| == 2;
      SubsetCard({cmds[i], cmds[j]}, s);
    } else if |cmds| > 0 {
      SingleCommandNeverTuned(cli, cmds, cmds[0]);
    } else {
      assert s == {};
    }
  }

  /** A command's tuned key after `try_emplace`: present, and -1 exactly
      when the command line never gave it or gave -1. */
  lemma EmplacedTunedKey(cli: map<string, int>, cmds: seq<string>, c: string)
    requires InitialCliTable().Keys <= cli.Keys && c in cmds
    ensures var full := EmplaceGlobalsizes(cli, cmds);
            var k := TunedKey(c);
            && k in full
            && (full[k] == UNSET <==> k !in cli || cli[k] == UNSET)
  {
    if c == "C" {
      assert "tripcount_C" in InitialCliTable();
    } else {
      assert GlobalsizeKey(c) in set x | x in cmds :: GlobalsizeKey(x);
    }
  }

  /** Balancing of the table the program builds: with the command line's
      table completed by `try_emplace`, balancing runs exactly when some
      command's tuned key was never given or was given as -1, and the list
      holds two different commands. */
  lemma EmplacedShouldAutotuneIff(cli: map<string, int>, cmds: seq<string>)
    requires InitialCliTable().Keys <= cli.Keys
    ensures ShouldAutotune(EmplaceGlobalsizes(cli, cmds), cmds) <==>
            (exists i :: 0 <= i < |cmds| && (TunedKey(cmds[i]) !in cli || cli[TunedKey(cmds[i])] == UNSET)) &&
            (exists i, j :: 0 <= i < j < |cmds| && cmds[i] != cmds[j])
  {
    var full := EmplaceGlobalsizes(cli, cmds);
    ShouldAutotuneIff(full, cmds);
    forall i | 0 <= i < |cmds|
      ensures Lookup(full, TunedKey(cmds[i])) == UNSET <==> (TunedKey(cmds[i]) !in cli || cli[TunedKey(cmds[i])] == UNSET)
    {
      EmplacedTunedKey(cli, cmds, cmds[i]);
    }
  }

  /** Two different commands, the first with a tuned key the command line
      never gave, are balanced once the table is completed by `try_emplace`. */
  lemma FreshPairBalanced(cli: map<string, int>, a: string, b: string)
    requires InitialCliTable().Keys <= cli.Keys && a != b && TunedKey(a) !in cli
    ensures ShouldAutotune(EmplaceGlobalsizes(cli, [a, b]), [a, b])
  {
    var cmds := [a, b];
    var full := EmplaceGlobalsizes(cli, cmds);
    EmplacedTunedKey(cli, cmds, cmds[0]);
    assert Lookup(full, TunedKey(cmds[0])) == UNSET;
    assert cmds[0] != cmds[1];
    ShouldAutotuneIff(full, cmds);
  }

  /** `in_order MD DM` with no option balances the two transfers, because
      the emplaced `globalsize_MD` reads -1; the bare initial table, which
      lacks that key, would not trigger balancing. */
  lemma TwoTransfersBalanced()
    ensures ShouldAutotune(EmplaceGlobalsizes(InitialCliTable(), ["MD", "DM"]), ["MD", "DM"])
    ensures !ShouldAutotune(InitialCliTable(), ["MD", "DM"])
  {
    var cmds := ["MD", "DM"];
    assert TunedKey(cmds[0]) == "globalsize_MD" && TunedKey(cmds[1]) == "globalsize_DM";
    assert "globalsize_MD" !in InitialCliTable() && "globalsize_DM" !in InitialCliTable();
    FreshPairBalanced(InitialCliTable(), "MD", "DM");
    forall i | 0 <= i < |cmds|
      ensures Lookup(InitialCliTable(), TunedKey(cmds[i])) != UNSET
    {
    }
  }

  lemma SubsetCard(a: set<string>, b: set<string>)
    requires a <= b
    ensures |a| <= |b|
  {
    assert b == a + (b - a);
  }

  // ---------------------------------------------------------------------------
  // The fastest non-compute time
  // ---------------------------------------------------------------------------

  predicate Distinct(s: seq<string>)
  {
    forall i, j :: 0 <= i < j < |s| ==> s[i] != s[j]
  }

  /** `min_time`: starts at `LONG_MAX`, the minimum over every command other
      than `C`. */
  function MinNonCompute(uniq: seq<string>, times: seq<Micros>): (m: int)
    requires |times| == |uniq|
    ensures 0 <= m <= LONG_MAX
    ensures forall i :: 0 <= i < |uniq| && uniq[i] != "C" ==> m <= times[i]
    ensures m == LONG_MAX || exists i :: 0 <= i < |uniq| && uniq[i] != "C" && times[i] == m
  {
    if |uniq| == 0 then LONG_MAX
    else
      var n := |uniq| - 1;
      var m := MinNonCompute(uniq[..n], times[..n]);
      assert forall i :: 0 <= i < n ==> uniq[..n][i] == uniq[i] && times[..n][i] == times[i];
      if uniq[n] == "C" then m else Min(times[n], m)
  }

  /** Two distinct commands always include a non-compute one, so the minimum
      is a real measurement. */
  lemma MinIsMeasured(uniq: seq<string>, times: seq<Micros>)
    requires |times| == |uniq| && Distinct(uniq) && |uniq| >= 2
    ensures exists i :: 0 <= i < |uniq| && uniq[i] != "C" && times[i] == MinNonCompute(uniq, times)
  {
    var m := MinNonCompute(uniq, times);
    var i := if uniq[0] != "C" then 0 else 1;
    assert uniq[i] != "C";
    assert m <= times[i] <= LONG_MAX;
  }

  // ---------------------------------------------------------------------------
  // The regression
  // ---------------------------------------------------------------------------

  /** `(1. * min_time) / time * parameter` truncated to `long`, computed on
      exact reals. The program rounds after the division and after the
      product, so its result can be one less: for `min_time = 1`,
      `time = 49` and `parameter = 49` the doubles give `0.9999999999999999`
      and the parameter becomes 0, where this function gives 1. */
  function Rescaled(minTime: nat, time: nat, param: nat): (r: int)
    requires time > 0
  {
    ((minTime as real) / (time as real) * (param as real)).Floor
  }

  /** On exact reals the formula is the integer quotient of `min * param`
      by the command's own time. */
  lemma RescaledIsQuotient(minTime: nat, time: nat, param: nat)
    requires time > 0
    ensures Rescaled(minTime, time, param) == (minTime * param) / time
  {
    var x := (minTime as real) / (time as real) * (param as real);
    var q := (minTime * param) / time;
    var rem := (minTime * param) % time;
    assert minTime * param == q * time + rem;
    assert x == ((minTime * param) as real) / (time as real);
    assert x == (q as real) + (rem as real) / (time as real);
    assert 0.0 <= (rem as real) / (time as real) < 1.0;
  }

  /** `v * time <= minTime * param < (v + 1) * time`: with a time linear in
      the parameter, `v` is the largest parameter predicted to run no longer
      than `minTime`. */
  predicate LinearBalance(v: int, minTime: nat, time: nat, param: nat)
  {
    v * time <= minTime * param < (v + 1) * time
  }

  /** Under a linear cost model the new parameter predicts a time no longer
      than the fastest transfer, and one parameter step more would exceed it. */
  lemma RescaledBalances(minTime: nat, time: nat, param: nat)
    requires time > 0
    ensures LinearBalance(Rescaled(minTime, time, param), minTime, time, param)
  {
    RescaledIsQuotient(minTime, time, param);
  }

  /** The index of the command whose tuned key is `k`, if any. */
  function TunedIndex(uniq: seq<string>, k: string): (r: Option<nat>)
    ensures r.Some? ==> r.value < |uniq| && TunedKey(uniq[r.value]) == k
    ensures r.None? ==> forall i :: 0 <= i < |uniq| ==> TunedKey(uniq[i]) != k
  {
    if |uniq| == 0 then None
    else if TunedKey(uniq[|uniq| - 1]) == k then Some(|uniq| - 1)
    else
      var front := uniq[..|uniq| - 1];
      assert forall i :: 0 <= i < |front| ==> front[i] == uniq[i];
      TunedIndex(front, k)
  }

  lemma TunedIndexOf(uniq: seq<string>, i: nat)
    requires Distinct(uniq) && i < |uniq|
    ensures TunedIndex(uniq, TunedKey(uniq[i])) == Some(i)
  {
    var j := TunedIndex(uniq, TunedKey(uniq[i])).value;
    TunedKeyInjective(uniq[i], uniq[j]);
  }

  /** The regression divides by the time of every command whose tuned key
      is unset; only those times must be positive. */
  predicate UnsetTimesPositive(cli: map<string, int>, uniq: seq<string>, times: seq<Micros>)
    requires |times| == |uniq|
  {
    forall i :: 0 <= i < |uniq| && Lookup(cli, TunedKey(uniq[i])) == UNSET ==> times[i] > 0
  }

  predicate TableReady(params: map<string, int>, uniq: seq<string>)
  {
    && (forall k :: k in params ==> params[k] >= 0)
    && (forall i :: 0 <= i < |uniq| ==> TunedKey(uniq[i]) in params)
  }

  /** The table after the regression has visited the first `n` commands. */
  function BalancedPrefix(params: map<string, int>, cli: map<string, int>, uniq: seq<string>, times: seq<Micros>,
                          minTime: nat, n: nat): map<string, int>
    requires |times| == |uniq| && UnsetTimesPositive(cli, uniq, times) && TableReady(params, uniq)
  {
    map k | k in params ::
      match TunedIndex(uniq, k)
      case Some(j) =>
        if j < n && Lookup(cli, k) == UNSET then Rescaled(minTime, times[j], params[k]) else params[k]
      case None => params[k]
  }

  /** The balanced table, key by key: a tuned key left unset on the command
      line is rescaled, every other entry is kept. */
  function Balanced(params: map<string, int>, cli: map<string, int>, uniq: seq<string>, times: seq<Micros>): map<string, int>
    requires |times| == |uniq| && UnsetTimesPositive(cli, uniq, times) && TableReady(params, uniq)
  {
    BalancedPrefix(params, cli, uniq, times, MinNonCompute(uniq, times), |uniq|)
  }

  /** One visit of the regression loop: an unset key is rescaled. */
  function Visit(r: map<string, int>, cli: map<string, int>, key: string, minTime: nat, time: nat): map<string, int>
    requires Lookup(cli, key) == UNSET ==> time > 0
  {
    if Lookup(cli, key) == UNSET && key in r && r[key] >= 0 then r[key := Rescaled(minTime, time, r[key])] else r
  }

  lemma BalancedPrefixStep(params: map<string, int>, cli: map<string, int>, uniq: seq<string>, times: seq<Micros>,
                           minTime: nat, n: nat)
    requires |times| == |uniq| && Distinct(uniq) && UnsetTimesPositive(cli, uniq, times) && TableReady(params, uniq)
    requires n < |uniq|
    ensures var key := TunedKey(uniq[n]);
            var before := BalancedPrefix(params, cli, uniq, times, minTime, n);
            && key in before && before[key] == params[key]
            && BalancedPrefix(params, cli, uniq, times, minTime, n + 1) == Visit(before, cli, key, minTime, times[n])
  {
    var key := TunedKey(uniq[n]);
    var before := BalancedPrefix(params, cli, uniq, times, minTime, n);
    var after := BalancedPrefix(params, cli, uniq, times, minTime, n + 1);
    var expected := Visit(before, cli, key, minTime, times[n]);
    BalancedPrefixAtKey(params, cli, uniq, times, minTime, n);
    BalancedPrefixStepValues(params, cli, uniq, times, minTime, n);
    MapsAgree(after, expected);
  }

  /** Two maps with the same keys and the same value at every key are equal. */
  lemma MapsAgree(a: map<string, int>, b: map<string, int>)
    requires a.Keys == b.Keys && forall k :: k in a ==> a[k] == b[k]
    ensures a == b
  {
  }

  lemma BalancedPrefixStepValues(params: map<string, int>, cli: map<string, int>, uniq: seq<string>, times: seq<Micros>,
                                 minTime: nat, n: nat)
    requires |times| == |uniq| && Distinct(uniq) && UnsetTimesPositive(cli, uniq, times) && TableReady(params, uniq)
    requires n < |uniq|
    ensures var key := TunedKey(uniq[n]);
            var before := BalancedPrefix(params, cli, uniq, times, minTime, n);
            var after := BalancedPrefix(params, cli, uniq, times, minTime, n + 1);
            var expected := Visit(before, cli, key, minTime, times[n]);
            && after.Keys == expected.Keys
            && forall k :: k in after ==> after[k] == expected[k]
  {
    var key := TunedKey(uniq[n]);
    BalancedPrefixAtKey(params, cli, uniq, times, minTime, n);
    forall k | k in params && k != key
      ensures BalancedPrefix(params, cli, uniq, times, minTime, n + 1)[k] ==
              BalancedPrefix(params, cli, uniq, times, minTime, n)[k]
    {
      BalancedPrefixOther(params, cli, uniq, times, minTime, n, k);
    }
  }

  /** Step `n` rescales the `n`-th command's tuned key, still at its initial
      value, exactly as `Visit` does. */
  lemma BalancedPrefixAtKey(params: map<string, int>, cli: map<string, int>, uniq: seq<string>, times: seq<Micros>,
                            minTime: nat, n: nat)
    requires |times| == |uniq| && Distinct(uniq) && UnsetTimesPositive(cli, uniq, times) && TableReady(params, uniq)
    requires n < |uniq|
    ensures var key := TunedKey(uniq[n]);
            var before := BalancedPrefix(params, cli, uniq, times, minTime, n);
            && key in before && before[key] == params[key]
            && key in BalancedPrefix(params, cli, uniq, times, minTime, n + 1)
            && BalancedPrefix(params, cli, uniq, times, minTime, n + 1)[key] ==
               Visit(before, cli, key, minTime, times[n])[key]
  {
    TunedIndexOf(uniq, n);
  }

  /** Step `n` leaves every key but the `n`-th command's tuned key alone. */
  lemma BalancedPrefixOther(params: map<string, int>, cli: map<string, int>, uniq: seq<string>, times: seq<Micros>,
                            minTime: nat, n: nat, k: string)
    requires |times| == |uniq| && UnsetTimesPositive(cli, uniq, times) && TableReady(params, uniq)
    requires n < |uniq| && k in params && k != TunedKey(uniq[n])
    ensures BalancedPrefix(params, cli, uniq, times, minTime, n + 1)[k] ==
            BalancedPrefix(params, cli, uniq, times, minTime, n)[k]
  {
    match TunedIndex(uniq, k)
    case Some(j) => assert j != n;
    case None =>
  }

  /** The first loop of the source: the fastest non-compute time. */
  method FastestNonCompute(uniq: seq<string>, times: seq<Micros>) returns (minTime: nat)
    requires |times| == |uniq|
    ensures minTime == MinNonCompute(uniq, times)
  {
    minTime := LONG_MAX;
    var i := 0;
    while i < |uniq|
      invariant 0 <= i <= |uniq|
      invariant minTime == MinNonCompute(uniq[..i], times[..i])
    {
      assert uniq[..i + 1][..i] == uniq[..i] && times[..i + 1][..i] == times[..i];
      if uniq[i] != "C" {
        minTime := Min(times[i], minTime);
      }
      i := i + 1;
    }
    assert uniq[..i] == uniq && times[..i] == times;
  }

  lemma BalancedPrefixZero(params: map<string, int>, cli: map<string, int>, uniq: seq<string>, times: seq<Micros>,
                           minTime: nat)
    requires |times| == |uniq| && UnsetTimesPositive(cli, uniq, times) && TableReady(params, uniq)
    ensures BalancedPrefix(params, cli, uniq, times, minTime, 0) == params
  {
  }

  /** The second loop of the source: the regression, in command order. */
  method ApplyAutotune(params: map<string, int>, cli: map<string, int>, uniq: seq<string>, times: seq<Micros>)
    returns (r: map<string, int>)
    requires |times| == |uniq| && Distinct(uniq) && UnsetTimesPositive(cli, uniq, times) && TableReady(params, uniq)
    ensures r == Balanced(params, cli, uniq, times)
  {
    var minTime := FastestNonCompute(uniq, times);
    r := params;
    BalancedPrefixZero(params, cli, uniq, times, minTime);
    var i := 0;
    while i < |uniq|
      invariant 0 <= i <= |uniq|
      invariant r == BalancedPrefix(params, cli, uniq, times, minTime, i)
    {
      BalancedPrefixStep(params, cli, uniq, times, minTime, i);
      r := Visit(r, cli, TunedKey(uniq[i]), minTime, times[i]);
      i := i + 1;
    }
  }

  // ---------------------------------------------------------------------------
  // Properties of the balanced table
  // ---------------------------------------------------------------------------

  /** Nothing but an unset tuned key of a timed command changes. */
  lemma BalancedKeepsOthers(params: map<string, int>, cli: map<string, int>, uniq: seq<string>, times: seq<Micros>, k: string)
    requires |times| == |uniq| && UnsetTimesPositive(cli, uniq, times) && TableReady(params, uniq)
    requires k in params
    requires Lookup(cli, k) != UNSET || forall i :: 0 <= i < |uniq| ==> TunedKey(uniq[i]) != k
    ensures k in Balanced(params, cli, uniq, times)
    ensures Balanced(params, cli, uniq, times)[k] == params[k]
  {
  }

  lemma CancelPositive(a: int, b: int, t: int)
    requires t > 0 && a * t <= b * t
    ensures a <= b
  {
  }

  /** A command at least as slow as the fastest transfer never gets a larger
      parameter. */
  lemma RescaledShrinks(minTime: nat, time: nat, param: nat)
    requires 0 < time && minTime <= time
    ensures Rescaled(minTime, time, param) <= param
  {
    RescaledBalances(minTime, time, param);
    var r := Rescaled(minTime, time, param);
    assert minTime * param <= time * param by {
      assert (time - minTime) * param >= 0;
    }
    assert r * time <= param * time;
    CancelPositive(r, param, time);
  }

  /** The fastest transfer keeps its parameter. */
  lemma RescaledFixed(time: nat, param: nat)
    requires 0 < time
    ensures Rescaled(time, time, param) == param
  {
    RescaledShrinks(time, time, param);
    RescaledBalances(time, time, param);
    var r := Rescaled(time, time, param);
    assert param * time < (r + 1) * time;
    CancelPositive(param + 1, r + 1, time);
  }

  /** The balanced value of one command's tuned key. */
  lemma BalancedAt(params: map<string, int>, cli: map<string, int>, uniq: seq<string>, times: seq<Micros>, i: nat)
    requires |times| == |uniq| && Distinct(uniq) && UnsetTimesPositive(cli, uniq, times) && TableReady(params, uniq)
    requires i < |uniq|
    ensures var k := TunedKey(uniq[i]);
            var r := Balanced(params, cli, uniq, times);
            k in r && r[k] == if Lookup(cli, k) == UNSET then Rescaled(MinNonCompute(uniq, times), times[i], params[k]) else params[k]
  {
    TunedIndexOf(uniq, i);
  }

  /** Every unset tuned parameter satisfies the linear balance condition
      against the fastest transfer time; a transfer's parameter can only
      shrink, and the fastest transfer keeps its own. */
  lemma BalancedTransfers(params: map<string, int>, cli: map<string, int>, uniq: seq<string>, times: seq<Micros>, i: nat)
    requires |times| == |uniq| && Distinct(uniq) && UnsetTimesPositive(cli, uniq, times) && TableReady(params, uniq)
    requires i < |uniq| && Lookup(cli, TunedKey(uniq[i])) == UNSET
    ensures var r := Balanced(params, cli, uniq, times);
            var k := TunedKey(uniq[i]);
            var m := MinNonCompute(uniq, times);
            && k in r
            && LinearBalance(r[k], m, times[i], params[k])
            && (uniq[i] != "C" ==> r[k] <= params[k])
            && (uniq[i] != "C" && times[i] == m ==> r[k] == params[k])
  {
    var k := TunedKey(uniq[i]);
    var m := MinNonCompute(uniq, times);
    BalancedAt(params, cli, uniq, times, i);
    var rk := Balanced(params, cli, uniq, times)[k];
    assert rk == Rescaled(m, times[i], params[k]);
    RescaledBalances(m, times[i], params[k]);
    if uniq[i] != "C" {
      RescaledShrinks(m, times[i], params[k]);
      if times[i] == m {
        RescaledFixed(m, params[k]);
      }
    }
  }

  // ---------------------------------------------------------------------------
  // The regression on the table the program builds
  // ---------------------------------------------------------------------------

  lemma DefaultNonNegative(d: Defaults, key: string, numCommands: nat, cli: map<string, int>)
    requires numCommands > 0
    requires InLong(Lookup(cli, "globalsize_default_memory"))
    ensures DefaultParameter(d, key, numCommands, cli) >= 0
  {
  }

  /** The resolved table handed to `bench` meets what the regression needs:
      every entry is a non-negative `size_t` and every listed command's tuned
      key is present. */
  lemma ResolvedTableReady(d: Defaults, cli: map<string, int>, cmds: seq<string>, uniq: seq<string>)
    requires |cmds| > 0 && LongValues(cli) && InitialCliTable().Keys <= cli.Keys
    requires forall i :: 0 <= i < |uniq| ==> uniq[i] in cmds
    ensures TableReady(ResolveTable(d, cli, cmds), uniq)
  {
    var full := EmplaceGlobalsizes(cli, cmds);
    var r := ResolveTable(d, cli, cmds);
    assert Lookup(full, "globalsize_default_memory") == Lookup(cli, "globalsize_default_memory");
    forall k | k in r
      ensures r[k] >= 0
    {
      if full[k] == UNSET {
        DefaultNonNegative(d, k, |cmds|, full);
      }
    }
    forall i | 0 <= i < |uniq|
      ensures TunedKey(uniq[i]) in r
    {
      EmplacedTunedKey(cli, cmds, uniq[i]);
    }
  }

  /** The balancing step of main.cpp end to end: run on the resolved table,
      with `cli` completed by `try_emplace`, a command's tuned key is rescaled
      from its resolved value exactly when the command line never gave it or
      gave -1, and otherwise keeps the given value as a `size_t`. */
  lemma BalancedFromCommandLine(d: Defaults, cli: map<string, int>, cmds: seq<string>,
                                uniq: seq<string>, times: seq<Micros>, i: nat)
    requires |cmds| > 0 && LongValues(cli) && InitialCliTable().Keys <= cli.Keys
    requires Distinct(uniq) && forall j :: 0 <= j < |uniq| ==> uniq[j] in cmds
    requires |times| == |uniq| && UnsetTimesPositive(EmplaceGlobalsizes(cli, cmds), uniq, times)
    requires i < |uniq|
    ensures var params := ResolveTable(d, cli, cmds);
            var full := EmplaceGlobalsizes(cli, cmds);
            var k := TunedKey(uniq[i]);
            && TableReady(params, uniq)
            && k in Balanced(params, full, uniq, times)
            && Balanced(params, full, uniq, times)[k] ==
                 if k !in cli || cli[k] == UNSET then Rescaled(MinNonCompute(uniq, times), times[i], params[k])
                 else ToSizeT(cli[k])
  {
    var params := ResolveTable(d, cli, cmds);
    var full := EmplaceGlobalsizes(cli, cmds);
    ResolvedTableReady(d, cli, cmds, uniq);
    EmplacedTunedKey(cli, cmds, uniq[i]);
    BalancedAt(params, full, uniq, times, i);
  }
}
