/** The log reader of concurency/parse.py: a state machine over the lines of
    a benchmark log that remembers the latest `export` value and the latest
    benchmark command line, and files every verdict line into a three-level
    table keyed by environment, argument string and concurrency kind. The
    printing of that table is not part of this model. */
module LogParse {
  import opened Common
  import opened Text

  const EXPORT := "export"
  const RUN_MARK := "./"
  const PROFILING_FLAG := "--enable_profiling"

  // ---------------------------------------------------------------------------
  // str.split(sep)[0] and str.split(sep)[1]
  // ---------------------------------------------------------------------------

  /** Python `s.split(sep)[0]`: the text before the first `sep`, or all of
      `s` when there is none. */
  function Before(s: string, sep: string): (r: string)
    requires |sep| > 0
    ensures r <= s
    ensures !Contains(r, sep)
    ensures !Contains(s, sep) ==> r == s
  {
    match Find(s, sep)
    case None => s
    case Some(k) =>
      NoEarlierOccurrence(s, sep, k);
      s[..k]
  }

  /** An occurrence inside a prefix is an occurrence in the whole string. */
  lemma NoEarlierOccurrence(s: string, sep: string, k: nat)
    requires |sep| > 0 && k <= |s|
    requires forall j: nat :: j < k ==> !OccursAt(s, sep, j)
    ensures !Contains(s[..k], sep)
  {
    if Contains(s[..k], sep) {
      var j := Find(s[..k], sep).value;
      assert OccursAt(s[..k], sep, j);
      assert s[..k][j..j + |sep|] == s[j..j + |sep|];
      assert OccursAt(s, sep, j);
    }
  }

  /** The text after the first `sep`. */
  function After(s: string, sep: string): (r: string)
    requires |sep| > 0 && Contains(s, sep)
    ensures |r| + |sep| <= |s|
  {
    var k := Find(s, sep).value;
    s[k + |sep|..]
  }

  /** Cutting at the first separator loses nothing: the two sides and the
      separator put back together give the line. */
  lemma SplitReassembles(s: string, sep: string)
    requires |sep| > 0 && Contains(s, sep)
    ensures s == Before(s, sep) + sep + After(s, sep)
  {
    var k := Find(s, sep).value;
    assert s == s[..k] + s[k..k + |sep|] + s[k + |sep|..];
  }

  /** Python `s.split(sep)[1]`: the text between the first and the second
      `sep` (or the end of the line). */
  function Field1(s: string, sep: string): (r: string)
    requires |sep| > 0 && Contains(s, sep)
    ensures !Contains(r, sep)
    ensures r <= After(s, sep)
  {
    Before(After(s, sep), sep)
  }

  // ---------------------------------------------------------------------------
  // Line classification
  // ---------------------------------------------------------------------------

  datatype LineKind = ExportLine | RunLine | ResultLine | OtherLine

  /** The first test that holds decides: `export`, then `./`, then a verdict
      word. */
  function Classify(line: string): (k: LineKind)
    ensures k == ExportLine <==> Contains(line, EXPORT)
    ensures k == RunLine <==> !Contains(line, EXPORT) && Contains(line, RUN_MARK)
    ensures k == ResultLine <==>
              && !Contains(line, EXPORT) && !Contains(line, RUN_MARK)
              && (Contains(line, "FAILURE") || Contains(line, "SUCCESS"))
  {
    if Contains(line, EXPORT) then ExportLine
    else if Contains(line, RUN_MARK) then RunLine
    else if Contains(line, "FAILURE") || Contains(line, "SUCCESS") then ResultLine
    else OtherLine
  }

  /** The environment an `export` line sets. */
  function ExportValue(line: string): string
    requires Contains(line, EXPORT)
  {
    Strip(Field1(line, EXPORT))
  }

  // ---------------------------------------------------------------------------
  // Command lines
  // ---------------------------------------------------------------------------

  /** The last command line seen: its concurrency kind, its remaining
      arguments, and whether profiling was asked for. */
  datatype Run = Run(kind: string, argv: seq<string>, profiling: bool)

  datatype ParseError =
    | TooFewFields(line: string)  // the unpacking of `split()[2:]` finds nothing
    | NoRunYet(line: string)      // a verdict before any command line

  /** Position of the first `x` in `xs`. */
  function IndexOf(xs: seq<string>, x: string): (r: Option<nat>)
    ensures r.None? <==> x !in xs
    ensures r.Some? ==> r.value < |xs| && xs[r.value] == x && x !in xs[..r.value]
  {
    if |xs| == 0 then None
    else if xs[0] == x then Some(0)
    else
      var rest := IndexOf(xs[1..], x);
      assert xs == [xs[0]] + xs[1..];
      if rest.None? then None
      else
        assert xs[..rest.value + 1] == [xs[0]] + xs[1..][..rest.value];
        Some(rest.value + 1)
  }

  /** `ys` is `xs` with its first `x` taken out, when `removed`, and `xs`
      itself otherwise: every other element stays, in order. */
  predicate FirstRemoved(xs: seq<string>, x: string, ys: seq<string>, removed: bool)
  {
    && (removed <==> x in xs)
    && (!removed ==> ys == xs)
    && (removed ==> exists i :: 0 <= i <= |ys| && i < |xs| && x !in xs[..i] && xs == ys[..i] + [x] + ys[i..])
  }

  /** Python `list.remove(x)` with its `ValueError` turned into the flag. */
  function RemoveFirst(xs: seq<string>, x: string): (r: (seq<string>, bool))
    ensures FirstRemoved(xs, x, r.0, r.1)
    ensures multiset(r.0) + (if r.1 then multiset{x} else multiset{}) == multiset(xs)
  {
    match IndexOf(xs, x)
    case None => (xs, false)
    case Some(i) =>
      var t := xs[..i] + xs[i + 1..];
      assert t[..i] == xs[..i] && t[i..] == xs[i + 1..];
      assert xs == xs[..i] + [x] + xs[i + 1..];
      (t, true)
  }

  /** Python `line.strip().split()`. */
  function Fields(line: string): (ws: seq<string>)
    ensures forall k :: 0 <= k < |ws| ==> IsWord(ws[k])
  {
    Words(Strip(line))
  }

  /** The command line `launcher -flag kind args...`: the third whitespace
      token is the kind and the rest are the arguments in their order, less
      the first profiling flag. */
  function ParseRun(line: string): (r: Result<Run, ParseError>)
    ensures r.Err? <==> |Fields(line)| < 3
    ensures r.Err? ==> r.error == TooFewFields(line)
    ensures r.Ok? ==>
              var ws := Fields(line);
              && r.value.kind == ws[2]
              && (r.value.profiling <==> PROFILING_FLAG in ws[3..])
              && multiset(r.value.argv) + (if r.value.profiling then multiset{PROFILING_FLAG} else multiset{})
                 == multiset(ws[3..])
              && FirstRemoved(ws[3..], PROFILING_FLAG, r.value.argv, r.value.profiling)
              && forall k :: 0 <= k < |r.value.argv| ==> IsWord(r.value.argv[k])
  {
    var ws := Fields(line);
    if |ws| < 3 then Err(TooFewFields(line))
    else
      var removed := RemoveFirst(ws[3..], PROFILING_FLAG);
      WordsSurviveRemoval(ws[3..], removed.0);
      Ok(Run(ws[2], removed.0, removed.1))
  }

  lemma WordsSurviveRemoval(xs: seq<string>, ys: seq<string>)
    requires forall k :: 0 <= k < |xs| ==> IsWord(xs[k])
    requires multiset(ys) <= multiset(xs)
    ensures forall k :: 0 <= k < |ys| ==> IsWord(ys[k])
  {
    forall k | 0 <= k < |ys|
      ensures IsWord(ys[k])
    {
      assert ys[k] in multiset(ys);
      assert ys[k] in xs;
    }
  }

  /** The argument string of the table key determines the arguments: two
      command lines with different arguments never share a row. */
  lemma KeyDeterminesArgs(a: Run, b: Run)
    requires forall k :: 0 <= k < |a.argv| ==> IsWord(a.argv[k])
    requires forall k :: 0 <= k < |b.argv| ==> IsWord(b.argv[k])
    ensures Join(a.argv, " ") == Join(b.argv, " ") <==> a.argv == b.argv
  {
    WordsJoinRoundTrip(a.argv);
    WordsJoinRoundTrip(b.argv);
  }

  // ---------------------------------------------------------------------------
  // Verdict lines
  // ---------------------------------------------------------------------------

  /** The recorded outcome of a verdict line: the text before its first
      colon, with a failure under profiling downgraded to `SUCCESS*`. */
  function Label(line: string, profiling: bool): (r: string)
    ensures !Contains(r, ":")
    ensures r == "FAILURE" <==> !profiling && Before(line, ":") == "FAILURE"
    ensures !profiling ==> r <= line
    ensures r == Before(line, ":") || (profiling && r == "SUCCESS*")
  {
    var head := Before(line, ":");
    if profiling && head == "FAILURE" then
      assert !Contains("SUCCESS*", ":") by {
        forall j: nat
          ensures !OccursAt("SUCCESS*", ":", j)
        {
          if j + 1 <= 8 {
            assert "SUCCESS*"[j..j + 1][0] == "SUCCESS*"[j];
          }
        }
      }
      "SUCCESS*"
    else head
  }

  // ---------------------------------------------------------------------------
  // The result table (nested defaultdicts)
  // ---------------------------------------------------------------------------

  type Table = map<Option<string>, map<string, map<string, string>>>

  function Row(t: Table, env: Option<string>): map<string, map<string, string>>
  {
    if env in t then t[env] else map[]
  }

  function Cell(t: Table, env: Option<string>, key: string): map<string, string>
  {
    if key in Row(t, env) then Row(t, env)[key] else map[]
  }

  /** What `d_result[env][key][kind]` holds, if anything. */
  function Entry(t: Table, env: Option<string>, key: string, kind: string): Option<string>
  {
    if kind in Cell(t, env, key) then Some(Cell(t, env, key)[kind]) else None
  }

  /** `d_result[env][key][kind] = v`: that entry is `v` afterwards and every
      other entry is what it was. */
  function Store(t: Table, env: Option<string>, key: string, kind: string, v: string): (r: Table)
    ensures Entry(r, env, key, kind) == Some(v)
    ensures forall e, k, c :: (e != env || k != key || c != kind) ==> Entry(r, e, k, c) == Entry(t, e, k, c)
  {
    t[env := Row(t, env)[key := Cell(t, env, key)[kind := v]]]
  }

  // ---------------------------------------------------------------------------
  // The line loop
  // ---------------------------------------------------------------------------

  datatype Parser = Parser(env: Option<string>, run: Option<Run>, table: Table)

  const Initial := Parser(None, None, map[])

  /** One iteration of the loop over the log. */
  function Step(p: Parser, line: string): (r: Result<Parser, ParseError>)
    ensures Classify(line) == OtherLine ==> r == Ok(p)
    ensures Classify(line) == ExportLine ==>
              r == Ok(Parser(Some(ExportValue(line)), p.run, p.table))
    ensures Classify(line) == RunLine ==>
              && (r.Ok? <==> ParseRun(line).Ok?)
              && (r.Ok? ==> r.value == Parser(p.env, Some(ParseRun(line).value), p.table))
    ensures Classify(line) == ResultLine ==>
              && (r.Err? <==> p.run.None?)
              && (r.Err? ==> r.error == NoRunYet(line))
              && (r.Ok? ==> r.value.env == p.env && r.value.run == p.run)
              && (r.Ok? ==>
                    var run := p.run.value;
                    Entry(r.value.table, p.env, Join(run.argv, " "), run.kind) == Some(Label(line, run.profiling)))
    ensures Classify(line) != ResultLine && r.Ok? ==> r.value.table == p.table
  {
    match Classify(line)
    case ExportLine => Ok(p.(env := Some(ExportValue(line))))
    case RunLine =>
      (match ParseRun(line)
       case Err(e) => Err(e)
       case Ok(run) => Ok(p.(run := Some(run))))
    case ResultLine =>
      (match p.run
       case None => Err(NoRunYet(line))
       case Some(run) =>
         Ok(p.(table := Store(p.table, p.env, Join(run.argv, " "), run.kind, Label(line, run.profiling)))))
    case OtherLine => Ok(p)
  }

  /** The loop over `lines` from the state `p`; the first error ends it, as
      an uncaught exception ends the script. */
  function ParseFrom(p: Parser, lines: seq<string>): Result<Parser, ParseError>
  {
    if |lines| == 0 then Ok(p)
    else
      match ParseFrom(p, lines[..|lines| - 1])
      case Err(e) => Err(e)
      case Ok(q) => Step(q, lines[|lines| - 1])
  }

  function Parse(lines: seq<string>): Result<Parser, ParseError>
  {
    ParseFrom(Initial, lines)
  }

  /** Carry on from an outcome: an error stays, a state reads more lines. */
  function Resume(r: Result<Parser, ParseError>, lines: seq<string>): Result<Parser, ParseError>
  {
    match r
    case Err(e) => Err(e)
    case Ok(q) => ParseFrom(q, lines)
  }

  /** Reading a log in two pieces is reading it in one. */
  lemma {:induction false} ParseAppend(p: Parser, a: seq<string>, b: seq<string>)
    ensures ParseFrom(p, a + b) == Resume(ParseFrom(p, a), b)
    decreases |b|
  {
    if |b| == 0 {
      assert a + b == a;
    } else {
      var n := |b| - 1;
      assert (a + b)[..|a + b| - 1] == a + b[..n];
      assert (a + b)[|a + b| - 1] == b[n];
      ParseAppend(p, a, b[..n]);
    }
  }

  // ---------------------------------------------------------------------------
  // Properties of the loop
  // ---------------------------------------------------------------------------

  /** Index of the last `export` line, if any. */
  function LastExport(lines: seq<string>): (r: Option<nat>)
    ensures r.Some? ==> r.value < |lines| && Contains(lines[r.value], EXPORT)
    ensures r.Some? ==> forall j :: r.value < j < |lines| ==> !Contains(lines[j], EXPORT)
    ensures r.None? ==> forall j :: 0 <= j < |lines| ==> !Contains(lines[j], EXPORT)
  {
    if |lines| == 0 then None
    else if Contains(lines[|lines| - 1], EXPORT) then Some(|lines| - 1)
    else
      var r := LastExport(lines[..|lines| - 1]);
      assert forall j :: 0 <= j < |lines| - 1 ==> lines[..|lines| - 1][j] == lines[j];
      r
  }

  /** The environment is the one named by the latest `export` line, or the
      starting one when there has been none. */
  lemma {:induction false} EnvIsLatestExport(p: Parser, lines: seq<string>)
    requires ParseFrom(p, lines).Ok?
    ensures ParseFrom(p, lines).value.env ==
              match LastExport(lines)
              case None => p.env
              case Some(i) => Some(ExportValue(lines[i]))
  {
    if |lines| > 0 {
      var n := |lines| - 1;
      var front := lines[..n];
      EnvIsLatestExport(p, front);
      if !Contains(lines[n], EXPORT) {
        assert forall j :: 0 <= j < n ==> front[j] == lines[j];
        assert LastExport(lines) == LastExport(front);
      }
    }
  }

  /** A verdict line that comes before every command line stops the parse:
      there is no kind or argument list to file it under. */
  lemma {:induction false} VerdictBeforeRunFails(lines: seq<string>, i: nat)
    requires i < |lines| && Classify(lines[i]) == ResultLine
    requires forall j :: 0 <= j < i ==> Classify(lines[j]) != RunLine
    ensures Parse(lines).Err?
  {
    var head := lines[..i + 1];
    assert forall j :: 0 <= j < i ==> head[..i][j] == lines[j];
    NoRunWithoutRunLine(Initial, head[..i]);
    assert Parse(head).Err?;
    assert lines == head + lines[i + 1..];
    ErrorSticks(head, lines[i + 1..]);
  }

  /** Without command lines the parser never learns a run. */
  lemma {:induction false} NoRunWithoutRunLine(p: Parser, lines: seq<string>)
    requires p.run.None?
    requires forall j :: 0 <= j < |lines| ==> Classify(lines[j]) != RunLine
    ensures ParseFrom(p, lines).Ok? ==> ParseFrom(p, lines).value.run.None?
  {
    if |lines| > 0 {
      var n := |lines| - 1;
      assert forall j :: 0 <= j < n ==> lines[..n][j] == lines[j];
      NoRunWithoutRunLine(p, lines[..n]);
    }
  }

  /** Once the parse has failed, more lines do not revive it. */
  lemma {:induction false} ErrorSticks(a: seq<string>, b: seq<string>)
    requires Parse(a).Err?
    ensures Parse(a + b) == Parse(a)
  {
    ParseAppend(Initial, a, b);
  }

  /** A two-line log is two steps. */
  lemma ParseTwo(p: Parser, a: string, b: string)
    ensures Step(p, a).Ok? ==> ParseFrom(p, [a, b]) == Step(Step(p, a).value, b)
  {
    ParseOne(p, a);
    ParseAppend(p, [a], [b]);
    assert [a] + [b] == [a, b];
    if Step(p, a).Ok? {
      ParseOne(Step(p, a).value, b);
    }
  }

  lemma ParseOne(p: Parser, a: string)
    ensures ParseFrom(p, [a]) == Step(p, a)
  {
    assert [a][..0] == [];
  }

  /** Two verdicts for the same run: the later one is what the table keeps. */
  lemma LaterVerdictWins(p: Parser, first: string, second: string)
    requires p.run.Some?
    requires Classify(first) == ResultLine && Classify(second) == ResultLine
    ensures ParseFrom(p, [first, second]).Ok?
    ensures Entry(ParseFrom(p, [first, second]).value.table, p.env,
                  Join(p.run.value.argv, " "), p.run.value.kind)
            == Some(Label(second, p.run.value.profiling))
  {
    ParseTwo(p, first, second);
    var q := Step(p, first).value;
    assert q.env == p.env && q.run == p.run;
    assert ParseFrom(p, [first, second]) == Step(q, second);
  }

  /** The profiling rule in the whole pipeline: once a command line carries
      the profiling flag, none of its verdicts is recorded as FAILURE, and
      the run is filed under the arguments without the flag. */
  lemma ProfiledRunNeverFails(p: Parser, cmd: string, verdict: string)
    requires Classify(cmd) == RunLine && Classify(verdict) == ResultLine
    requires ParseRun(cmd).Ok? && PROFILING_FLAG in Fields(cmd)[3..]
    ensures ParseFrom(p, [cmd, verdict]).Ok?
    ensures var q := ParseFrom(p, [cmd, verdict]).value;
            var run := ParseRun(cmd).value;
            && run.profiling
            && Entry(q.table, p.env, Join(run.argv, " "), run.kind) != Some("FAILURE")
  {
    var run := ParseRun(cmd).value;
    ParseTwo(p, cmd, verdict);
    var q := Parser(p.env, Some(run), p.table);
    assert Step(p, cmd) == Ok(q);
    assert ParseFrom(p, [cmd, verdict]) == Step(q, verdict);
    assert Label(verdict, true) != "FAILURE";
  }

  /** The verdict lines the benchmarks print: a failure under profiling is
      filed as `SUCCESS*`, other verdicts keep their first word. */
  lemma BenchmarkVerdicts()
    ensures Label("FAILURE: Far from Theoretical Speedup", true) == "SUCCESS*"
    ensures Label("FAILURE: Far from Theoretical Speedup", false) == "FAILURE"
    ensures Label("SUCCESS: Concurent is faster than serial", true) == "SUCCESS"
  {
    FailureVerdictLabel(true);
    FailureVerdictLabel(false);
    SuccessVerdictLabel();
  }

  lemma FailureVerdictLabel(profiling: bool)
    ensures Label("FAILURE: Far from Theoretical Speedup", profiling) == if profiling then "SUCCESS*" else "FAILURE"
  {
    var f := "FAILURE: Far from Theoretical Speedup";
    VerdictHead(f, "FAILURE");
    assert Before(f, ":") == "FAILURE";
    LabelOfHead(f, profiling, "FAILURE");
  }

  lemma SuccessVerdictLabel()
    ensures Label("SUCCESS: Concurent is faster than serial", true) == "SUCCESS"
  {
    var g := "SUCCESS: Concurent is faster than serial";
    VerdictHead(g, "SUCCESS");
    assert Before(g, ":") == "SUCCESS";
    LabelOfHead(g, true, "SUCCESS");
  }

  lemma VerdictHead(line: string, word: string)
    requires |word| == 7 && |line| > 7 && line[7] == ':'
    requires forall j :: 0 <= j < 7 ==> line[j] == word[j] && word[j] != ':'
    ensures Before(line, ":") == word
  {
    assert line[..7] == word;
    FirstColon(line);
  }

  lemma LabelOfHead(line: string, profiling: bool, head: string)
    requires Before(line, ":") == head
    ensures Label(line, profiling) == if profiling && head == "FAILURE" then "SUCCESS*" else head
  {
  }

  /** In a line whose first colon is at index 7, the head is the first seven
      characters. */
  lemma FirstColon(s: string)
    requires |s| > 7 && s[7] == ':' && forall j :: 0 <= j < 7 ==> s[j] != ':'
    ensures Before(s, ":") == s[..7]
  {
    assert OccursAt(s, ":", 7);
    forall j: nat | j < 7
      ensures !OccursAt(s, ":", j)
    {
      assert s[j..j + 1][0] == s[j];
    }
    assert Find(s, ":") == Some(7);
  }
}
