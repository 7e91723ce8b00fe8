/** The batch driver (`batch_score.main`): one scorer run per roster row whose report is
  * found and whose ratings file does not exist yet, with success and failure counters.
  * The scorer process is an oracle from its command line to its exit code; a run that
  * exits with 0 leaves its ratings file behind. */
module Batch {

  import opened Wrappers
  import opened Text
  import opened Documents
  import opened Roster
  import opened Lookup

  /** The options passed through to the scorer; an empty model name is an option not
    * given. */
  datatype Options = Options(skipLlama: bool, skipDeepSeek: bool, llamaModel: string, deepSeekModel: string)

  /** A switch: the flag when it is set, nothing otherwise. */
  function Switch(on: bool, name: string): seq<string> {
    if on then [name] else []
  }

  /** An option with a value: the flag and its value when the value is non-empty. */
  function Pair(value: string, name: string): seq<string> {
    if value != [] then [name, value] else []
  }

  /** The optional part of the command line, in its fixed order. */
  function Flags(o: Options): seq<string> {
    Switch(o.skipLlama, "--skip-llama") + (Switch(o.skipDeepSeek, "--skip-deepseek")
      + (Pair(o.llamaModel, "--llama-model") + Pair(o.deepSeekModel, "--deepseek-model")))
  }

  /** An optional switch at the head of `args`: whether it is there, and the rest. */
  function TakeSwitch(args: seq<string>, name: string): (bool, seq<string>) {
    if |args| > 0 && args[0] == name then (true, args[1..]) else (false, args)
  }

  /** An optional `name value` pair at the head of `args`: its value (empty when absent)
    * and the rest, or `None` when the name has no non-empty value after it. */
  function TakeValue(args: seq<string>, name: string): Option<(string, seq<string>)> {
    if |args| > 0 && args[0] == name then
      if |args| > 1 && args[1] != [] then Some((args[1], args[2..])) else None
    else Some(([], args))
  }

  /** Reading the optional part back, the way the scorer's argument parser sees it in
    * this fixed order. */
  function ParseFlags(args: seq<string>): Option<Options> {
    var (skipLlama, a1) := TakeSwitch(args, "--skip-llama");
    var (skipDeepSeek, a2) := TakeSwitch(a1, "--skip-deepseek");
    match TakeValue(a2, "--llama-model")
    case None => None
    case Some((llama, a3)) =>
      match TakeValue(a3, "--deepseek-model")
      case None => None
      case Some((deepSeek, a4)) =>
        if a4 == [] then Some(Options(skipLlama, skipDeepSeek, llama, deepSeek)) else None
  }

  lemma SwitchRoundTrip(args: seq<string>, on: bool, name: string, rest: seq<string>)
    requires rest == [] || rest[0] != name
    ensures TakeSwitch(args, name) == (on, rest) <==> args == Switch(on, name) + rest
  {
    if on {
      if args == [name] + rest {
        assert args[1..] == rest;
      }
      if |args| > 0 && args[0] == name && args[1..] == rest {
        assert args == [args[0]] + args[1..];
      }
    } else {
      assert Switch(on, name) + rest == rest;
    }
  }

  lemma PairRoundTrip(args: seq<string>, value: string, name: string, rest: seq<string>)
    requires rest == [] || rest[0] != name
    ensures TakeValue(args, name) == Some((value, rest)) <==> args == Pair(value, name) + rest
  {
    if value != [] {
      if args == [name, value] + rest {
        assert args[2..] == rest;
      }
      if |args| > 1 && args[0] == name && args[1] == value && args[2..] == rest {
        assert args == [args[0], args[1]] + args[2..];
      }
    } else {
      assert Pair(value, name) + rest == rest;
    }
  }

  /** The flags name the options exactly: parsing them gives the options back, and the
    * only flag lists that parse are the ones `Flags` builds. */
  lemma FlagsRoundTrip(args: seq<string>, o: Options)
    ensures ParseFlags(args) == Some(o) <==> args == Flags(o)
  {
    if args == Flags(o) {
      FlagsParse(o);
    }
    if ParseFlags(args) == Some(o) {
      ParsedFlagsAreFlags(args, o);
    }
  }

  /** Parsing the flags of some options gives those options. */
  lemma FlagsParse(o: Options)
    ensures ParseFlags(Flags(o)) == Some(o)
  {
    var f3 := Pair(o.deepSeekModel, "--deepseek-model");
    var f2 := Pair(o.llamaModel, "--llama-model") + f3;
    var f1 := Switch(o.skipDeepSeek, "--skip-deepseek") + f2;
    assert f3 + [] == f3;
    SwitchRoundTrip(Flags(o), o.skipLlama, "--skip-llama", f1);
    SwitchRoundTrip(f1, o.skipDeepSeek, "--skip-deepseek", f2);
    PairRoundTrip(f2, o.llamaModel, "--llama-model", f3);
    PairRoundTrip(f3, o.deepSeekModel, "--deepseek-model", []);
  }

  /** Flags that parse to some options are the flags of those options. */
  lemma ParsedFlagsAreFlags(args: seq<string>, o: Options)
    requires ParseFlags(args) == Some(o)
    ensures args == Flags(o)
  {
    var f3 := Pair(o.deepSeekModel, "--deepseek-model");
    var f2 := Pair(o.llamaModel, "--llama-model") + f3;
    var f1 := Switch(o.skipDeepSeek, "--skip-deepseek") + f2;
    assert f3 + [] == f3;
    var a1 := TakeSwitch(args, "--skip-llama").1;
    var a2 := TakeSwitch(a1, "--skip-deepseek").1;
    var a3 := TakeValue(a2, "--llama-model").value.1;
    PairRoundTrip(a3, o.deepSeekModel, "--deepseek-model", []);
    assert a3 == f3;
    PairRoundTrip(a2, o.llamaModel, "--llama-model", f3);
    assert a2 == f2;
    SwitchRoundTrip(a1, o.skipDeepSeek, "--skip-deepseek", f2);
    assert a1 == f1;
    SwitchRoundTrip(args, o.skipLlama, "--skip-llama", f1);
  }

  /** `str(path)`: the directory components and the name, joined by `/`. */
  function PathText(p: Path): string {
    Join(p.dirs + [p.name], "/")
  }

  /** The scorer's command line for one report and one output file. */
  function Command(python: string, scorer: string, md: Path, out: Path, o: Options): seq<string> {
    [python, scorer, "--input", PathText(md), "--output", PathText(out)] + Flags(o)
  }

  /** A call of the scorer: interpreter, scorer, `--input` and a path, `--output` and a
    * path, then flags that parse back to the options. */
  predicate IsScorerCall(c: seq<string>, python: string, scorer: string, o: Options) {
    |c| >= 6 && c[0] == python && c[1] == scorer && c[2] == "--input" && c[4] == "--output"
    && ParseFlags(c[6..]) == Some(o)
  }

  /** Every command starts with the interpreter, the scorer, the input and the output,
    * and its remaining arguments parse back to the options. */
  lemma CommandShape(python: string, scorer: string, md: Path, out: Path, o: Options)
    ensures var c := Command(python, scorer, md, out, o);
      && IsScorerCall(c, python, scorer, o)
      && c[3] == PathText(md) && c[5] == PathText(out)
  {
    var c := Command(python, scorer, md, out, o);
    assert c[6..] == Flags(o);
    FlagsRoundTrip(Flags(o), o);
  }

  /** The ratings file of a roster row: `{team_slug}_{player_slug}.json`. */
  function OutPath(ratingsDir: seq<string>, p: RosterPlayer): Path {
    Path(ratingsDir, p.teamSlug + "_" + p.playerSlug + ".json")
  }

  /** What stays fixed over one batch: the interpreter and scorer, the report index and
    * its sorted keys, the ratings directory and the pass-through options. */
  datatype Setup = Setup(python: string, scorer: string, index: map<string, Path>,
                         available: seq<string>, ratingsDir: seq<string>, options: Options)
  {
    predicate Valid() {
      forall k :: k in available ==> k in index
    }
  }

  /** The counters, the commands run so far, and the ratings files that exist. */
  datatype Tally = Tally(successes: nat, failures: nat, commands: seq<seq<string>>, outputs: set<Path>)

  /** One roster row: skipped without a report or with an existing ratings file;
    * otherwise one scorer run. */
  function Step(s: Setup, exit: seq<string> -> int, t: Tally, p: RosterPlayer): Tally
    requires s.Valid()
  {
    match FindReport(s.index, s.available, p.teamSlug, p.playerSlug)
    case None => t
    case Some(md) =>
      var out := OutPath(s.ratingsDir, p);
      if out in t.outputs then t else Ran(t, Command(s.python, s.scorer, md, out, s.options), out, exit)
  }

  /** One scorer run, counted as a success, which leaves the ratings file `out` behind,
    * exactly when it exits with 0. */
  function Ran(t: Tally, command: seq<string>, out: Path, exit: seq<string> -> int): Tally {
    if exit(command) == 0 then Tally(t.successes + 1, t.failures, t.commands + [command], t.outputs + {out})
    else Tally(t.successes, t.failures + 1, t.commands + [command], t.outputs)
  }

  /** A row adds at most one command, a well-formed scorer call, and moves exactly one
    * counter for it: the successes when it exits with 0, the failures otherwise. A row
    * without a report or with an existing ratings file changes nothing. */
  lemma StepShape(s: Setup, exit: seq<string> -> int, t: Tally, p: RosterPlayer)
    requires s.Valid()
    ensures var r := Step(s, exit, t, p);
      && |t.commands| <= |r.commands| <= |t.commands| + 1
      && r.successes + r.failures - (t.successes + t.failures) == |r.commands| - |t.commands|
      && (r.successes > t.successes ==> (|r.commands| > 0 && exit(r.commands[|r.commands| - 1]) == 0))
      && (r.failures > t.failures ==> (|r.commands| > 0 && exit(r.commands[|r.commands| - 1]) != 0))
      && r.successes >= t.successes && r.failures >= t.failures
      && r.commands[..|t.commands|] == t.commands && t.outputs <= r.outputs
      && (|r.commands| > |t.commands| ==>
        IsScorerCall(r.commands[|r.commands| - 1], s.python, s.scorer, s.options))
      && (FindReport(s.index, s.available, p.teamSlug, p.playerSlug).None? ==> r == t)
      && (OutPath(s.ratingsDir, p) in t.outputs ==> r == t)
  {
    match FindReport(s.index, s.available, p.teamSlug, p.playerSlug)
    case None =>
    case Some(md) =>
      var out := OutPath(s.ratingsDir, p);
      if out !in t.outputs {
        CommandShape(s.python, s.scorer, md, out, s.options);
        var command := Command(s.python, s.scorer, md, out, s.options);
        assert (t.commands + [command])[..|t.commands|] == t.commands;
      }
  }
  /** A row with a report and without a ratings file runs the scorer on that report once:
    * the command is appended, and the run counts as a success that leaves the ratings
    * file behind when it exits with 0, as a failure otherwise. */
  lemma StepRuns(s: Setup, exit: seq<string> -> int, t: Tally, p: RosterPlayer, md: Path)
    requires s.Valid()
    requires FindReport(s.index, s.available, p.teamSlug, p.playerSlug) == Some(md)
    requires OutPath(s.ratingsDir, p) !in t.outputs
    ensures var r := Step(s, exit, t, p);
      var out := OutPath(s.ratingsDir, p);
      var command := Command(s.python, s.scorer, md, out, s.options);
      && r.commands == t.commands + [command]
      && (exit(command) == 0 ==>
            r.successes == t.successes + 1 && r.failures == t.failures && r.outputs == t.outputs + {out})
      && (exit(command) != 0 ==>
            r.successes == t.successes && r.failures == t.failures + 1 && r.outputs == t.outputs)
  {
  }


  /** The batch over the first `n` rows, starting from the ratings files in `existing`. */
  function Drive(s: Setup, exit: seq<string> -> int, players: seq<RosterPlayer>, n: nat, existing: set<Path>): Tally
    requires s.Valid() && n <= |players|
  {
    if n == 0 then Tally(0, 0, [], existing)
    else Step(s, exit, Drive(s, exit, players, n - 1, existing), players[n - 1])
  }

  /** The number of commands that exit with 0. */
  function ZeroExits(commands: seq<seq<string>>, exit: seq<string> -> int): nat {
    if commands == [] then 0
    else ZeroExits(commands[..|commands| - 1], exit) + (if exit(commands[|commands| - 1]) == 0 then 1 else 0)
  }

  /** Every run counts once: successes are the runs that exit with 0, failures the
    * others, and there is at most one run per row. */
  lemma {:induction false} DriveCounts(s: Setup, exit: seq<string> -> int, players: seq<RosterPlayer>, n: nat, existing: set<Path>)
    requires s.Valid() && n <= |players|
    ensures var t := Drive(s, exit, players, n, existing);
      && t.successes + t.failures == |t.commands| <= n
      && t.successes == ZeroExits(t.commands, exit)
      && existing <= t.outputs
  {
    if n > 0 {
      var t := Drive(s, exit, players, n - 1, existing);
      DriveCounts(s, exit, players, n - 1, existing);
      StepShape(s, exit, t, players[n - 1]);
      var r := Drive(s, exit, players, n, existing);
      if |r.commands| > |t.commands| {
        assert r.commands[..|r.commands| - 1] == t.commands;
      }
    }
  }

  /** Every command of the batch is a well-formed scorer call carrying the options. */
  lemma {:induction false} DriveCommandsWellFormed(s: Setup, exit: seq<string> -> int, players: seq<RosterPlayer>, n: nat, existing: set<Path>)
    requires s.Valid() && n <= |players|
    ensures forall c :: c in Drive(s, exit, players, n, existing).commands ==>
      IsScorerCall(c, s.python, s.scorer, s.options)
  {
    if n > 0 {
      var t := Drive(s, exit, players, n - 1, existing);
      var r := Drive(s, exit, players, n, existing);
      DriveCommandsWellFormed(s, exit, players, n - 1, existing);
      StepShape(s, exit, t, players[n - 1]);
      forall c | c in r.commands ensures IsScorerCall(c, s.python, s.scorer, s.options) {
        var i :| 0 <= i < |r.commands| && r.commands[i] == c;
        if i < |t.commands| {
          assert r.commands[..|t.commands|][i] == c;
        }
      }
    }
  }

  /** A rerun with every ratings file already present runs nothing and counts nothing. */
  lemma {:induction false} RerunIsNoop(s: Setup, exit: seq<string> -> int, players: seq<RosterPlayer>, n: nat, existing: set<Path>)
    requires s.Valid() && n <= |players|
    requires forall i :: 0 <= i < n ==> OutPath(s.ratingsDir, players[i]) in existing
    ensures Drive(s, exit, players, n, existing) == Tally(0, 0, [], existing)
  {
    if n > 0 {
      RerunIsNoop(s, exit, players, n - 1, existing);
      StepShape(s, exit, Tally(0, 0, [], existing), players[n - 1]);
    }
  }

  lemma DriveNext(s: Setup, exit: seq<string> -> int, players: seq<RosterPlayer>, n: nat, existing: set<Path>)
    requires s.Valid() && n < |players|
    ensures Drive(s, exit, players, n + 1, existing) == Step(s, exit, Drive(s, exit, players, n, existing), players[n])
  {
  }

  /** One row of the loop: the lookup, the skip test on the ratings file and the
    * scorer run. */
  method ScoreRow(s: Setup, exit: seq<string> -> int, t: Tally, p: RosterPlayer) returns (r: Tally)
    requires s.Valid()
    ensures r == Step(s, exit, t, p)
  {
    r := t;
    var md := FindReport(s.index, s.available, p.teamSlug, p.playerSlug);
    if md.Some? {
      var out := OutPath(s.ratingsDir, p);
      if out !in t.outputs {
        var command := Command(s.python, s.scorer, md.value, out, s.options);
        if exit(command) == 0 {
          r := Tally(t.successes + 1, t.failures, t.commands + [command], t.outputs + {out});
        } else {
          r := Tally(t.successes, t.failures + 1, t.commands + [command], t.outputs);
        }
      }
    }
  }

  /** The loop of `main` over the roster records. */
  method ScoreRows(s: Setup, exit: seq<string> -> int, players: seq<RosterPlayer>, existing: set<Path>)
    returns (successes: nat, failures: nat, commands: seq<seq<string>>, outputs: set<Path>)
    requires s.Valid()
    ensures Tally(successes, failures, commands, outputs) == Drive(s, exit, players, |players|, existing)
  {
    successes, failures, commands, outputs := 0, 0, [], existing;
    var i := 0;
    while i < |players|
      invariant 0 <= i <= |players|
      invariant Tally(successes, failures, commands, outputs) == Drive(s, exit, players, i, existing)
    {
      var r := ScoreRow(s, exit, Tally(successes, failures, commands, outputs), players[i]);
      successes, failures, commands, outputs := r.successes, r.failures, r.commands, r.outputs;
      DriveNext(s, exit, players, i, existing);
      i := i + 1;
    }
  }

  /** `batch_score.main`: the roster records, the stem index of the reports (listed in
    * sorted path order), its keys sorted, the ratings directory beside the input
    * directory, then the loop over the records. */
  method BatchScore(rows: seq<Row>, files: seq<Path>, inputDir: seq<string>, python: string, scorer: string,
                    options: Options, existing: set<Path>, exit: seq<string> -> int)
    returns (successes: nat, failures: nat, commands: seq<seq<string>>, outputs: set<Path>)
    ensures var s := Setup(python, scorer, StemIndex(files), Sort(KeyOrder(files, |files|, StemKey)),
                           ParentDir(inputDir) + ["ratings"], options);
      && s.Valid()
      && Tally(successes, failures, commands, outputs) == Drive(s, exit, RosterPlayers(rows), |RosterPlayers(rows)|, existing)
  {
    var players := RosterPlayers(rows);
    var index := StemIndex(files);
    var available := Sort(KeyOrder(files, |files|, StemKey));
    KeyOrderListsKeys(files, |files|, StemKey);
    assert forall k :: k in available ==> k in index by {
      forall k | k in available ensures k in index {
        assert k in multiset(available);
      }
    }
    var s := Setup(python, scorer, index, available, ParentDir(inputDir) + ["ratings"], options);
    successes, failures, commands, outputs := ScoreRows(s, exit, players, existing);
  }
}
