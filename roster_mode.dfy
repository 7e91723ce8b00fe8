/** The scorer's roster mode (`score_runner.main` with `--from-roster`): the rows with a
  * team, the same report lookup as the batch driver but over the index keys in the order
  * they were first seen, and `score_all` run in-process for each row whose ratings file
  * does not exist yet. */
module RosterMode {

  import opened Wrappers
  import opened Text
  import opened Rating
  import opened Documents
  import opened Roster
  import opened Lookup
  import opened Scoring
  import Batch

  predicate HasTeam(row: Row) {
    TeamName(row) != []
  }

  /** `rows = [r for r in reader if team]`: the rows whose team field is non-empty. */
  function TeamRows(rows: seq<Row>): seq<Row> {
    Keep(rows, HasTeam)
  }

  /** The reads of some rows, for any way of reading one row. */
  function ReadAll(rows: seq<Row>, read: Row -> Option<RosterPlayer>): seq<Option<RosterPlayer>> {
    seq(|rows|, i requires 0 <= i < |rows| => read(rows[i]))
  }

  /** Dropping rows that read as no record drops no record. */
  lemma {:induction false} DropUnreadRows(rows: seq<Row>, read: Row -> Option<RosterPlayer>, keep: Row -> bool)
    requires forall row :: !keep(row) ==> read(row).None?
    ensures Players(ReadAll(Keep(rows, keep), read)) == Players(ReadAll(rows, read))
  {
    if rows != [] {
      var x, tail := rows[0], rows[1..];
      DropUnreadRows(tail, read, keep);
      assert rows == [x] + tail;
      ReadAllCons(x, tail, read);
      PlayersCons(read(x), ReadAll(tail, read));
      if keep(x) {
        ReadAllCons(x, Keep(tail, keep), read);
        PlayersCons(read(x), ReadAll(Keep(tail, keep), read));
      }
    }
  }

  lemma ReadAllCons(x: Row, rest: seq<Row>, read: Row -> Option<RosterPlayer>)
    ensures ReadAll([x] + rest, read) == [read(x)] + ReadAll(rest, read)
  {
  }

  lemma PlayersCons(o: Option<RosterPlayer>, rest: seq<Option<RosterPlayer>>)
    ensures Players([o] + rest) == (if o.Some? then [o.value] else []) + Players(rest)
  {
    assert ([o] + rest)[1..] == rest;
  }

  /** A row without a team gives no record. */
  lemma NoTeamNoRecord(row: Row)
    requires !HasTeam(row)
    ensures ReadRow(row).None?
  {
  }

  /** Dropping the rows without a team drops no roster record: the name check would have
    * skipped each of them. */
  lemma TeamRowsKeepPlayers(rows: seq<Row>)
    ensures Players(Reads(TeamRows(rows))) == Players(Reads(rows))
  {
    NoTeamRowsUnread();
    DropUnreadRows(rows, ReadRow, HasTeam);
    ReadAllIsReads(TeamRows(rows));
    ReadAllIsReads(rows);
  }

  lemma NoTeamRowsUnread()
    ensures forall row :: !HasTeam(row) ==> ReadRow(row).None?
  {
    forall row | !HasTeam(row) ensures ReadRow(row).None? {
      NoTeamNoRecord(row);
    }
  }

  lemma ReadAllIsReads(rows: seq<Row>)
    ensures ReadAll(rows, ReadRow) == Reads(rows)
  {
  }

  /** What stays fixed over the roster run: the report index, its keys in first-seen
    * order and the ratings directory. */
  datatype Setup = Setup(index: map<string, Path>, order: seq<string>, ratingsDir: seq<string>)
  {
    predicate Valid() {
      && (forall k :: k in order ==> k in index)
      && (forall k :: k in index ==> index[k].name != [])
    }
  }

  /** The counters, the (report, ratings file) pairs scored so far, and the ratings files
    * that exist. */
  datatype Runs = Runs(successes: nat, failures: nat, scored: seq<(Path, Path)>, outputs: set<Path>)

  /** One row: skipped when its names are incomplete, when no report is found or when its
    * ratings file exists; otherwise `score_all` runs on the report, which succeeds
    * (and writes the ratings file) exactly when both required keys are set. */
  function Step(s: Setup, keysSet: bool, t: Runs, entry: Option<RosterPlayer>): (r: Runs)
    requires s.Valid()
    ensures |t.scored| <= |r.scored| <= |t.scored| + 1
    ensures r.successes + r.failures - (t.successes + t.failures) == |r.scored| - |t.scored|
    ensures r.successes >= t.successes && r.failures >= t.failures && t.outputs <= r.outputs
    ensures r.successes > t.successes ==> keysSet
    ensures r.failures > t.failures ==> !keysSet
  {
    match entry
    case None => t
    case Some(p) =>
      match FindReport(s.index, s.order, p.teamSlug, p.playerSlug)
      case None => t
      case Some(md) =>
        var out := Batch.OutPath(s.ratingsDir, p);
        if out in t.outputs then t else Counted(t, md, out, keysSet)
  }

  /** One `score_all` call on the report `md` for the ratings file `out`: a success
    * counts and leaves the ratings file behind, a failure only counts. */
  function Counted(t: Runs, md: Path, out: Path, ok: bool): Runs {
    if ok then Runs(t.successes + 1, t.failures, t.scored + [(md, out)], t.outputs + {out})
    else Runs(t.successes, t.failures + 1, t.scored + [(md, out)], t.outputs)
  }

  /** Which rows are skipped and which are scored: a row without a record, without a
    * report or with an existing ratings file changes nothing; any other row is scored
    * once on the report found for it, a success that leaves the ratings file behind
    * exactly when both keys are set. */
  lemma StepShape(s: Setup, keysSet: bool, t: Runs, entry: Option<RosterPlayer>)
    requires s.Valid()
    ensures var r := Step(s, keysSet, t, entry);
      && (entry.None? ==> r == t)
      && (entry.Some? && FindReport(s.index, s.order, entry.value.teamSlug, entry.value.playerSlug).None? ==> r == t)
      && (entry.Some? && Batch.OutPath(s.ratingsDir, entry.value) in t.outputs ==> r == t)
      && (entry.Some? && Batch.OutPath(s.ratingsDir, entry.value) !in t.outputs ==>
            forall md :: FindReport(s.index, s.order, entry.value.teamSlug, entry.value.playerSlug) == Some(md) ==>
              && r.scored == t.scored + [(md, Batch.OutPath(s.ratingsDir, entry.value))]
              && (keysSet ==>
                    r.successes == t.successes + 1 && r.failures == t.failures
                    && r.outputs == t.outputs + {Batch.OutPath(s.ratingsDir, entry.value)})
              && (!keysSet ==> r.successes == t.successes && r.failures == t.failures + 1 && r.outputs == t.outputs))
  {
  }

  /** The run over the first `n` rows, starting from the ratings files in `existing`. */
  function Drive(s: Setup, keysSet: bool, entries: seq<Option<RosterPlayer>>, n: nat, existing: set<Path>): Runs
    requires s.Valid() && n <= |entries|
  {
    if n == 0 then Runs(0, 0, [], existing)
    else Step(s, keysSet, Drive(s, keysSet, entries, n - 1, existing), entries[n - 1])
  }

  /** Every call counts once, at most one per row; with both keys set nothing fails, and
    * with one missing nothing succeeds. */
  lemma {:induction false} DriveCounts(s: Setup, keysSet: bool, entries: seq<Option<RosterPlayer>>, n: nat, existing: set<Path>)
    requires s.Valid() && n <= |entries|
    ensures var t := Drive(s, keysSet, entries, n, existing);
      && t.successes + t.failures == |t.scored| <= n
      && (keysSet ==> t.failures == 0)
      && (!keysSet ==> t.successes == 0)
      && existing <= t.outputs
  {
    if n > 0 {
      DriveCounts(s, keysSet, entries, n - 1, existing);
    }
  }

  /** A rerun with every ratings file present scores nothing. */
  lemma {:induction false} RerunIsNoop(s: Setup, keysSet: bool, entries: seq<Option<RosterPlayer>>, n: nat, existing: set<Path>)
    requires s.Valid() && n <= |entries|
    requires forall i :: 0 <= i < n && entries[i].Some? ==> Batch.OutPath(s.ratingsDir, entries[i].value) in existing
    ensures Drive(s, keysSet, entries, n, existing) == Runs(0, 0, [], existing)
  {
    if n > 0 {
      RerunIsNoop(s, keysSet, entries, n - 1, existing);
    }
  }

  lemma DriveNext(s: Setup, keysSet: bool, entries: seq<Option<RosterPlayer>>, n: nat, existing: set<Path>)
    requires s.Valid() && n < |entries|
    ensures Drive(s, keysSet, entries, n + 1, existing) == Step(s, keysSet, Drive(s, keysSet, entries, n, existing), entries[n])
  {
  }

  /** One row of the roster loop: the lookup and the skip test on the ratings file. */
  method ScoreEntry<J>(s: Setup, t: Runs, entry: Option<RosterPlayer>,
                       files: Files, resolve: Path -> string, cli: Models, skips: Skips,
                       env: map<string, string>, reply: (Chain, string) -> Reply,
                       parse: string -> Option<J>, fields: J -> Candidate, now: string)
    returns (r: Runs)
    requires s.Valid()
    ensures r == Step(s, KeysSet(env), t, entry)
  {
    r := t;
    if entry.Some? {
      var p := entry.value;
      var md := FindReport(s.index, s.order, p.teamSlug, p.playerSlug);
      if md.Some? {
        var out := Batch.OutPath(s.ratingsDir, p);
        if out !in t.outputs {
          r := ScoreReport(t, md.value, out, files, resolve, cli, skips, env, reply, parse, fields, now);
        }
      }
    }
  }

  /** The in-process `score_all` on one report, whose outcome moves one counter. */
  method ScoreReport<J>(t: Runs, md: Path, out: Path,
                        files: Files, resolve: Path -> string, cli: Models, skips: Skips,
                        env: map<string, string>, reply: (Chain, string) -> Reply,
                        parse: string -> Option<J>, fields: J -> Candidate, now: string)
    returns (r: Runs)
    requires md.name != []
    ensures r == Counted(t, md, out, KeysSet(env))
  {
    var result := ScoreAll(files, resolve, md, cli, skips, env, reply, parse, fields, now);
    r := Counted(t, md, out, result.Ok?);
  }

  /** The loop of the roster mode over the rows as read. */
  method ScoreEntries<J>(s: Setup, entries: seq<Option<RosterPlayer>>, existing: set<Path>,
                         files: Files, resolve: Path -> string, cli: Models, skips: Skips,
                         env: map<string, string>, reply: (Chain, string) -> Reply,
                         parse: string -> Option<J>, fields: J -> Candidate, now: string)
    returns (successes: nat, failures: nat, scored: seq<(Path, Path)>, outputs: set<Path>)
    requires s.Valid()
    ensures Runs(successes, failures, scored, outputs) == Drive(s, KeysSet(env), entries, |entries|, existing)
  {
    successes, failures, scored, outputs := 0, 0, [], existing;
    var i := 0;
    while i < |entries|
      invariant 0 <= i <= |entries|
      invariant Runs(successes, failures, scored, outputs) == Drive(s, KeysSet(env), entries, i, existing)
    {
      var r := ScoreEntry(s, Runs(successes, failures, scored, outputs), entries[i],
                          files, resolve, cli, skips, env, reply, parse, fields, now);
      successes, failures, scored, outputs := r.successes, r.failures, r.scored, r.outputs;
      DriveNext(s, KeysSet(env), entries, i, existing);
      i := i + 1;
    }
  }

  /** The roster mode: the stem index of the reports (listed in sorted path order), its
    * keys in first-seen order, the ratings directory beside the summaries directory, and
    * the loop over the rows that have a team. */
  method ScoreRoster<J>(rows: seq<Row>, reports: seq<Path>, summariesDir: seq<string>, existing: set<Path>,
                        files: Files, resolve: Path -> string, cli: Models, skips: Skips,
                        env: map<string, string>, reply: (Chain, string) -> Reply,
                        parse: string -> Option<J>, fields: J -> Candidate, now: string)
    returns (successes: nat, failures: nat, scored: seq<(Path, Path)>, outputs: set<Path>)
    requires forall p :: p in reports ==> p.name != []
    ensures var s := Setup(StemIndex(reports), KeyOrder(reports, |reports|, StemKey), ParentDir(summariesDir) + ["ratings"]);
      && s.Valid()
      && Runs(successes, failures, scored, outputs)
        == Drive(s, KeysSet(env), Reads(TeamRows(rows)), |TeamRows(rows)|, existing)
  {
    IndexKeys(reports, |reports|, StemKey);
    KeyOrderListsKeys(reports, |reports|, StemKey);
    var s := Setup(StemIndex(reports), KeyOrder(reports, |reports|, StemKey), ParentDir(summariesDir) + ["ratings"]);
    successes, failures, scored, outputs :=
      ScoreEntries(s, Reads(TeamRows(rows)), existing, files, resolve, cli, skips, env, reply, parse, fields, now);
  }
}
