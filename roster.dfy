/** Reading the roster CSV of the scoring side (`_iter_roster_players`,
  * `_build_roster_maps`): each field from its column, falling back to a second column
  * when the first is empty or absent, and a row kept only when team, first and last
  * name are all non-empty. A row is a map from column to text; a column the row does
  * not have is absent. */
module Roster {

  import opened Wrappers
  import opened Text
  import opened Slugs

  type Row = map<string, string>

  /** `row.get(key) or ""`. */
  function Column(row: Row, key: string): string {
    if key in row then row[key] else ""
  }

  /** `(row.get(primary) or row.get(fallback) or "").strip()`. */
  function Field(row: Row, primary: string, fallback: string): (r: string)
    ensures Column(row, primary) != [] ==> r == Strip(Column(row, primary))
    ensures Column(row, primary) == [] ==> r == Strip(Column(row, fallback))
  {
    Strip(Or(Or(Column(row, primary), Column(row, fallback)), ""))
  }

  /** The fallback is taken before stripping: a primary column holding only whitespace
    * gives an empty field, whatever the fallback column holds. */
  lemma BlankPrimaryHidesFallback(row: Row, primary: string, fallback: string)
    requires Column(row, primary) != []
    requires forall i :: 0 <= i < |Column(row, primary)| ==> IsSpace(Column(row, primary)[i])
    ensures Field(row, primary, fallback) == []
  {
  }

  function TeamName(row: Row): string { Field(row, "team_name", "Team") }
  function FirstName(row: Row): string { Field(row, "firstName", "First") }
  function LastName(row: Row): string { Field(row, "lastName", "Last") }

  /** The rows `keep` accepts, in order. */
  function Keep(rows: seq<Row>, keep: Row -> bool): (r: seq<Row>)
    ensures |r| <= |rows|
    ensures forall row :: row in r <==> row in rows && keep(row)
  {
    if rows == [] then []
    else
      assert rows == [rows[0]] + rows[1..];
      if keep(rows[0]) then [rows[0]] + Keep(rows[1..], keep) else Keep(rows[1..], keep)
  }

  /** Filtering keeps order: the rows kept from two lists are those kept from the first,
    * then those kept from the second. */
  lemma {:induction false} KeepAppend(a: seq<Row>, b: seq<Row>, keep: Row -> bool)
    ensures Keep(a + b, keep) == Keep(a, keep) + Keep(b, keep)
    decreases |a|
  {
    if a == [] {
      assert a + b == b;
    } else {
      assert (a + b)[0] == a[0] && (a + b)[1..] == a[1..] + b;
      KeepAppend(a[1..], b, keep);
    }
  }

  /** A qualifying roster row: the stripped team, first and last name, and the two
    * slugs the scorer derives from them, `_slugify(team)` and `_slugify(first + "_" + last)`. */
  datatype RosterPlayer = RosterPlayer(teamName: string, first: string, last: string,
                                       teamSlug: string, playerSlug: string)

  /** The row filter: a record exactly when team, first and last name are all non-empty. */
  function Qualify(team: string, first: string, last: string): (r: Option<RosterPlayer>)
    ensures r.Some? <==> team != [] && first != [] && last != []
    ensures r.Some? ==> r.value == RosterPlayer(team, first, last, Slugify(team), Slugify(first + "_" + last))
  {
    if team == [] || first == [] || last == [] then None
    else Some(RosterPlayer(team, first, last, Slugify(team), Slugify(first + "_" + last)))
  }

  /** One row as `_iter_roster_players` and `_build_roster_maps` read it. */
  function ReadRow(row: Row): Option<RosterPlayer> {
    Qualify(TeamName(row), FirstName(row), LastName(row))
  }

  /** The rows as read, one entry per row. */
  function Reads(rows: seq<Row>): seq<Option<RosterPlayer>> {
    seq(|rows|, i requires 0 <= i < |rows| => ReadRow(rows[i]))
  }

  /** The records of the rows that qualify, in row order. */
  function Players(entries: seq<Option<RosterPlayer>>): (r: seq<RosterPlayer>)
    ensures |r| <= |entries|
    ensures forall p :: p in r <==> Some(p) in entries
    decreases |entries|
  {
    if entries == [] then []
    else
      var rest := Players(entries[1..]);
      assert entries == [entries[0]] + entries[1..];
      match entries[0]
      case Some(p) => [p] + rest
      case None => rest
  }

  /** The records keep the rows' order: those of two lists of rows are those of the first,
    * then those of the second. */
  lemma {:induction false} PlayersAppend(a: seq<Option<RosterPlayer>>, b: seq<Option<RosterPlayer>>)
    ensures Players(a + b) == Players(a) + Players(b)
    decreases |a|
  {
    if a == [] {
      assert a + b == b;
    } else {
      assert (a + b)[0] == a[0] && (a + b)[1..] == a[1..] + b;
      PlayersAppend(a[1..], b);
    }
  }

  /** `_iter_roster_players`: a record for each qualifying row, in row order. */
  function RosterPlayers(rows: seq<Row>): seq<RosterPlayer> {
    Players(Reads(rows))
  }

  /** `team_to_slug` after the first `n` rows: every qualifying row's team, mapped to
    * its slug. */
  function TeamSlugs(entries: seq<Option<RosterPlayer>>, n: nat): map<string, string>
    requires n <= |entries|
  {
    if n == 0 then map[]
    else
      var m := TeamSlugs(entries, n - 1);
      match entries[n - 1]
      case Some(p) => m[p.teamName := p.teamSlug]
      case None => m
  }

  /** `player_to_team` after the first `n` rows: each qualifying row's player slug mapped
    * to its team slug, a later row overwriting an earlier one. */
  function PlayerTeams(entries: seq<Option<RosterPlayer>>, n: nat): map<string, string>
    requires n <= |entries|
  {
    if n == 0 then map[]
    else
      var m := PlayerTeams(entries, n - 1);
      match entries[n - 1]
      case Some(p) => m[p.playerSlug := p.teamSlug]
      case None => m
  }

  /** Every record's team slug is `slug` of its team name. */
  predicate SlugsBy(entries: seq<Option<RosterPlayer>>, slug: string -> string) {
    forall i :: 0 <= i < |entries| && entries[i].Some? ==>
      entries[i].value.teamSlug == slug(entries[i].value.teamName)
  }

  /** The records read from the rows carry the slugs `_slugify` gives their names. */
  lemma ReadsSlugs(rows: seq<Row>)
    ensures SlugsBy(Reads(rows), Slugify)
    ensures forall i :: 0 <= i < |rows| && Reads(rows)[i].Some? ==>
      Reads(rows)[i].value.playerSlug == Slugify(Reads(rows)[i].value.first + "_" + Reads(rows)[i].value.last)
  {
  }

  /** `team_to_slug` holds exactly the teams of the qualifying rows read so far, each
    * mapped to its slug. */
  lemma {:induction false} TeamSlugsContents(entries: seq<Option<RosterPlayer>>, n: nat, slug: string -> string)
    requires n <= |entries|
    requires SlugsBy(entries, slug)
    ensures forall t :: t in TeamSlugs(entries, n) <==>
      exists i :: 0 <= i < n && entries[i].Some? && entries[i].value.teamName == t
    ensures forall t :: t in TeamSlugs(entries, n) ==> TeamSlugs(entries, n)[t] == slug(t)
  {
    if n > 0 {
      TeamSlugsContents(entries, n - 1, slug);
    }
  }

  /** `player_to_team` holds exactly the player slugs of the qualifying rows read so far. */
  lemma {:induction false} PlayerTeamsKeys(entries: seq<Option<RosterPlayer>>, n: nat)
    requires n <= |entries|
    ensures forall s :: s in PlayerTeams(entries, n) <==>
      exists i :: 0 <= i < n && entries[i].Some? && entries[i].value.playerSlug == s
  {
    if n > 0 {
      PlayerTeamsKeys(entries, n - 1);
    }
  }

  /** A player slug maps to the team slug of the last qualifying row with that slug. */
  lemma {:induction false} LastRowWins(entries: seq<Option<RosterPlayer>>, n: nat, i: nat)
    requires n <= |entries| && i < n && entries[i].Some?
    requires forall j :: i < j < n && entries[j].Some? ==>
      entries[j].value.playerSlug != entries[i].value.playerSlug
    ensures entries[i].value.playerSlug in PlayerTeams(entries, n)
    ensures PlayerTeams(entries, n)[entries[i].value.playerSlug] == entries[i].value.teamSlug
  {
    if i < n - 1 {
      LastRowWins(entries, n - 1, i);
    }
  }

  /** Every team a player maps to is the slug of a team in `team_to_slug`. */
  lemma {:induction false} PlayerTeamsInTeamSlugs(entries: seq<Option<RosterPlayer>>, n: nat, slug: string -> string)
    requires n <= |entries|
    requires SlugsBy(entries, slug)
    ensures forall s :: s in PlayerTeams(entries, n) ==> PlayerTeams(entries, n)[s] in TeamSlugs(entries, n).Values
  {
    if n > 0 {
      PlayerTeamsInTeamSlugs(entries, n - 1, slug);
      TeamSlugsContents(entries, n - 1, slug);
      var m := TeamSlugs(entries, n - 1);
      match entries[n - 1]
      case Some(p) =>
        forall s | s in PlayerTeams(entries, n) ensures PlayerTeams(entries, n)[s] in TeamSlugs(entries, n).Values {
          if s != p.playerSlug {
            var t :| t in m && m[t] == PlayerTeams(entries, n - 1)[s];
            if t == p.teamName {
              assert TeamSlugs(entries, n)[t] == p.teamSlug == m[t];
            } else {
              assert TeamSlugs(entries, n)[t] == m[t];
            }
          } else {
            assert TeamSlugs(entries, n)[p.teamName] == p.teamSlug;
          }
        }
      case None =>
    }
  }

  /** The loop of `_build_roster_maps` over the rows as read: both maps filled in one
    * pass. */
  method FillRosterMaps(entries: seq<Option<RosterPlayer>>)
    returns (playerToTeam: map<string, string>, teamToSlug: map<string, string>)
    ensures playerToTeam == PlayerTeams(entries, |entries|)
    ensures teamToSlug == TeamSlugs(entries, |entries|)
  {
    playerToTeam := map[];
    teamToSlug := map[];
    var i := 0;
    while i < |entries|
      invariant 0 <= i <= |entries|
      invariant playerToTeam == PlayerTeams(entries, i)
      invariant teamToSlug == TeamSlugs(entries, i)
    {
      var read := entries[i];
      if read.Some? {
        teamToSlug := teamToSlug[read.value.teamName := read.value.teamSlug];
        playerToTeam := playerToTeam[read.value.playerSlug := read.value.teamSlug];
      }
      i := i + 1;
    }
  }

  /** `_build_roster_maps`: the player-to-team and team-to-slug maps of the roster. */
  method BuildRosterMaps(rows: seq<Row>) returns (playerToTeam: map<string, string>, teamToSlug: map<string, string>)
    ensures playerToTeam == PlayerTeams(Reads(rows), |rows|)
    ensures teamToSlug == TeamSlugs(Reads(rows), |rows|)
  {
    playerToTeam, teamToSlug := FillRosterMaps(Reads(rows));
  }
}
