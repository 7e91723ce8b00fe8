/** The summary agent (`player_summary_agent.py`): for each sampled roster row, the
  * research report `{slug}.md` and, when the OpenRouter key is set and the Sonar model
  * answers, the extended report `{slug}_extended.md`. A row whose two files both exist
  * is skipped. The research call and the Sonar call are oracles; the files are a map from
  * path to contents. */
module Summary {

  import opened Wrappers
  import opened Text
  import opened Slugs
  import opened Documents
  import opened Roster

  /** The agent's row filter: a team, and a first or a last name, after stripping; there
    * are no fallback columns here. */
  predicate Keeps(row: Row) {
    Strip(Column(row, "team_name")) != []
    && (Strip(Column(row, "firstName")) != [] || Strip(Column(row, "lastName")) != [])
  }

  /** The rows the agent works on, in file order. */
  function SummaryRows(rows: seq<Row>): (r: seq<Row>)
    ensures |r| <= |rows|
    ensures forall row :: row in r <==> row in rows && Keeps(row)
  {
    Keep(rows, Keeps)
  }

  /** `f"{first} {last}".strip() or first or last`. */
  function PlayerName(first: string, last: string): string {
    Or(Or(Strip(first + " " + last), first), last)
  }

  /** Neither end of the text is whitespace, as after `strip`. */
  predicate Trimmed(s: string) {
    s == [] || (!IsSpace(s[0]) && !IsSpace(s[|s| - 1]))
  }

  /** On stripped names the player name is both names joined by one space, or the one
    * that is not empty. */
  lemma PlayerNameOfStripped(first: string, last: string)
    requires Trimmed(first) && Trimmed(last)
    ensures first != [] && last != [] ==> PlayerName(first, last) == first + " " + last
    ensures first == [] ==> PlayerName(first, last) == last
    ensures last == [] ==> PlayerName(first, last) == first
  {
    if first != [] && last != [] {
      BothNames(first, last);
    } else if first != [] {
      OnlyFirst(first);
    } else if last != [] {
      OnlyLast(last);
    } else {
      NoNames();
    }
  }

  /** With both names, the player name is the join. */
  lemma BothNames(first: string, last: string)
    requires first != [] && !IsSpace(first[0])
    requires last != [] && !IsSpace(last[|last| - 1])
    ensures PlayerName(first, last) == first + " " + last
  {
    var joined := first + " " + last;
    assert joined[0] == first[0] && joined[|joined| - 1] == last[|last| - 1];
    StripNoop(joined);
  }

  /** With no first name, the player name is the last name. */
  lemma OnlyLast(last: string)
    requires last != [] && Trimmed(last)
    ensures PlayerName("", last) == last
  {
    var joined := "" + " " + last;
    assert Strip(joined) == last by {
      assert joined[1..] == last;
      assert TrimStart(joined, IsSpace) == TrimStart(last, IsSpace);
      assert TrimStart(last, IsSpace) == last;
      assert TrimEnd(last, IsSpace) == last;
    }
  }

  /** With no last name, the player name is the first name. */
  lemma OnlyFirst(first: string)
    requires first != [] && Trimmed(first)
    ensures PlayerName(first, "") == first
  {
    var joined := first + " " + "";
    assert Strip(joined) == first by {
      assert joined[..|joined| - 1] == first;
      assert TrimStart(joined, IsSpace) == joined;
      assert TrimEnd(joined, IsSpace) == TrimEnd(first, IsSpace);
      assert TrimEnd(first, IsSpace) == first;
    }
  }

  /** With neither name, the player name is empty. */
  lemma NoNames()
    ensures PlayerName("", "") == ""
  {
    assert Strip("" + " " + "") == [] by {
      assert TrimStart(" ", IsSpace) == [];
    }
  }

  /** The team and the player name of a row. */
  function RowNames(row: Row): (string, string) {
    var first := Strip(Column(row, "firstName"));
    var last := Strip(Column(row, "lastName"));
    (Strip(Column(row, "team_name")), PlayerName(first, last))
  }

  /** The file slug: `slugify_name(f"{team} {player}")`. */
  function FileSlug(team: string, player: string): (r: string)
    ensures IsNameSlug(r)
  {
    SlugifyName(team + " " + player)
  }

  function BaseFile(outDir: seq<string>, slug: string): Path {
    Path(outDir, slug + ".md")
  }

  function ExtendedFile(outDir: seq<string>, slug: string): Path {
    Path(outDir, slug + Extended + ".md")
  }

  /** The two reports the agent writes are companions in the scorer's sense: each names
    * the other, unless the slug itself ends with `_extended`. */
  lemma ReportsAreCompanions(outDir: seq<string>, slug: string)
    requires slug != [] && !EndsWith(slug, Extended)
    ensures CompanionName(BaseFile(outDir, slug).name) == ExtendedFile(outDir, slug).name
    ensures CompanionName(ExtendedFile(outDir, slug).name) == BaseFile(outDir, slug).name
  {
    assert slug + ".md" == slug + "." + "md";
    assert slug + Extended + ".md" == slug + Extended + "." + "md";
    CompanionOfBase(slug, "md");
    CompanionOfExtended(slug, "md");
  }

  /** The research request for one player. */
  function UserMessage(player: string, team: string): string {
    "Research and produce the full markdown summary for player: " + player + " (" + team + ")."
  }

  /** The prompt used when no enhancer template could be loaded (or it is empty), as the
    * agent has it, typing slip included. */
  const FallbackPrompt :=
    "You area deep research analyst for a professional hockey team. Below is the stub of research about a hockey player. Search the web for all available information about this player and fill in any missing data values."
    + "Extend this research to be as exhaustive as possible. Return the completed research of everything from the stub as well as any new research in markdown format. add any new sources to the Sources section \n\n"

  const StubPlaceholder := "{stub}"
  const UpperPlaceholder := "{{STUB}}"

  /** The Sonar prompt: the template with every `{stub}` replaced, else with every
    * `{{STUB}}` replaced, else the template, a blank line and the stub; without a
    * template, the fallback prompt followed by the stub. */
  function EnhancerPrompt(fallback: string, template: Option<string>, stub: string): string {
    match template
    case None => fallback + stub
    case Some(t) =>
      if t == [] then fallback + stub
      else if Contains(t, StubPlaceholder) then ReplaceAll(t, StubPlaceholder, stub)
      else if Contains(t, UpperPlaceholder) then ReplaceAll(t, UpperPlaceholder, stub)
      else t + "\n\n" + stub
  }

  /** The four cases of the prompt, each placeholder substitution stated as splitting
    * the template at the placeholder and joining the pieces with the stub. */
  lemma EnhancerPromptCases(fallback: string, template: Option<string>, stub: string)
    ensures var r := EnhancerPrompt(fallback, template, stub);
      && ((template.None? || template.value == []) ==> r == fallback + stub)
      && (template.Some? && Contains(template.value, StubPlaceholder) ==>
            r == Join(Split(template.value, StubPlaceholder), stub))
      && (template.Some? && !Contains(template.value, StubPlaceholder) && Contains(template.value, UpperPlaceholder) ==>
            r == Join(Split(template.value, UpperPlaceholder), stub))
      && ((template.Some? && template.value != [] && !Contains(template.value, StubPlaceholder)
            && !Contains(template.value, UpperPlaceholder)) ==> r == template.value + "\n\n" + stub)
  {
    if template.Some? && template.value != [] {
      if Contains(template.value, StubPlaceholder) {
        ReplaceIsSplitJoin(template.value, StubPlaceholder, stub);
      } else if Contains(template.value, UpperPlaceholder) {
        ReplaceIsSplitJoin(template.value, UpperPlaceholder, stub);
      }
    }
  }

  /** Filling a template with its own placeholder gives the template back: the prompt
    * keeps every part of the template between placeholders. */
  lemma PlaceholderRoundTrip(fallback: string, t: string)
    requires Contains(t, StubPlaceholder)
    ensures EnhancerPrompt(fallback, Some(t), StubPlaceholder) == t
  {
    EnhancerPromptCases(fallback, Some(t), StubPlaceholder);
    SplitJoin(t, StubPlaceholder);
  }

  /** What the Sonar model gives: the stripped content of the first attempt that answers,
    * with at most two attempts; nothing when both fail. */
  function SonarContent(prompt: string, sonar: (string, nat) -> Option<string>): string {
    match sonar(prompt, 1)
    case Some(c) => Strip(c)
    case None =>
      match sonar(prompt, 2)
      case Some(c) => Strip(c)
      case None => []
  }

  /** The content is stripped, comes from the first attempt that answers, and is empty
    * when neither answers. */
  lemma SonarContentCases(prompt: string, sonar: (string, nat) -> Option<string>)
    ensures var r := SonarContent(prompt, sonar);
      && (r == [] || (!IsSpace(r[0]) && !IsSpace(r[|r| - 1])))
      && (sonar(prompt, 1).Some? ==> r == Strip(sonar(prompt, 1).value))
      && (sonar(prompt, 1).None? && sonar(prompt, 2).Some? ==> r == Strip(sonar(prompt, 2).value))
      && (sonar(prompt, 1).None? && sonar(prompt, 2).None? ==> r == [])
  {
  }

  const MaxAttempts := 2

  /** The retry loop: attempts 1 and 2, stopping at the first that answers. */
  method RequestSonar(prompt: string, sonar: (string, nat) -> Option<string>) returns (content: string, attempts: nat)
    ensures content == SonarContent(prompt, sonar)
    ensures 1 <= attempts <= MaxAttempts
    ensures attempts == 1 <==> sonar(prompt, 1).Some?
  {
    content := [];
    attempts := 0;
    var attempt := 1;
    while attempt <= MaxAttempts
      invariant 1 <= attempt <= MaxAttempts + 1
      invariant attempts == attempt - 1 && content == []
      invariant forall k :: 1 <= k < attempt ==> sonar(prompt, k).None?
      decreases MaxAttempts + 1 - attempt
    {
      attempts := attempt;
      var answer := sonar(prompt, attempt);
      if answer.Some? {
        content := Strip(answer.value);
        return;
      }
      attempt := attempt + 1;
    }
  }

  /** What stays fixed over a run: the output directory, the enhancer template, the
    * prompt used without one, the OpenRouter key, and the two model oracles (an
    * exception is `None`). The agent's own fallback is `FallbackPrompt`. */
  datatype Config = Config(outDir: seq<string>, template: Option<string>, fallback: string,
                           openRouterKey: string, research: string -> Option<string>,
                           sonar: (string, nat) -> Option<string>)

  /** A row as the loop uses it: the team, the player name, the file slug and the
    * research request. */
  datatype Target = Target(team: string, player: string, slug: string, request: string)

  function TargetOf(row: Row): (t: Target)
    ensures IsNameSlug(t.slug)
  {
    var (team, player) := RowNames(row);
    Target(team, player, FileSlug(team, player), UserMessage(player, team))
  }

  function Targets(rows: seq<Row>): seq<Target> {
    seq(|rows|, i requires 0 <= i < |rows| => TargetOf(rows[i]))
  }

  /** One row: skipped when both reports exist; otherwise the research report is written
    * (nothing is written when the research call fails), and the extended report too when
    * the key is set and the Sonar content is not empty. */
  function Step(c: Config, files: map<Path, string>, t: Target): map<Path, string> {
    var base := BaseFile(c.outDir, t.slug);
    var extended := ExtendedFile(c.outDir, t.slug);
    if base in files && extended in files then files
    else
      match c.research(t.request)
      case None => files
      case Some(report) =>
        var written := files[base := report];
        if c.openRouterKey == [] then written
        else
          var content := Extension(c, report);
          if content != [] then written[extended := content] else written
  }

  /** The extended report's content for a research report. */
  function Extension(c: Config, report: string): string {
    SonarContent(EnhancerPrompt(c.fallback, c.template, report), c.sonar)
  }

  /** A step writes at most the row's two reports, leaves every other file alone, skips
    * a row whose reports both exist, and writes the extended report only with the key
    * and with non-empty content. */
  lemma StepShape(c: Config, files: map<Path, string>, t: Target)
    ensures var r := Step(c, files, t);
      var base := BaseFile(c.outDir, t.slug);
      var extended := ExtendedFile(c.outDir, t.slug);
      && (base in files && extended in files ==> r == files)
      && files.Keys <= r.Keys <= files.Keys + {base, extended}
      && (forall p :: p in files && p != base && p != extended ==> r[p] == files[p])
      && (extended in r && (extended !in files || r[extended] != files[extended]) ==>
            c.openRouterKey != [] && r[extended] != [])
  {
    var base := BaseFile(c.outDir, t.slug);
    var extended := ExtendedFile(c.outDir, t.slug);
    assert base != extended by {
      assert |base.name| != |extended.name|;
    }
  }

  /** A row that is not skipped gets the research report as its base report when the
    * research call answers (and no write at all when it fails), and gets the Sonar
    * content as its extended report exactly when the key is set and that content is not
    * empty; otherwise the extended report stays as it was. */
  lemma StepWrites(c: Config, files: map<Path, string>, t: Target)
    requires !(BaseFile(c.outDir, t.slug) in files && ExtendedFile(c.outDir, t.slug) in files)
    ensures var r := Step(c, files, t);
      var base := BaseFile(c.outDir, t.slug);
      var extended := ExtendedFile(c.outDir, t.slug);
      var research := c.research(t.request);
      && (research.None? ==> r == files)
      && (research.Some? ==> base in r && r[base] == research.value)
      && (research.Some? && c.openRouterKey != [] && Extension(c, research.value) != [] ==>
            extended in r && r[extended] == Extension(c, research.value))
      && (research.Some? && (c.openRouterKey == [] || Extension(c, research.value) == []) ==>
            (extended in r <==> extended in files)
            && (extended in files ==> r[extended] == files[extended]))
  {
    var base := BaseFile(c.outDir, t.slug);
    var extended := ExtendedFile(c.outDir, t.slug);
    assert base != extended by {
      assert |base.name| != |extended.name|;
    }
  }

  /** Without the key, a step changes no file other than the row's research report. */
  lemma StepWithoutKey(c: Config, files: map<Path, string>, t: Target, p: Path)
    requires c.openRouterKey == [] && p in files && p != BaseFile(c.outDir, t.slug)
    ensures p in Step(c, files, t) && Step(c, files, t)[p] == files[p]
  {
  }

  /** The run over the first `n` rows. */
  function Drive(c: Config, targets: seq<Target>, n: nat, files: map<Path, string>): map<Path, string>
    requires n <= |targets|
  {
    if n == 0 then files else Step(c, Drive(c, targets, n - 1, files), targets[n - 1])
  }

  lemma DriveNext(c: Config, targets: seq<Target>, n: nat, files: map<Path, string>)
    requires n < |targets|
    ensures Drive(c, targets, n + 1, files) == Step(c, Drive(c, targets, n, files), targets[n])
  {
  }

  /** A rerun with both reports of every row present writes nothing. */
  lemma {:induction false} RerunWritesNothing(c: Config, targets: seq<Target>, n: nat, files: map<Path, string>)
    requires n <= |targets|
    requires forall i :: 0 <= i < n ==>
      BaseFile(c.outDir, targets[i].slug) in files && ExtendedFile(c.outDir, targets[i].slug) in files
    ensures Drive(c, targets, n, files) == files
  {
    if n > 0 {
      RerunWritesNothing(c, targets, n - 1, files);
    }
  }

  /** Without the OpenRouter key, a file that is no row's research report keeps its
    * contents: no extended report is written or changed. */
  lemma {:induction false} NoKeyNoExtended(c: Config, targets: seq<Target>, n: nat, files: map<Path, string>, p: Path)
    requires n <= |targets| && c.openRouterKey == []
    requires p in files
    requires forall i :: 0 <= i < n ==> p != BaseFile(c.outDir, targets[i].slug)
    ensures p in Drive(c, targets, n, files) && Drive(c, targets, n, files)[p] == files[p]
  {
    if n > 0 {
      NoKeyNoExtended(c, targets, n - 1, files, p);
      StepWithoutKey(c, Drive(c, targets, n - 1, files), targets[n - 1], p);
    }
  }

  /** One row of the loop: the skip test, the research call, and the Sonar retry loop
    * when the key is set. */
  method SummarizeRow(c: Config, files: map<Path, string>, t: Target) returns (written: map<Path, string>)
    ensures written == Step(c, files, t)
  {
    written := files;
    var base := BaseFile(c.outDir, t.slug);
    var extended := ExtendedFile(c.outDir, t.slug);
    if base in files && extended in files {
      return;
    }
    var research := c.research(t.request);
    if research.None? {
      return;
    }
    written := written[base := research.value];
    if c.openRouterKey != [] {
      var content, attempts := RequestSonar(EnhancerPrompt(c.fallback, c.template, research.value), c.sonar);
      if content != [] {
        written := written[extended := content];
      }
    }
  }

  /** The loop over the rows: one step per row. */
  method GenerateSummaries(c: Config, targets: seq<Target>, files: map<Path, string>) returns (written: map<Path, string>)
    ensures written == Drive(c, targets, |targets|, files)
  {
    written := files;
    var i := 0;
    while i < |targets|
      invariant 0 <= i <= |targets|
      invariant written == Drive(c, targets, i, files)
    {
      written := SummarizeRow(c, written, targets[i]);
      DriveNext(c, targets, i, files);
      i := i + 1;
    }
  }

  /** The agent over the roster: the filtered rows (here all of them; the random sample
    * of large rosters is not modelled), each read into its names and slug, then the loop. */
  method RunAgent(outDir: seq<string>, template: Option<string>, openRouterKey: string,
                  research: string -> Option<string>, sonar: (string, nat) -> Option<string>,
                  roster: seq<Row>, files: map<Path, string>) returns (written: map<Path, string>)
    ensures var c := Config(outDir, template, FallbackPrompt, openRouterKey, research, sonar);
      written == Drive(c, Targets(SummaryRows(roster)), |SummaryRows(roster)|, files)
  {
    var c := Config(outDir, template, FallbackPrompt, openRouterKey, research, sonar);
    written := GenerateSummaries(c, Targets(SummaryRows(roster)), files);
  }
}
