# Hockey scouting pipeline: a Dafny model of its deterministic core

The pipeline has two sides, and this project models the deterministic logic of both.

**Report generation.** `player_summary_agent.py` walks a roster sample. For each player it writes a research report `{slug}.md`. When an OpenRouter key is set and the Sonar model answers, it also writes an extended report `{slug}_extended.md`.

**Scoring.** `score_runner.py` runs several rating models over one report, merged with its companion. It validates and stamps each rating and writes one aggregate. `batch_score.py` and the scorer's own roster mode drive it over the whole roster. Each run skips a player whose report is missing or whose ratings file already exists, and keeps success and failure counters.

Anything that talks to the outside world becomes a parameter:

- **Model calls.** `reply`, `research` and `sonar` are oracles. An exception is `Raised` or `None`.
- **JSON and field reading.** `json.loads` is the partial function `parse`. Reading the rating fields out of a parsed value is `fields`.
- **Environment.** The environment is a `map<string, string>`.
- **Files.** Files are a map from `Path` to contents: present means the file exists, and `None` means it cannot be read. Path resolution is `resolve`.
- **Scorer subprocess.** Its exit status is the oracle `exit`.
- **Clock.** The clock is the value `now`.

Modules follow the program:

| Module | What it models |
|---|---|
| `Wrappers` | Option and Result |
| `Text` | `strip` on Python's whitespace, ASCII `lower`, `find`, `replace` and split/join |
| `Rating` | the `ScoreOutput` schema and the client-side stamp |
| `Normalizer` | `<think>` removal and `_extract_json_object` |
| `Documents` | report names, the `_extended` companion and the merge |
| `Slugs` | `_slugify` and `slugify_name` |
| `Handshake` | where the two slug functions agree and where they do not |
| `Roster` | roster rows, `_iter_roster_players` and `_build_roster_maps` |
| `Lookup` | the stem index, sorted keys and three-tier report lookup |
| `Scoring` | model names, the chain list, adapters, `score_all` and the aggregate |
| `Batch` | `batch_score.main`: the scorer command and the resumable loop |
| `RosterMode` | the roster mode of `score_runner.main` |
| `Summary` | the summary agent's row filter, file names, prompt, Sonar retry and row loop |

The loops of the source are methods with loop invariants. Each loop method is proved equal to a recursive specification function (`Drive`, one `Step` per row). The properties the source promises are lemmas about those functions.

## Model

| member | source | states |
|---|---|---|
| Text.Strip | player_scorers/batch_score.py:11 | `strip()` leaves no whitespace at either end and never lengthens the text |
| Text.StripNoop | player_scorers/batch_score.py:11 | text already free of whitespace at both ends is returned unchanged by `strip()` |
| Text.TrimStart | player_summary_agent/player_summary_agent.py:67 | the leading run of dropped characters is removed, and the result is a suffix of the input that starts with a kept character |
| Text.TrimEnd | player_summary_agent/player_summary_agent.py:67 | the trailing run of dropped characters is removed, and the result is a prefix of the input that ends with a kept character |
| Text.LowerIdempotent | player_scorers/batch_score.py:11 | lower-casing twice is lower-casing once |
| Text.LowerNoop | player_scorers/batch_score.py:11 | text with no upper-case letter is its own lower case |
| Text.ReplaceCharRemoves | player_scorers/batch_score.py:11 | after `replace(a, b)` with `a` other than `b` no `a` is left, and a text without `a` is unchanged |
| Text.Find | player_scorers/score_runner.py:182 | `find` gives the first index holding the character, and none exactly when the character is absent |
| Text.SplitJoin | player_summary_agent/player_summary_agent.py:192 | splitting at a pattern and joining with the same pattern gives the text back |
| Text.ReplaceIsSplitJoin | player_summary_agent/player_summary_agent.py:192-194 | `replace` of every occurrence equals splitting at the pattern and joining with the replacement |
| Text.SplitPiecesFree | player_summary_agent/player_summary_agent.py:192-194 | no piece of a split contains the pattern, so every occurrence is replaced |
| Text.ReplaceAbsent | player_summary_agent/player_summary_agent.py:192-194 | replacing a pattern that does not occur changes nothing |
| Rating.Validate | player_scorers/score_runner.py:44-61 | a candidate is accepted iff every required field is present, both ratings are in 1..9, both confidences are in 0..100 and there are exactly three reasons; an accepted record carries the candidate's own values, and `version` defaults to "1.0" |
| Rating.OneViolationRejects | player_scorers/score_runner.py:46-61 | a single out-of-range value or a wrong bullet count rejects the record; values are never clamped |
| Rating.Stamp | player_scorers/score_runner.py:152-155 | the stamped record names the configured model and the current time, stays valid, and differs from the input in no other field |
| Rating.StampIgnoresClaims | player_scorers/score_runner.py:152-155 | whatever name and time the model claimed, acceptance and the stamped record are the same |
| Normalizer.FindTag | player_scorers/score_runner.py:163-164 | gives the first position at or after `k` where the tag occurs in any letter case, and none when there is no such position |
| Normalizer.StripThinkBlocks | player_scorers/score_runner.py:161-165 | removing think regions never lengthens the reply |
| Normalizer.ThinkFreeUnchanged | player_scorers/score_runner.py:161-165 | a reply with no `<think>` or `</think>` tag in any letter case is returned unchanged |
| Normalizer.ClosedBlockRemoved | player_scorers/score_runner.py:163 | a closed `<think>…</think>` block (any case) is removed with its contents, and the text before and after it is joined |
| Normalizer.RemoveClosedBlocksNoop | player_scorers/score_runner.py:163 | without an opening tag, the block removal changes nothing |
| Normalizer.RemoveTagsNoop | player_scorers/score_runner.py:164 | without lone tags, the tag removal changes nothing |
| Normalizer.SkipSpace | player_scorers/score_runner.py:175 | `\s*` skips exactly the whitespace run that starts at `k` |
| Normalizer.FenceEnd | player_scorers/score_runner.py:175 | gives the first position from `k` where whitespace and a closing fence follow, and none when there is no such position |
| Normalizer.FencedBlock | player_scorers/score_runner.py:175-178 | a fenced candidate is a span of the reply that starts with `{` and ends with `}` |
| Normalizer.DepthZeroFrom | player_scorers/score_runner.py:184-191 | gives the first index from `k` at which the running brace depth from `start` returns to 0, and none when it never does |
| Normalizer.BalancedSpan | player_scorers/score_runner.py:182-192 | a balanced candidate is a non-empty span of the reply |
| Normalizer.BalancedSpanShape | player_scorers/score_runner.py:182-192 | the balanced span starts at the first `{`, holds as many `{` as `}`, and every proper prefix has positive depth |
| Normalizer.DepthPositive | player_scorers/score_runner.py:184-191 | before the depth first returns to 0, every prefix of the span that starts with `{` has positive depth |
| Normalizer.BalancedSpanOfWrapped | player_scorers/score_runner.py:182-192 | an object of balanced depth placed after brace-free text is exactly the span found |
| Normalizer.QuotedBraceCloses | player_scorers/score_runner.py:185-191 | the scan ignores JSON strings, so a `}` inside a string value closes the span early |
| Normalizer.Candidates | player_scorers/score_runner.py:168-192 | at most three candidates, the whole text first |
| Normalizer.SpanText | player_scorers/score_runner.py:178-192 | a candidate text exists exactly when its span was found |
| Normalizer.FirstParsed | player_scorers/score_runner.py:168-197 | success iff some candidate parses; the value is that of the first candidate that parses; otherwise the error "Could not extract JSON object from model output" |
| Normalizer.Extract | player_scorers/score_runner.py:197 | the only failure is the "Could not extract JSON object" error |
| Normalizer.Cascade | player_scorers/score_runner.py:170-197 | the only failure of the three-step cascade is the "Could not extract JSON object" error |
| Normalizer.ExtractIsFirstParsed | player_scorers/score_runner.py:168-197 | extraction returns the first of whole text, fenced block and balanced span that parses |
| Normalizer.FirstParsedOfThree | player_scorers/score_runner.py:170-196 | the three strategies tried in order are a first-parse over the candidate list |
| Normalizer.LaterSpanIgnored | player_scorers/score_runner.py:192-197 | when the first balanced span fails to parse, a later span that would parse is not tried and extraction fails |
| Normalizer.ScanBalanced | player_scorers/score_runner.py:184-191 | the depth-counting loop stops exactly where the depth first returns to 0 |
| Normalizer.ExtractJsonObject | player_scorers/score_runner.py:168-197 | the imperative extraction computes the specified three-step cascade |
| Documents.LastDot | player_scorers/score_runner.py:217 | gives the position of the last `.`, and none when there is no dot |
| Documents.Suffix | player_scorers/score_runner.py:217 | the suffix is empty or a final `.ext` with a non-empty extension that is not the whole name |
| Documents.Stem | player_scorers/score_runner.py:216 | the stem followed by the suffix is the name |
| Documents.SuffixOf | player_scorers/score_runner.py:216-217 | `x.ext` has suffix `.ext` and stem `x` |
| Documents.CompanionOfBase | player_scorers/score_runner.py:222-223 | `CompanionName` of `x.md` is `x_extended.md` |
| Documents.CompanionOfExtended | player_scorers/score_runner.py:218-221 | `x_extended.md` names its companion `x.md` |
| Documents.CompanionInvolution | player_scorers/score_runner.py:216-223 | for regular names, the companion of the companion is the name itself |
| Documents.DoubleExtendedNotInvolution | player_scorers/score_runner.py:218-221 | `x_extended_extended.md` is not its companion's companion: only one `_extended` is removed |
| Documents.TrailingDotNotInvolution | player_scorers/score_runner.py:216-223 | a name ending in `.` has no suffix, so `_extended` is appended after the dot |
| Documents.ParentDir | player_scorers/score_runner.py:234 | one level up drops the last directory: `dir.parent` of a directory, `parent.parent` of a report in it |
| Documents.FindCompanion | player_scorers/score_runner.py:225-244 | a companion is found iff the sibling or the `player_summaries` candidate exists and resolves to a file other than the primary; the sibling is preferred; a found companion has the companion name |
| Documents.LoadMergedMarkdown | player_scorers/score_runner.py:210-256 | the merged text is the primary's text (empty when unreadable), then the separator and the companion's text when the companion is readable: the sibling when it qualifies, else the `player_summaries` candidate when it qualifies; with no qualifying candidate, the primary's text alone |
| Documents.MergedShape | player_scorers/score_runner.py:246-256 | the merged text is the primary's text, or that text, the `---` separator and the contents of a readable, distinct companion |
| Documents.MergeExample | player_scorers/score_runner.py:246-252 | with both reports readable side by side, the merge is primary, separator, companion |
| Documents.MergeBeside | player_scorers/score_runner.py:225-252 | with a readable primary and a readable sibling companion that resolves elsewhere, the merge is primary, separator, companion |
| Documents.UnreadablePrimaryIsEmpty | player_scorers/score_runner.py:210-214 | an unreadable primary reads as empty text instead of aborting |
| Scoring.RunChain | player_scorers/score_runner.py:142-158 | a raised call is that chain's error; on a reply, the chain succeeds iff its adapter reads a value whose fields pass validation, the rating is that validated record stamped with the chain's name and the current time, and a read failure is that failure |
| Scoring.RunChainIgnoresClaims | player_scorers/score_runner.py:263-291 | for every adapter, the name and time the model claims do not affect the outcome |
| Scoring.CanonicalDeepSeekIdempotent | player_scorers/score_runner.py:316-317 | canonicalising the DeepSeek name twice equals doing it once |
| Scoring.ResolvedNames | player_scorers/score_runner.py:314-319 | `ResolveModels`: DeepSeek and OSS names are never empty; a command-line name wins; an unset `LLAMA_MODEL` gives `llama-4-scout` while a set but empty one gives an empty name |
| Scoring.JetstreamChainsShape | player_scorers/score_runner.py:332-339 | each Jetstream chain is present iff it is not skipped, DeepSeek first and OSS last, and only DeepSeek strips think blocks |
| Scoring.OpenRouterChainsShape | player_scorers/score_runner.py:342-381 | without a key there are no OpenRouter chains; with one, Gemini and Opus appear when named, Maverick is always last with its default; all of them are plain-JSON chains with non-empty names |
| Scoring.ChainListShape | player_scorers/score_runner.py:328-381 | `ChainList` is the two GPT chains, then the Jetstream chains, then the OpenRouter chains, 2 to 8 in all |
| Scoring.StripThinkOnlyDeepSeek | player_scorers/score_runner.py:332-334 | the think-stripping adapter is used by the DeepSeek chain only, and is present iff DeepSeek is not skipped |
| Scoring.Successes | player_scorers/score_runner.py:389-398 | never more ratings than outcomes |
| Scoring.SuccessesSound | player_scorers/score_runner.py:391-398 | every rating kept is a successful outcome |
| Scoring.Failures | player_scorers/score_runner.py:389-395 | never more errors than outcomes |
| Scoring.FailuresSound | player_scorers/score_runner.py:391-395 | every error pairs a failed outcome's message with the name of the chain at the same position |
| Scoring.PartitionCounts | player_scorers/score_runner.py:389-398 | the ratings and the errors together account for every chain |
| Scoring.FailuresEmpty | player_scorers/score_runner.py:410-411 | the errors list is empty iff every chain succeeded |
| Scoring.SuccessesAppend | player_scorers/score_runner.py:391-398 | one more outcome adds its rating at the end iff it succeeded, so ratings stay in chain order |
| Scoring.FailuresAppend | player_scorers/score_runner.py:391-396 | one more outcome adds its error at the end iff it failed, so errors stay in chain order |
| Scoring.Partition | player_scorers/score_runner.py:389-398 | the loop over the gathered outcomes builds exactly the ratings and the errors |
| Scoring.CollapseSeparators | player_scorers/score_runner.py:402 | no `_` or `-` remains, the text never grows, and it is empty only when the input is |
| Scoring.CollapseKeeps | player_scorers/score_runner.py:402 | text without `_` or `-` is kept as it is |
| Scoring.CollapseAppend | player_scorers/score_runner.py:402 | a prefix without separators is kept, in front of the collapsed rest |
| Scoring.CollapseRun | player_scorers/score_runner.py:402 | a whole run of `_` and `-` becomes exactly one space |
| Scoring.TitleFrom | player_scorers/score_runner.py:402 | `title()` keeps length and non-letters; each letter is upper-cased when the character before it (a space at the start) is not a letter and lower-cased when it is |
| Scoring.TitleAppend | player_scorers/score_runner.py:402 | title-casing a concatenation title-cases the second part after the first part's last character |
| Scoring.TitleWord | player_scorers/score_runner.py:402 | a lower-case word after a non-letter comes out with its first letter upper-cased and the rest unchanged |
| Scoring.Title | player_scorers/score_runner.py:402 | `title()` keeps the length |
| Scoring.TitleCapitalisesWords | player_scorers/score_runner.py:402 | a letter of the title is upper case iff the character before it is not a letter |
| Scoring.DisplayName | player_scorers/score_runner.py:400-402 | the display name is never empty, holds no separator, is no longer than a non-empty stem, and is `unknown` for an empty stem |
| Scoring.CollapseTwoWords | player_scorers/score_runner.py:402 | two words joined by a run of separators come out joined by one space |
| Scoring.TitleTwoWords | player_scorers/score_runner.py:402 | two lower-case words with a space between them are each capitalised |
| Scoring.DisplayNameTwoWords | player_scorers/score_runner.py:400-402 | a stem of two lower-case words joined by any run of `_` and `-` gives both words capitalised with one space between |
| Scoring.DisplayNameExample | player_scorers/score_runner.py:400-402 | `sidney_crosby` gives `Sidney Crosby` |
| Scoring.ScoreAll | player_scorers/score_runner.py:296-411 | fails iff the OpenAI or Jetstream key is missing; otherwise the aggregate holds the ratings of the successful chains and the errors of the failed ones in chain order (errors absent iff none failed), the display name, schema version "1.0" and the time |
| Scoring.GatherKeepsGoing | player_scorers/score_runner.py:387-398 | a failing chain in the middle is recorded as an error, and the chains after it still contribute their ratings |
| Slugs.Slugify | player_scorers/batch_score.py:9-12 | `_slugify` maps each character of the stripped text through one slug character, keeping its length |
| Slugs.SlugChar | player_scorers/batch_score.py:11 | a slug character is never a space, a hyphen or upper case |
| Slugs.SlugifyChars | player_scorers/batch_score.py:9-12 | a slug holds no space, no hyphen and no upper-case letter, and is no longer than its input |
| Slugs.SlugifyEdges | player_scorers/batch_score.py:9-12 | a slug has no whitespace at either end |
| Slugs.SlugifyIsSlug | player_scorers/batch_score.py:9-12 | `_slugify` produces a fixed-point form |
| Slugs.SlugifyFixed | player_scorers/batch_score.py:9-12 | a text in slug form is its own slug |
| Slugs.SlugifyIdempotent | player_scorers/batch_score.py:9-12 | `_slugify` is idempotent |
| Slugs.AsciiOnly | player_summary_agent/player_summary_agent.py:64 | only ASCII characters remain, and the text never grows |
| Slugs.AsciiOnlyNoop | player_summary_agent/player_summary_agent.py:64 | ASCII text is unchanged |
| Slugs.SubstituteRuns | player_summary_agent/player_summary_agent.py:66 | only `[a-z0-9_]` remains, with no `__`; the result is empty iff the input is; it starts with `_` iff the input starts with a non-slug character |
| Slugs.SubstituteRunsNoop | player_summary_agent/player_summary_agent.py:66 | text made of slug characters and single underscores is unchanged |
| Slugs.CollapseUnderscores | player_summary_agent/player_summary_agent.py:67 | no `__` remains, and the text never grows |
| Slugs.CollapseNoop | player_summary_agent/player_summary_agent.py:67 | text without `__` is unchanged |
| Slugs.StripUnderscores | player_summary_agent/player_summary_agent.py:67 | `strip("_")` leaves no `_` at either end |
| Slugs.StripUnderscoresSlug | player_summary_agent/player_summary_agent.py:67-68 | stripping the end underscores of a substituted text gives a name slug or nothing |
| Slugs.SliceKeepsSlugChars | player_summary_agent/player_summary_agent.py:67 | any slice of such a text keeps slug characters only and no `__` |
| Slugs.FallbackIsNameSlug | player_summary_agent/player_summary_agent.py:68 | the fallback `player` is a name slug |
| Slugs.SlugifyName | player_summary_agent/player_summary_agent.py:63-68 | `slugify_name` is never empty, holds only `[a-z0-9_]`, and has no `__` and no `_` at either end |
| Slugs.NameSlugFixed | player_summary_agent/player_summary_agent.py:63-68 | every name slug is its own `slugify_name` |
| Slugs.SlugifyNameIdempotent | player_summary_agent/player_summary_agent.py:63-68 | `slugify_name` is idempotent |
| Handshake.SlugifyByChar | player_scorers/batch_score.py:9-12 | on text with no whitespace at either end, `_slugify` is the character map |
| Handshake.SubstituteSingles | player_summary_agent/player_summary_agent.py:66 | when no two neighbours are both outside `[a-z0-9]`, the run substitution is a one-for-one replacement |
| Handshake.SlugifyNameByChar | player_summary_agent/player_summary_agent.py:63-68 | on plain names, `slugify_name` is the same character map as `_slugify` |
| Handshake.AgentSlugPlain | player_summary_agent/player_summary_agent.py:140 | the agent's file slug of plain names is the three mapped names joined by `_` |
| Handshake.ScorerPlayerSlugPlain | player_scorers/batch_score.py:50 | the scorer's player slug of plain names is the two mapped names joined by `_` |
| Handshake.ScorerTeamSlugPlain | player_scorers/batch_score.py:49 | the scorer's team slug of a plain name is the mapped name |
| Handshake.HandshakeOnPlainNames | player_summary_agent/player_summary_agent.py:140 | for names of ASCII letters, digits and single inner spaces or hyphens, the agent's file stem equals the scorer's `{team_slug}_{player_slug}` |
| Handshake.SlugifyKeeps | player_scorers/batch_score.py:9-12 | `_slugify` keeps any non-space, non-hyphen, lower-case character of its input |
| Handshake.ForeignCharBreaksHandshake | player_summary_agent/player_summary_agent.py:66 | a first name holding any other kept character gives file names that do not match |
| Handshake.ApostropheBreaksHandshake | player_summary_agent/player_summary_agent.py:66 | a first name with an apostrophe gives file names that do not match |
| Handshake.PeriodBreaksHandshake | player_summary_agent/player_summary_agent.py:66 | a first name with a period gives file names that do not match |
| Roster.Field | player_scorers/batch_score.py:44-46 | a field is the stripped primary column when that column is non-empty, otherwise the stripped fallback column |
| Roster.BlankPrimaryHidesFallback | player_scorers/batch_score.py:44-46 | a primary column of only spaces is non-empty, so it hides the fallback and the field reads as empty |
| Roster.Keep | player_scorers/score_runner.py:468 | the kept rows are exactly the rows that pass, in order |
| Roster.KeepAppend | player_scorers/score_runner.py:468 | filtering keeps row order: the rows kept from two lists are those kept from the first, then those from the second |
| Roster.Qualify | player_scorers/batch_score.py:47-57 | a record is yielded iff team, first and last are all non-empty, with the team slug and the `first_last` player slug |
| Roster.Players | player_scorers/batch_score.py:38-57 | the records yielded are exactly the rows that qualify |
| Roster.PlayersAppend | player_scorers/batch_score.py:38-57 | the records keep row order: those of two lists of rows are those of the first, then those of the second |
| Roster.ReadsSlugs | player_scorers/batch_score.py:49-50 | every record's team slug is `_slugify(team)` and its player slug is `_slugify(first + "_" + last)` |
| Roster.TeamSlugsContents | player_scorers/batch_score.py:31-32 | `team_to_slug` holds exactly the teams of qualifying rows, each mapped to its slug |
| Roster.PlayerTeamsKeys | player_scorers/batch_score.py:33-34 | `player_to_team` holds exactly the player slugs of qualifying rows |
| Roster.LastRowWins | player_scorers/batch_score.py:33-34 | a player slug maps to the team slug of the last qualifying row with that slug |
| Roster.PlayerTeamsInTeamSlugs | player_scorers/batch_score.py:31-34 | every team a player maps to is one of the team slugs |
| Roster.FillRosterMaps | player_scorers/batch_score.py:21-34 | the dictionary-filling loop builds the specified maps |
| Roster.BuildRosterMaps | player_scorers/batch_score.py:15-35 | `_build_roster_maps` applies the row filter of `_iter_roster_players` and builds both maps |
| Lookup.IndexKeys | player_scorers/batch_score.py:108 | the index (`StemIndex` with the lower-cased stem as key) holds exactly the keys of the listed files, each mapped to a listed file with that key |
| Lookup.LaterFileWins | player_scorers/batch_score.py:107-108 | a later file with the same key overwrites an earlier one |
| Lookup.KeyOrderListsKeys | player_scorers/score_runner.py:462-463 | `KeyOrder`, the key list, names every index key exactly once |
| Lookup.KeyOrderFirstSeen | player_scorers/score_runner.py:462-463 | the key list is in first-seen order: of two listed keys, the earlier belongs to a file listed before every file of the later |
| Lookup.LexLeTotal | player_scorers/batch_score.py:109 | string order is total |
| Lookup.LexLeAntisymmetric | player_scorers/batch_score.py:109 | string order is antisymmetric |
| Lookup.LexLeTransitive | player_scorers/batch_score.py:109 | string order is transitive |
| Lookup.Insert | player_scorers/batch_score.py:109 | insertion into a sorted list keeps it sorted and adds exactly the new key |
| Lookup.Sort | player_scorers/batch_score.py:109 | `sorted` gives a sorted permutation of the keys |
| Lookup.FirstEnding | player_scorers/batch_score.py:131-135 | gives the first listed stem ending with the player slug, and none when no stem does |
| Lookup.FirstEndingIsLeast | player_scorers/batch_score.py:131-135 | in sorted keys, the relaxed match is the least stem ending with the player slug |
| Lookup.FindReport | player_scorers/batch_score.py:119-135 | `{team}_{player}` first, then `{player}`, then the report of the first key in the order that ends with the player slug; none only when nothing matches; the report is always an indexed file |
| Batch.SwitchRoundTrip | player_scorers/batch_score.py:153-156 | a switch flag is read back exactly when it was written |
| Batch.PairRoundTrip | player_scorers/batch_score.py:157-160 | a name/value flag is read back exactly when it was written |
| Batch.FlagsRoundTrip | player_scorers/batch_score.py:153-160 | the optional flags parse back to options `o` iff they are exactly the flags written for `o`: each flag appears, in fixed order, iff its option is set |
| Batch.FlagsParse | player_scorers/batch_score.py:153-160 | the written flags parse back to their options |
| Batch.ParsedFlagsAreFlags | player_scorers/batch_score.py:153-160 | any argument list that parses is the flags written for its options |
| Batch.CommandShape | player_scorers/batch_score.py:145-160 | `Command` is `[python, scorer, "--input", md, "--output", out]` followed by flags that parse back to the options |
| Batch.StepShape | player_scorers/batch_score.py:114-168 | `Step`, one row: it runs at most one well-formed command and moves exactly one counter: successes on exit 0, failures otherwise; a row without a report or with an existing ratings file changes nothing |
| Batch.StepRuns | player_scorers/batch_score.py:119-168 | a row with a report and no ratings file runs the scorer once on that report: the command is appended, and exit 0 counts a success and leaves the ratings file, any other exit counts a failure |
| Batch.DriveCounts | player_scorers/batch_score.py:112-168 | successes + failures is the number of commands run, at most the number of rows, and successes count the zero exits |
| Batch.DriveCommandsWellFormed | player_scorers/batch_score.py:145-160 | every command run is a well-formed scorer call |
| Batch.RerunIsNoop | player_scorers/batch_score.py:140-144 | a rerun with every ratings file present runs nothing and leaves both counters at 0 |
| Batch.ScoreRow | player_scorers/batch_score.py:115-168 | one pass of the row loop is the specified step |
| Batch.ScoreRows | player_scorers/batch_score.py:112-168 | the row loop computes the specified run over all roster records |
| Batch.BatchScore | player_scorers/batch_score.py:101-170 | the batch runs over the roster records against the stem index with sorted keys and the `ratings` directory beside the input directory |
| RosterMode.DropUnreadRows | player_scorers/score_runner.py:466-479 | dropping rows that read as no record drops no record |
| RosterMode.NoTeamNoRecord | player_scorers/score_runner.py:474-479 | a row without a team is skipped by the name check |
| RosterMode.TeamRowsKeepPlayers | player_scorers/score_runner.py:466-479 | pre-filtering on the team loses no roster record |
| RosterMode.Step | player_scorers/score_runner.py:473-526 | a row runs at most one `score_all`; a success needs both keys and a failure means one is missing |
| RosterMode.StepShape | player_scorers/score_runner.py:473-526 | a row without a record, without a report or with an existing ratings file changes nothing; any other row is scored once on its report, a success that leaves the ratings file iff both keys are set |
| RosterMode.DriveCounts | player_scorers/score_runner.py:471-526 | successes + failures is the number of `score_all` calls, at most one per row; with both keys nothing fails, and with one missing nothing succeeds |
| RosterMode.RerunIsNoop | player_scorers/score_runner.py:503-508 | a rerun with every ratings file present scores nothing |
| RosterMode.ScoreEntry | player_scorers/score_runner.py:473-508 | one pass of the row loop is the specified step |
| RosterMode.ScoreReport | player_scorers/score_runner.py:510-526 | the in-process `score_all` counts a success iff both keys are set |
| RosterMode.ScoreEntries | player_scorers/score_runner.py:471-527 | the row loop computes the specified run |
| RosterMode.ScoreRoster | player_scorers/score_runner.py:452-527 | the roster mode runs over the rows with a team, against the stem index and its keys in first-seen order, writing beside the summaries directory |
| Summary.SummaryRows | player_summary_agent/player_summary_agent.py:79-84 | a row is kept iff it has a team and a first or a last name after stripping |
| Summary.PlayerNameOfStripped | player_summary_agent/player_summary_agent.py:131-134 | `PlayerName` is both names joined by one space, or whichever is non-empty |
| Summary.BothNames | player_summary_agent/player_summary_agent.py:134 | with both names, the player name is `first last` |
| Summary.OnlyFirst | player_summary_agent/player_summary_agent.py:134 | with only a first name, the player name is that name, with no stray space |
| Summary.OnlyLast | player_summary_agent/player_summary_agent.py:134 | with only a last name, the player name is that name, with no stray space |
| Summary.NoNames | player_summary_agent/player_summary_agent.py:134 | with neither name, the player name is empty |
| Summary.FileSlug | player_summary_agent/player_summary_agent.py:140 | the file slug is a name slug |
| Summary.ReportsAreCompanions | player_summary_agent/player_summary_agent.py:143-144 | the two reports the agent writes are companions in the scorer's sense |
| Summary.EnhancerPromptCases | player_summary_agent/player_summary_agent.py:190-201 | `EnhancerPrompt`: every `{stub}` is replaced; otherwise every `{{STUB}}`; otherwise template, blank line, stub; with no template, the fallback followed by the stub |
| Summary.PlaceholderRoundTrip | player_summary_agent/player_summary_agent.py:190-192 | filling a template with its own placeholder gives the template back |
| Summary.SonarContentCases | player_summary_agent/player_summary_agent.py:203-224 | `SonarContent` is stripped, comes from the first attempt that answers, and is empty when both fail |
| Summary.RequestSonar | player_summary_agent/player_summary_agent.py:203-224 | the retry loop makes one or two attempts, stops at the first that answers, and gives the specified content |
| Summary.TargetOf | player_summary_agent/player_summary_agent.py:130-152 | every row's file slug is a name slug |
| Summary.StepShape | player_summary_agent/player_summary_agent.py:140-229 | `Step`, one row: a row whose two reports exist is skipped; a row writes at most its two reports and leaves every other file alone; a new extended report needs the key and non-empty content |
| Summary.StepWrites | player_summary_agent/player_summary_agent.py:140-229 | a row not skipped writes nothing when research fails; otherwise its base report holds the research report, and its extended report holds the Sonar content iff the key is set and that content is not empty, else stays as it was |
| Summary.StepWithoutKey | player_summary_agent/player_summary_agent.py:172-175 | without the key, a row changes no file except its base report |
| Summary.RerunWritesNothing | player_summary_agent/player_summary_agent.py:145-149 | a rerun with every report pair present writes nothing |
| Summary.NoKeyNoExtended | player_summary_agent/player_summary_agent.py:172-231 | without the key, a run changes no file except the base reports |
| Summary.SummarizeRow | player_summary_agent/player_summary_agent.py:130-241 | one pass of the row loop is the specified step |
| Summary.GenerateSummaries | player_summary_agent/player_summary_agent.py:130-244 | the row loop computes the specified run |
| Summary.RunAgent | player_summary_agent/player_summary_agent.py:75-244 | the agent runs over the filtered rows with the fallback prompt |

## Left out

- Model calls (`ChatOpenAI`, `with_structured_output`, `ainvoke`, `responses.create`, `chat.completions.create`) are oracles. A structured-output chain is modelled as parsing the whole reply, with no extraction fallback.
- `json.loads` and the reading of pydantic fields are the parameters `parse` and `fields`. Pydantic's lax coercion (for example `"7"` to 7) is not modelled.
- The `asyncio.gather` concurrency is modelled as one outcome per chain, in chain order, computed sequentially. That is the only contract the source relies on.
- A single `now` stands for every `datetime.now()` of one `score_all` call. The source reads the clock once per chain and once for the aggregate.
- Slugs.AsciiOnly: drops every non-ASCII character. The source first applies NFKD decomposition, so an accented letter keeps its base letter there. Unicode tables are not modelled.
- `str.lower` and `str.title` are modelled on ASCII letters. `str.strip` and `\s` use the whitespace set of Python's `str.isspace`.
- Environment variables are a map given as input. `main` copies the command-line Gemini, Opus and Maverick names into the environment, and that copy is assumed to be already done.
- The `make_*` constructors raise when a key is missing. That is modelled as `KeysSet`, the one failure of `score_all`. The OpenRouter base URLs and headers are not modelled.
- Argument parsing, logging and prompt-file loading are left out. The enhancer template is an input. An unreadable template is `None`.
- The single-file mode of `score_runner.main` (player_scorers/score_runner.py:530-552) is left out. It resolves the input and a default output path, then calls `score_all` once, which is modelled.
- Writing the aggregate JSON is left out: `ScoreAll` returns the aggregate. Both loops record a successful run by adding its ratings file to the set of existing outputs.
- Directory listing is an input. For `glob` and `rglob`, the report list is given already in sorted path order, and the `--pattern` argument is not modelled.
- The subprocess is the exit oracle. A zero exit is assumed to leave the ratings file behind.
- `_build_roster_maps` is modelled, and `BatchScore` does not use its result, as in the source.
- The batch driver's `player_name` is only used in log lines, so it is left out.
- Random roster sampling (player_summary_agent/player_summary_agent.py:99-108) and writing the sample file are nondeterministic I/O. The agent's rows are the filtered rows of whichever file was read. Both branches use the same filter.
- Sleeps and timing are left out.
- The agent reads back the report it has just written as the stub. The model uses the written text directly.
- An exception while writing files, or in the Sonar block outside the request itself, is not modelled.
- A failed research call writes nothing and goes on to the next row.
- Normalizer.FencedBlock: its contract states only the shape of the span, a `{…}` inside a ```` ```json ```` fence. It does not state that the span is the regex's leftmost, shortest match. The function body follows that match from left to right.
- Normalizer.StripThinkBlocks: its contract states only the length bound. Its behaviour on think-free text and on a closed block is stated by `ThinkFreeUnchanged` and `ClosedBlockRemoved`.
- Scoring.Title: its contract states only the length. The capitalisation is stated by `TitleFrom` and `TitleCapitalisesWords`.
- Scoring.Successes: its contract states only the length bound. Soundness, order and counts are stated by `SuccessesSound`, `SuccessesAppend` and `PartitionCounts`.
- Scoring.Failures: its contract states only the length bound. Soundness, order and emptiness are stated by `FailuresSound`, `FailuresAppend` and `FailuresEmpty`.
