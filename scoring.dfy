/** The scoring orchestrator (`score_all`): which chains run, how each adapter turns a
  * reply into a stamped rating, and how the outcomes become one aggregate. The LLM
  * calls are the oracle `reply`; `json.loads` is `parse`; reading the rating fields out
  * of a parsed value is `fields`; the clock is the value `now`. */
module Scoring {

  import opened Wrappers
  import opened Text
  import opened Rating
  import opened Normalizer
  import opened Documents

  /** How a chain reads its reply: through the schema-bound structured output, as plain
    * JSON extracted from the text, or as plain JSON after removing `<think>` regions. */
  datatype Adapter = Structured | PlainJson | PlainJsonStripThink

  datatype Chain = Chain(name: string, adapter: Adapter)

  /** What a model call gives back: an exception's message, or the reply's text. */
  datatype Reply = Raised(message: string) | Content(text: string)

  const StructuredRejected := "structured output could not be parsed"

  /** What an adapter reads out of a reply's text: the whole text parsed (structured
    * output), the extracted JSON object, or the extracted object once `<think>` regions
    * are removed. */
  function Read<J>(adapter: Adapter, text: string, parse: string -> Option<J>): Result<J> {
    match adapter
    case Structured => if parse(text).Some? then Ok(parse(text).value) else Err(StructuredRejected)
    case PlainJson => Extract(text, parse)
    case PlainJsonStripThink => Extract(StripThinkBlocks(text), parse)
  }

  /** One chain's run on its reply: validation of what the adapter reads, then the
    * client-side stamp of the chain's name and the current time. A reply succeeds
    * exactly when the adapter reads a value whose fields pass validation, and the
    * rating is that validated record, stamped. */
  function RunChain<J>(chain: Chain, reply: Reply, parse: string -> Option<J>,
                       fields: J -> Candidate, now: string): (r: Result<ScoreOutput>)
    ensures r.Ok? ==> Valid(r.value) && r.value.modelName == chain.name && r.value.timestamp == now
    ensures reply.Raised? ==> r == Err(reply.message)
    ensures reply.Content? ==> var read := Read(chain.adapter, reply.text, parse);
      && (r.Ok? <==> read.Ok? && Validate(fields(read.value)).Ok?)
      && (r.Ok? ==> r.value == Stamp(Validate(fields(read.value)).value, chain.name, now))
      && (read.Err? ==> r == Err(read.error))
  {
    match reply
    case Raised(message) => Err(message)
    case Content(text) =>
      match Read(chain.adapter, text, parse)
      case Err(e) => Err(e)
      case Ok(j) =>
        match Validate(fields(j))
        case Err(e) => Err(e)
        case Ok(s) => Ok(Stamp(s, chain.name, now))
  }

  /** Whatever the reply claims for `model_name` and `timestamp`, the stamped rating
    * carries the chain's name and the client's time, and nothing else differs. */
  lemma RunChainIgnoresClaims<J(!new)>(chain: Chain, text: string, parse: string -> Option<J>,
                                 fields: J -> Candidate, fields': J -> Candidate, now: string,
                                 claimedName: string, claimedTime: string)
    requires forall j :: fields(j).modelName.Some? && fields(j).timestamp.Some?
    requires forall j :: fields'(j) == fields(j).(modelName := Some(claimedName), timestamp := Some(claimedTime))
    ensures RunChain(chain, Content(text), parse, fields, now) == RunChain(chain, Content(text), parse, fields', now)
  {
    var parsed := Read(chain.adapter, text, parse);
    if parsed.Ok? {
      var j := parsed.value;
      var c := fields(j);
      assert c.modelName.Some? && c.timestamp.Some?;
      assert fields'(j) == c.(modelName := Some(claimedName), timestamp := Some(claimedTime));
      StampIgnoresClaims(c, claimedName, claimedTime, chain.name, now);
    }
  }

  // ---------------------------------------------------------------------------
  // Model names and the chain list

  /** `os.getenv(key)` read as text, an unset variable reading as the empty text. */
  function Env(env: map<string, string>, key: string): string {
    if key in env then env[key] else ""
  }

  const DeepSeekR1 := "DeepSeek-R1"

  /** The DeepSeek name as the server wants it: any spelling that lower-cases to
    * `deepseek-r1` once underscores are hyphens becomes `DeepSeek-R1`; any other name is
    * kept. */
  function CanonicalDeepSeek(name: string): string {
    if Lower(ReplaceChar(name, '_', '-')) == "deepseek-r1" then DeepSeekR1 else name
  }

  /** Canonicalising twice is canonicalising once. */
  lemma CanonicalDeepSeekIdempotent(name: string)
    ensures CanonicalDeepSeek(CanonicalDeepSeek(name)) == CanonicalDeepSeek(name)
  {
    if Lower(ReplaceChar(name, '_', '-')) == "deepseek-r1" {
      assert Lower(ReplaceChar(DeepSeekR1, '_', '-')) == "deepseek-r1";
    }
  }

  /** The three Jetstream model names. */
  datatype Models = Models(deepSeek: string, llama: string, oss: string)

  /** Command-line name first, then the environment, then the default; the Llama
    * default applies only when `LLAMA_MODEL` is unset. */
  function ResolveModels(cli: Models, env: map<string, string>): Models {
    Models(
      CanonicalDeepSeek(Or(Or(cli.deepSeek, Env(env, "DEEPSEEK_MODEL")), DeepSeekR1)),
      Or(cli.llama, if "LLAMA_MODEL" in env then env["LLAMA_MODEL"] else "llama-4-scout"),
      Or(Or(cli.oss, Env(env, "OSS_MODEL")), "gpt-oss-120b"))
  }

  /** The DeepSeek and OSS names are never empty, a name given on the command line wins,
    * and a set but empty `LLAMA_MODEL` gives an empty Llama name. */
  lemma ResolvedNames(cli: Models, env: map<string, string>)
    ensures var r := ResolveModels(cli, env);
      && r.deepSeek != [] && r.oss != []
      && (cli.llama != [] ==> r.llama == cli.llama)
      && (cli.oss != [] ==> r.oss == cli.oss)
      && (cli.llama == [] && "LLAMA_MODEL" in env && env["LLAMA_MODEL"] == [] ==> r.llama == [])
      && (cli.llama == [] && "LLAMA_MODEL" !in env ==> r.llama == "llama-4-scout")
  {
  }

  datatype Skips = Skips(llama: bool, deepSeek: bool, oss: bool)

  const GptChains := [Chain("gpt-5", Structured), Chain("gpt-5-mini", Structured)]
  const MaverickDefault := "meta-llama/llama-4-maverick:free"

  /** The Jetstream chains that are not skipped, in the order DeepSeek, Llama, OSS. */
  function JetstreamChains(models: Models, skips: Skips): seq<Chain> {
    (if skips.deepSeek then [] else [Chain(models.deepSeek, PlainJsonStripThink)])
    + (if skips.llama then [] else [Chain(models.llama, Structured)])
    + (if skips.oss then [] else [Chain(models.oss, PlainJson)])
  }

  /** One chain per model not skipped; DeepSeek first and OSS last when present; only the
    * DeepSeek chain strips `<think>` regions. */
  lemma JetstreamChainsShape(models: Models, skips: Skips)
    ensures var r := JetstreamChains(models, skips);
      && |r| == (if skips.deepSeek then 0 else 1) + (if skips.llama then 0 else 1) + (if skips.oss then 0 else 1)
      && (Chain(models.deepSeek, PlainJsonStripThink) in r <==> !skips.deepSeek)
      && (Chain(models.llama, Structured) in r <==> !skips.llama)
      && (Chain(models.oss, PlainJson) in r <==> !skips.oss)
      && (!skips.deepSeek ==> r[0] == Chain(models.deepSeek, PlainJsonStripThink))
      && (!skips.oss ==> r[|r| - 1] == Chain(models.oss, PlainJson))
      && (forall c :: c in r && c.adapter == PlainJsonStripThink ==> c == Chain(models.deepSeek, PlainJsonStripThink))
  {
  }

  /** The OpenRouter chains, all plain JSON: none without a key; with one, Gemini and
    * Opus only when their model variables are set and non-empty, and Maverick always. */
  function OpenRouterChains(env: map<string, string>): seq<Chain> {
    if Env(env, "OPENROUTER_API_KEY") == [] then []
    else
      (if Env(env, "GEMINI_MODEL") != [] then [Chain(Env(env, "GEMINI_MODEL"), PlainJson)] else [])
      + (if Env(env, "OPUS_MODEL") != [] then [Chain(Env(env, "OPUS_MODEL"), PlainJson)] else [])
      + [Chain(Or(Env(env, "MAVERICK_MODEL"), MaverickDefault), PlainJson)]
  }

  lemma OpenRouterChainsShape(env: map<string, string>)
    ensures var r := OpenRouterChains(env);
      && (Env(env, "OPENROUTER_API_KEY") == [] ==> r == [])
      && (Env(env, "OPENROUTER_API_KEY") != [] ==> (
        && |r| == 1 + (if Env(env, "GEMINI_MODEL") != [] then 1 else 0) + (if Env(env, "OPUS_MODEL") != [] then 1 else 0)
        && r[|r| - 1] == Chain(Or(Env(env, "MAVERICK_MODEL"), MaverickDefault), PlainJson)))
      && (forall c :: c in r ==> c.adapter == PlainJson && c.name != [])
  {
  }

  /** The chain list: the two GPT chains, then the Jetstream chains not skipped, then
    * the OpenRouter chains. */
  function ChainList(models: Models, skips: Skips, env: map<string, string>): seq<Chain> {
    GptChains + JetstreamChains(models, skips) + OpenRouterChains(env)
  }

  /** Between two and eight chains: the GPT pair first, then the Jetstream chains, then
    * the OpenRouter chains. */
  lemma ChainListShape(models: Models, skips: Skips, env: map<string, string>)
    ensures var r := ChainList(models, skips, env);
      var js := JetstreamChains(models, skips);
      && 2 <= |r| <= 8 && |r| == 2 + |js| + |OpenRouterChains(env)|
      && r[..2] == GptChains
      && r[2..2 + |js|] == js
      && r[2 + |js|..] == OpenRouterChains(env)
  {
    JetstreamChainsShape(models, skips);
    OpenRouterChainsShape(env);
  }

  /** The only chain that strips `<think>` regions is DeepSeek, and it is there exactly
    * when it is not skipped. */
  lemma StripThinkOnlyDeepSeek(models: Models, skips: Skips, env: map<string, string>)
    ensures var r := ChainList(models, skips, env);
      && (forall c :: c in r && c.adapter == PlainJsonStripThink ==> c.name == models.deepSeek)
      && (Chain(models.deepSeek, PlainJsonStripThink) in r <==> !skips.deepSeek)
  {
    var js := JetstreamChains(models, skips);
    var or := OpenRouterChains(env);
    var r := ChainList(models, skips, env);
    JetstreamChainsShape(models, skips);
    OpenRouterChainsShape(env);
    assert r == GptChains + js + or;
    forall c | c in r && c.adapter == PlainJsonStripThink ensures c.name == models.deepSeek {
      InOneOfThree(c, GptChains, js, or);
    }
    InOneOfThree(Chain(models.deepSeek, PlainJsonStripThink), GptChains, js, or);
  }

  lemma InOneOfThree<T>(x: T, a: seq<T>, b: seq<T>, c: seq<T>)
    ensures x in a + b + c <==> x in a || x in b || x in c
  {
  }

  // ---------------------------------------------------------------------------
  // Aggregation

  datatype ModelError = ModelError(modelName: string, error: string)

  /** The written document: `errors` is `None` when the key is absent. */
  datatype Aggregate = Aggregate(
    player: string,
    ratings: seq<ScoreOutput>,
    generatedAt: string,
    schemaVersion: string,
    errors: Option<seq<ModelError>>)

  const SchemaVersion := "1.0"

  /** The ratings of the chains that succeeded, in chain order. */
  function Successes(outcomes: seq<Result<ScoreOutput>>): (r: seq<ScoreOutput>)
    ensures |r| <= |outcomes|
  {
    if outcomes == [] then []
    else
      var rest := Successes(outcomes[1..]);
      if outcomes[0].Ok? then [outcomes[0].value] + rest else rest
  }

  /** Every success is the value of an outcome. */
  lemma {:induction false} SuccessesSound(outcomes: seq<Result<ScoreOutput>>)
    ensures forall s :: s in Successes(outcomes) ==> Ok(s) in outcomes
  {
    if outcomes != [] {
      SuccessesSound(outcomes[1..]);
      assert forall x :: x in outcomes[1..] ==> x in outcomes;
    }
  }

  /** The failures, with the failing chain's name, in chain order. */
  function Failures(chains: seq<Chain>, outcomes: seq<Result<ScoreOutput>>): (r: seq<ModelError>)
    requires |chains| == |outcomes|
    ensures |r| <= |outcomes|
  {
    if outcomes == [] then []
    else
      var rest := Failures(chains[1..], outcomes[1..]);
      if outcomes[0].Err? then [ModelError(chains[0].name, outcomes[0].error)] + rest
      else rest
  }

  /** Every failure carries the error of an outcome and the name of its chain. */
  lemma {:induction false} FailuresSound(chains: seq<Chain>, outcomes: seq<Result<ScoreOutput>>)
    requires |chains| == |outcomes|
    ensures forall e :: e in Failures(chains, outcomes) ==> exists i :: (0 <= i < |outcomes|
      && outcomes[i] == Err(e.error) && chains[i].name == e.modelName)
  {
    if outcomes != [] {
      FailuresSound(chains[1..], outcomes[1..]);
      var rest := Failures(chains[1..], outcomes[1..]);
      forall e | e in Failures(chains, outcomes)
        ensures exists i :: 0 <= i < |outcomes| && outcomes[i] == Err(e.error) && chains[i].name == e.modelName
      {
        if e in rest {
          var i :| 0 <= i < |outcomes[1..]| && outcomes[1..][i] == Err(e.error) && chains[1..][i].name == e.modelName;
          assert outcomes[i + 1] == Err(e.error) && chains[i + 1].name == e.modelName;
        } else {
          assert outcomes[0] == Err(e.error) && chains[0].name == e.modelName;
        }
      }
    }
  }

  /** Every outcome lands on exactly one side. */
  lemma {:induction false} PartitionCounts(chains: seq<Chain>, outcomes: seq<Result<ScoreOutput>>)
    requires |chains| == |outcomes|
    ensures |Successes(outcomes)| + |Failures(chains, outcomes)| == |outcomes|
  {
    if outcomes != [] {
      PartitionCounts(chains[1..], outcomes[1..]);
    }
  }

  /** There are failures exactly when some outcome is an error. */
  lemma {:induction false} FailuresEmpty(chains: seq<Chain>, outcomes: seq<Result<ScoreOutput>>)
    requires |chains| == |outcomes|
    ensures Failures(chains, outcomes) == [] <==> forall i :: 0 <= i < |outcomes| ==> outcomes[i].Ok?
  {
    if outcomes != [] {
      FailuresEmpty(chains[1..], outcomes[1..]);
      if outcomes[0].Ok? {
        assert forall i :: 1 <= i < |outcomes| ==> outcomes[i] == outcomes[1..][i - 1];
      }
    }
  }

  lemma SuccessesAppend(outcomes: seq<Result<ScoreOutput>>, o: Result<ScoreOutput>)
    ensures Successes(outcomes + [o]) == Successes(outcomes) + (if o.Ok? then [o.value] else [])
    decreases |outcomes|
  {
    if outcomes != [] {
      assert (outcomes + [o])[1..] == outcomes[1..] + [o];
      SuccessesAppend(outcomes[1..], o);
    } else {
      assert ([o])[1..] == [];
    }
  }

  lemma FailuresAppend(chains: seq<Chain>, outcomes: seq<Result<ScoreOutput>>, c: Chain, o: Result<ScoreOutput>)
    requires |chains| == |outcomes|
    ensures Failures(chains + [c], outcomes + [o])
      == Failures(chains, outcomes) + (if o.Err? then [ModelError(c.name, o.error)] else [])
    decreases |outcomes|
  {
    if outcomes != [] {
      assert (outcomes + [o])[1..] == outcomes[1..] + [o];
      assert (chains + [c])[1..] == chains[1..] + [c];
      FailuresAppend(chains[1..], outcomes[1..], c, o);
    } else {
      assert ([o])[1..] == [];
      assert ([c])[1..] == [];
    }
  }

  lemma SuccessesStep(outcomes: seq<Result<ScoreOutput>>, i: nat)
    requires i < |outcomes|
    ensures Successes(outcomes[..i + 1])
      == Successes(outcomes[..i]) + (if outcomes[i].Ok? then [outcomes[i].value] else [])
  {
    assert outcomes[..i + 1] == outcomes[..i] + [outcomes[i]];
    SuccessesAppend(outcomes[..i], outcomes[i]);
  }

  lemma FailuresStep(chains: seq<Chain>, outcomes: seq<Result<ScoreOutput>>, i: nat)
    requires |chains| == |outcomes| && i < |outcomes|
    ensures Failures(chains[..i + 1], outcomes[..i + 1])
      == Failures(chains[..i], outcomes[..i])
         + (if outcomes[i].Err? then [ModelError(chains[i].name, outcomes[i].error)] else [])
  {
    assert outcomes[..i + 1] == outcomes[..i] + [outcomes[i]];
    assert chains[..i + 1] == chains[..i] + [chains[i]];
    FailuresAppend(chains[..i], outcomes[..i], chains[i], outcomes[i]);
  }

  /** The loop over the gathered outcomes: each is appended to the ratings or, with its
    * chain's name, to the errors. */
  method Partition(chains: seq<Chain>, outcomes: seq<Result<ScoreOutput>>)
    returns (results: seq<ScoreOutput>, errors: seq<ModelError>)
    requires |chains| == |outcomes|
    ensures results == Successes(outcomes)
    ensures errors == Failures(chains, outcomes)
  {
    results := [];
    errors := [];
    var i := 0;
    while i < |outcomes|
      invariant 0 <= i <= |outcomes|
      invariant results == Successes(outcomes[..i])
      invariant errors == Failures(chains[..i], outcomes[..i])
    {
      var o := outcomes[i];
      var c := chains[i];
      if o.Err? {
        errors := errors + [ModelError(c.name, o.error)];
      } else {
        results := results + [o.value];
      }
      SuccessesStep(outcomes, i);
      FailuresStep(chains, outcomes, i);
      i := i + 1;
    }
    assert outcomes[..i] == outcomes;
    assert chains[..i] == chains;
  }

  // ---------------------------------------------------------------------------
  // The display name

  predicate IsLetter(c: char) { 'a' <= c <= 'z' || 'A' <= c <= 'Z' }

  /** ASCII `str.upper` on one character. */
  function UpperChar(c: char): (r: char)
    ensures 'a' <= c <= 'z' ==> r as int == c as int - 32
    ensures !('a' <= c <= 'z') ==> r == c
  {
    if 'a' <= c <= 'z' then (c as int - 32) as char else c
  }

  predicate IsSeparator(c: char) { c == '_' || c == '-' }

  predicate NoSeparator(s: string) {
    forall i :: 0 <= i < |s| ==> !IsSeparator(s[i])
  }

  /** `re.sub(r"[_-]+", " ", s)`: every maximal run of underscores and hyphens becomes
    * one space (a separator followed by another is dropped, the last of a run becomes
    * the space). */
  function CollapseSeparators(s: string): (r: string)
    ensures NoSeparator(r)
    ensures |r| <= |s|
    ensures r == [] <==> s == []
    decreases |s|
  {
    if s == [] then []
    else if IsSeparator(s[0]) && |s| > 1 && IsSeparator(s[1]) then CollapseSeparators(s[1..])
    else [if IsSeparator(s[0]) then ' ' else s[0]] + CollapseSeparators(s[1..])
  }

  /** Text without separators is kept as it is. */
  lemma {:induction false} CollapseKeeps(s: string)
    requires NoSeparator(s)
    ensures CollapseSeparators(s) == s
    decreases |s|
  {
    if s != [] {
      CollapseKeeps(s[1..]);
    }
  }

  /** A prefix without separators is kept, and the rest is collapsed on its own. */
  lemma {:induction false} CollapseAppend(a: string, b: string)
    requires NoSeparator(a)
    ensures CollapseSeparators(a + b) == a + CollapseSeparators(b)
    decreases |a|
  {
    if a == [] {
      assert a + b == b;
    } else {
      assert (a + b)[0] == a[0] && (a + b)[1..] == a[1..] + b;
      CollapseAppend(a[1..], b);
      assert a == [a[0]] + a[1..];
    }
  }

  /** A whole run of separators becomes exactly one space. */
  lemma {:induction false} CollapseRun(run: string, b: string)
    requires run != [] && forall i :: 0 <= i < |run| ==> IsSeparator(run[i])
    requires b == [] || !IsSeparator(b[0])
    ensures CollapseSeparators(run + b) == " " + CollapseSeparators(b)
    decreases |run|
  {
    assert (run + b)[0] == run[0] && (run + b)[1..] == run[1..] + b;
    if |run| > 1 {
      assert (run + b)[1] == run[1];
      CollapseRun(run[1..], b);
    } else {
      assert run[1..] + b == b;
    }
  }

  /** `str.title` on one character after the character `prev`. */
  function TitleChar(prev: char, c: char): char {
    if !IsLetter(c) then c else if IsLetter(prev) then LowerChar(c) else UpperChar(c)
  }

  /** ASCII `str.title` after character `prev` (a non-letter at the start): a letter
    * is upper-cased when it starts a run of letters and lower-cased otherwise. */
  function TitleFrom(prev: char, s: string): (r: string)
    ensures |r| == |s|
    ensures forall i :: 0 <= i < |s| ==> IsLetter(r[i]) == IsLetter(s[i])
    ensures forall i :: 0 <= i < |s| && !IsLetter(s[i]) ==> r[i] == s[i]
    ensures forall i :: 0 <= i < |s| ==> r[i] == TitleChar(if i == 0 then prev else s[i - 1], s[i])
    decreases |s|
  {
    if s == [] then []
    else [TitleChar(prev, s[0])] + TitleFrom(s[0], s[1..])
  }

  function Title(s: string): (r: string)
    ensures |r| == |s|
  {
    TitleFrom(' ', s)
  }

  /** Title-casing a concatenation title-cases the second part after the first part's
    * last character. */
  lemma TitleAppend(prev: char, a: string, b: string)
    ensures TitleFrom(prev, a + b) == TitleFrom(prev, a) + TitleFrom(if a == [] then prev else a[|a| - 1], b)
  {
    var r := TitleFrom(prev, a + b);
    var q := TitleFrom(prev, a) + TitleFrom(if a == [] then prev else a[|a| - 1], b);
    forall i | 0 <= i < |r| ensures r[i] == q[i] {
      if i < |a| {
        assert (a + b)[i] == a[i];
        assert i > 0 ==> (a + b)[i - 1] == a[i - 1];
      } else {
        assert (a + b)[i] == b[i - |a|];
        assert i > |a| ==> (a + b)[i - 1] == b[i - |a| - 1];
        assert i == |a| && a != [] ==> (a + b)[i - 1] == a[|a| - 1];
      }
    }
  }

  /** A non-empty word of lower-case letters. */
  predicate IsLowerWord(w: string) {
    w != [] && forall i :: 0 <= i < |w| ==> 'a' <= w[i] <= 'z'
  }

  /** A word with its first letter upper-cased. */
  function Capitalised(w: string): string
    requires w != []
  {
    [UpperChar(w[0])] + w[1..]
  }

  /** A lower-case word after a non-letter comes out capitalised. */
  lemma TitleWord(prev: char, w: string)
    requires IsLowerWord(w) && !IsLetter(prev)
    ensures TitleFrom(prev, w) == Capitalised(w)
  {
    var r := TitleFrom(prev, w);
    forall i | 0 <= i < |w| ensures r[i] == Capitalised(w)[i] {
      if i > 0 {
        assert IsLetter(w[i - 1]);
      }
    }
  }

  /** The player's display name from the report's stem: separators become spaces and
    * words are capitalised; an empty stem gives `unknown`. */
  function DisplayName(stem: string): (r: string)
    ensures r != []
    ensures stem == [] ==> r == "unknown"
    ensures stem != [] ==> |r| <= |stem|
    ensures forall i :: 0 <= i < |r| ==> !IsSeparator(r[i])
  {
    if stem == [] then "unknown" else Title(CollapseSeparators(stem))
  }

  /** Two words joined by a run of separators are joined by one space. */
  lemma CollapseTwoWords(a: string, run: string, b: string)
    requires IsLowerWord(a) && IsLowerWord(b)
    requires run != [] && forall i :: 0 <= i < |run| ==> IsSeparator(run[i])
    ensures CollapseSeparators(a + run + b) == a + " " + b
  {
    assert a + run + b == a + (run + b);
    CollapseAppend(a, run + b);
    CollapseRun(run, b);
    CollapseKeeps(b);
  }

  /** Two lower-case words with a space between them are title-cased word by word. */
  lemma TitleTwoWords(a: string, b: string)
    requires IsLowerWord(a) && IsLowerWord(b)
    ensures Title(a + " " + b) == Capitalised(a) + " " + Capitalised(b)
  {
    assert a + " " + b == a + (" " + b);
    TitleAppend(' ', a, " " + b);
    TitleWord(' ', a);
    TitleAppend(a[|a| - 1], " ", b);
    TitleWord(' ', b);
    assert TitleFrom(a[|a| - 1], " ") == " ";
  }

  /** Two lower-case words joined by a run of separators give the two words
    * capitalised, with one space between them. */
  lemma DisplayNameTwoWords(a: string, run: string, b: string)
    requires IsLowerWord(a) && IsLowerWord(b)
    requires run != [] && forall i :: 0 <= i < |run| ==> IsSeparator(run[i])
    ensures DisplayName(a + run + b) == Capitalised(a) + " " + Capitalised(b)
  {
    CollapseTwoWords(a, run, b);
    TitleTwoWords(a, b);
  }

  /** The example the code gives: `sidney_crosby` reads `Sidney Crosby`. */
  lemma DisplayNameExample(first: string, last: string)
    requires first == "sidney" && last == "crosby"
    ensures DisplayName(first + "_" + last) == "Sidney Crosby"
  {
    ExampleWords(first, last);
    DisplayNameTwoWords(first, "_", last);
  }

  lemma ExampleWords(first: string, last: string)
    requires first == "sidney" && last == "crosby"
    ensures IsLowerWord(first) && IsLowerWord(last)
    ensures Capitalised(first) + " " + Capitalised(last) == "Sidney Crosby"
  {
    assert Capitalised(first) == "Sidney" && Capitalised(last) == "Crosby";
  }

  /** In the display name, letters are upper-case exactly at the start of a word. */
  lemma {:induction false} TitleCapitalisesWords(prev: char, s: string, i: nat)
    requires i < |s| && IsLetter(s[i])
    ensures var r := TitleFrom(prev, s);
      && (('A' <= r[i] <= 'Z') <==> !IsLetter(if i == 0 then prev else s[i - 1]))
    decreases i
  {
    if i > 0 {
      TitleCapitalisesWords(s[0], s[1..], i - 1);
    }
  }

  // ---------------------------------------------------------------------------
  // score_all

  /** The chains' outcomes on the merged document, in chain order (the gather). */
  function Outcomes<J>(chains: seq<Chain>, markdown: string, reply: (Chain, string) -> Reply,
                       parse: string -> Option<J>, fields: J -> Candidate, now: string): (r: seq<Result<ScoreOutput>>)
    ensures |r| == |chains|
    ensures forall i :: 0 <= i < |chains| ==> r[i] == RunChain(chains[i], reply(chains[i], markdown), parse, fields, now)
  {
    seq(|chains|, i requires 0 <= i < |chains| => RunChain(chains[i], reply(chains[i], markdown), parse, fields, now))
  }

  const MissingKey := "Missing API key"

  /** Both keys `score_all` requires are set. */
  predicate KeysSet(env: map<string, string>) {
    Env(env, "OPENAI_API_KEY") != [] && Env(env, "JETSTREAM_API_KEY") != []
  }

  /** What `score_all` writes: the ratings of the chains that succeeded in chain order,
    * the errors of the others (absent when none failed), the player named after the
    * report's stem, the schema version and the time stamp. */
  predicate Gathered<J>(a: Aggregate, files: Files, resolve: Path -> string, summaryPath: Path, cli: Models,
                        skips: Skips, env: map<string, string>, reply: (Chain, string) -> Reply,
                        parse: string -> Option<J>, fields: J -> Candidate, now: string)
    requires summaryPath.name != []
  {
    var chains := ChainList(ResolveModels(cli, env), skips, env);
    var outcomes := Outcomes(chains, LoadMergedMarkdown(files, resolve, summaryPath), reply, parse, fields, now);
    && a.ratings == Successes(outcomes)
    && (a.errors.None? <==> Failures(chains, outcomes) == [])
    && (a.errors.Some? ==> a.errors.value == Failures(chains, outcomes))
    && a.player == DisplayName(Stem(summaryPath.name))
    && a.schemaVersion == SchemaVersion && a.generatedAt == now
  }

  /** `score_all`: fails before any call when the OpenAI or the Jetstream key is missing
    * or empty (every Jetstream client is created, skipped or not); otherwise runs every
    * chain once on the merged document and aggregates in chain order. */
  method ScoreAll<J>(files: Files, resolve: Path -> string, summaryPath: Path, cli: Models,
                     skips: Skips, env: map<string, string>, reply: (Chain, string) -> Reply,
                     parse: string -> Option<J>, fields: J -> Candidate, now: string)
    returns (r: Result<Aggregate>)
    requires summaryPath.name != []
    ensures r.Err? <==> !KeysSet(env)
    ensures r.Ok? ==> Gathered(r.value, files, resolve, summaryPath, cli, skips, env, reply, parse, fields, now)
  {
    var markdown := LoadMergedMarkdown(files, resolve, summaryPath);
    if !KeysSet(env) {
      return Err(MissingKey);
    }
    var models := ResolveModels(cli, env);
    var chains := ChainList(models, skips, env);
    var outcomes := Outcomes(chains, markdown, reply, parse, fields, now);
    var results, errors := Partition(chains, outcomes);
    var player := DisplayName(Stem(summaryPath.name));
    r := Ok(Aggregate(player, results, now, SchemaVersion, if errors == [] then None else Some(errors)));
  }

  /** Three chains of which the second raises: two ratings and one error naming the
    * second chain, and the aggregate is still written. */
  lemma GatherKeepsGoing(a: Chain, b: Chain, c: Chain, ra: ScoreOutput, rc: ScoreOutput, message: string)
    ensures var outcomes := [Ok(ra), Err(message), Ok(rc)];
      && Successes(outcomes) == [ra, rc]
      && Failures([a, b, c], outcomes) == [ModelError(b.name, message)]
  {
    var outcomes: seq<Result<ScoreOutput>> := [Ok(ra), Err(message), Ok(rc)];
    var tail: seq<Result<ScoreOutput>> := [Err(message), Ok(rc)];
    var last: seq<Result<ScoreOutput>> := [Ok(rc)];
    assert outcomes[1..] == tail && tail[1..] == last && last[1..] == [];
    assert [a, b, c][1..] == [b, c] && [b, c][1..] == [c] && [c][1..] == [];
    assert Successes(last) == [rc];
    assert Successes(tail) == [rc];
    assert Failures([c], last) == [];
    assert Failures([b, c], tail) == [ModelError(b.name, message)];
  }
}
