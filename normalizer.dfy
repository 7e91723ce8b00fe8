/** Turning a free-text model reply into the JSON object it carries: removal of
  * `<think>` regions and the three-step extraction of `_extract_json_object`.
  * `json.loads` is the parameter `parse`, a partial function from text to a value. */
module Normalizer {

  import opened Wrappers
  import opened Text

  const Open := "<think>"
  const Close := "</think>"
  const NoJsonObject := "Could not extract JSON object from model output"

  /** `tag` (lower-case) occurs at index `i` of `s`, letters compared without case. */
  predicate TagAt(s: string, i: nat, tag: string) {
    i + |tag| <= |s| && Lower(s[i..i + |tag|]) == tag
  }

  ghost predicate NoTag(s: string, tag: string) {
    forall i: nat :: !TagAt(s, i, tag)
  }

  /** Neither `<think>` nor `</think>` occurs in `s`, in any letter case. */
  ghost predicate ThinkFree(s: string) {
    NoTag(s, Open) && NoTag(s, Close)
  }

  /** The first index at or after `k` where `tag` occurs. */
  function FindTag(s: string, tag: string, k: nat): (r: Option<nat>)
    ensures r.Some? ==> k <= r.value && TagAt(s, r.value, tag)
    ensures forall j: nat :: k <= j && (r.None? || j < r.value) ==> !TagAt(s, j, tag)
    decreases |s| - k
  {
    if k + |tag| > |s| then None
    else if TagAt(s, k, tag) then Some(k)
    else FindTag(s, tag, k + 1)
  }

  /** `re.sub(r"<think>[\s\S]*?</think>", "", s, flags=re.IGNORECASE)`: from left to right,
    * an opening tag with a closing tag after it is removed up to the nearest closing tag. */
  function RemoveClosedBlocks(s: string): (r: string)
    ensures |r| <= |s|
    decreases |s|
  {
    if s == [] then []
    else if TagAt(s, 0, Open) && FindTag(s, Close, |Open|).Some? then
      RemoveClosedBlocks(s[FindTag(s, Close, |Open|).value + |Close|..])
    else [s[0]] + RemoveClosedBlocks(s[1..])
  }

  /** `re.sub(r"</?think>", "", s, flags=re.IGNORECASE)`: every lone tag is removed. */
  function RemoveTags(s: string): (r: string)
    ensures |r| <= |s|
    decreases |s|
  {
    if s == [] then []
    else if TagAt(s, 0, Open) then RemoveTags(s[|Open|..])
    else if TagAt(s, 0, Close) then RemoveTags(s[|Close|..])
    else [s[0]] + RemoveTags(s[1..])
  }

  /** `_strip_think_blocks`: closed blocks first, then lone tags. The output is never
    * longer than the input. */
  function StripThinkBlocks(text: string): (r: string)
    ensures |r| <= |text|
  {
    RemoveTags(RemoveClosedBlocks(text))
  }

  lemma TagAtAppend(p: string, s: string, i: nat, tag: string)
    ensures TagAt(p + s, |p| + i, tag) == TagAt(s, i, tag)
  {
    if |p| + i + |tag| <= |p + s| {
      assert (p + s)[|p| + i..|p| + i + |tag|] == s[i..i + |tag|];
    }
  }

  lemma TagAtPrefix(p: string, s: string, i: nat, tag: string)
    requires i + |tag| <= |p|
    ensures TagAt(p + s, i, tag) == TagAt(p, i, tag)
  {
    assert (p + s)[i..i + |tag|] == p[i..i + |tag|];
  }

  lemma NoTagParts(p: string, s: string, tag: string)
    requires NoTag(p + s, tag)
    ensures NoTag(p, tag) && NoTag(s, tag)
  {
    forall i: nat ensures !TagAt(p, i, tag) && !TagAt(s, i, tag) {
      TagAtAppend(p, s, i, tag);
      if i + |tag| <= |p| {
        TagAtPrefix(p, s, i, tag);
      }
    }
  }

  /** A tag cannot begin inside `p` and end inside `s` when `s` starts with a `<`,
    * because `<` is only the first letter of either tag. */
  lemma NoTagAcrossAngle(p: string, s: string, i: nat, tag: string)
    requires tag == Open || tag == Close
    requires i < |p| < i + |tag|
    requires s != [] && s[0] == '<'
    ensures !TagAt(p + s, i, tag)
  {
    if i + |tag| <= |p + s| {
      var w := (p + s)[i..i + |tag|];
      assert w[|p| - i] == '<';
      assert Lower(w)[|p| - i] == '<';
      assert tag[|p| - i] != '<';
    }
  }

  lemma {:induction false} RemoveClosedBlocksNoop(s: string)
    requires NoTag(s, Open)
    ensures RemoveClosedBlocks(s) == s
    decreases |s|
  {
    if s != [] {
      assert [s[0]] + s[1..] == s;
      NoTagParts([s[0]], s[1..], Open);
      assert !TagAt(s, 0, Open);
      RemoveClosedBlocksNoop(s[1..]);
    }
  }

  lemma {:induction false} RemoveTagsNoop(s: string)
    requires ThinkFree(s)
    ensures RemoveTags(s) == s
    decreases |s|
  {
    if s != [] {
      assert [s[0]] + s[1..] == s;
      NoTagParts([s[0]], s[1..], Open);
      NoTagParts([s[0]], s[1..], Close);
      RemoveTagsNoop(s[1..]);
    }
  }

  /** Text with no `<think>` or `</think>` in any letter case is returned unchanged. */
  lemma ThinkFreeUnchanged(text: string)
    requires ThinkFree(text)
    ensures StripThinkBlocks(text) == text
  {
    RemoveClosedBlocksNoop(text);
    RemoveTagsNoop(text);
  }

  /** Where no opening tag starts, the first pass copies one character. */
  lemma RemoveClosedBlocksCopies(s: string)
    requires s != [] && !TagAt(s, 0, Open)
    ensures RemoveClosedBlocks(s) == [s[0]] + RemoveClosedBlocks(s[1..])
  {
  }

  /** No opening tag starts in the first `n` positions of `s`. */
  predicate NoOpenWithin(s: string, n: nat) {
    forall i: nat :: i < n ==> !TagAt(s, i, Open)
  }

  /** Dropping the first character of the prefix keeps it free of opening tags. */
  lemma NoOpenInTail(p: string, rest: string)
    requires p != []
    requires NoOpenWithin(p + rest, |p|)
    ensures NoOpenWithin(p[1..] + rest, |p| - 1)
  {
    assert [p[0]] + (p[1..] + rest) == p + rest;
    forall i: nat | i < |p[1..]| ensures !TagAt(p[1..] + rest, i, Open) {
      TagAtAppend([p[0]], p[1..] + rest, i, Open);
    }
  }

  lemma ConsPrefix(p: string, x: string, y: string, tail: string)
    requires p != [] && x == [p[0]] + y && y == p[1..] + tail
    ensures x == p + tail
  {
    assert [p[0]] + p[1..] == p;
  }

  /** Where no opening tag starts at the front of `p + rest`, the first pass copies the
    * first character of `p`. */
  lemma CopiesFirstOfPrefix(p: string, rest: string)
    requires p != [] && !TagAt(p + rest, 0, Open)
    ensures RemoveClosedBlocks(p + rest) == [p[0]] + RemoveClosedBlocks(p[1..] + rest)
  {
    var s := p + rest;
    assert s[0] == p[0] && s[1..] == p[1..] + rest;
    RemoveClosedBlocksCopies(s);
  }

  /** The first pass copies a prefix in which no opening tag starts. */
  lemma {:induction false} RemoveClosedBlocksKeepsPrefix(p: string, rest: string)
    requires NoOpenWithin(p + rest, |p|)
    ensures RemoveClosedBlocks(p + rest) == p + RemoveClosedBlocks(rest)
    decreases |p|
  {
    if p != [] {
      NoOpenInTail(p, rest);
      RemoveClosedBlocksKeepsPrefix(p[1..], rest);
      CopiesFirstOfPrefix(p, rest);
      ConsPrefix(p, RemoveClosedBlocks(p + rest), RemoveClosedBlocks(p[1..] + rest), RemoveClosedBlocks(rest));
    } else {
      assert p + rest == rest;
    }
  }

  /** No opening tag starts inside a think-free `before` that is followed by a `<`. */
  lemma NoOpenBefore(before: string, block: string)
    requires NoTag(before, Open)
    requires block != [] && block[0] == '<'
    ensures NoOpenWithin(before + block, |before|)
  {
    forall i: nat | i < |before| ensures !TagAt(before + block, i, Open) {
      if i + |Open| <= |before| {
        TagAtPrefix(before, block, i, Open);
      } else {
        NoTagAcrossAngle(before, block, i, Open);
      }
    }
  }

  /** After an opening tag, the nearest closing tag is the one that ends the block. */
  lemma CloseFoundAt(open: string, inner: string, close: string, after: string)
    requires |open| == |Open| && Lower(close) == Close
    requires NoTag(inner, Close)
    ensures FindTag(open + inner + close + after, Close, |Open|) == Some(|Open| + |inner|)
  {
    var block := open + inner + close + after;
    var closeAt := |Open| + |inner|;
    var tail := close + after;
    assert block == open + (inner + tail);
    assert tail[0] == '<' by { assert LowerChar(close[0]) == '<'; }
    forall j: nat | |Open| <= j < closeAt ensures !TagAt(block, j, Close) {
      TagAtAppend(open, inner + tail, j - |Open|, Close);
      if j - |Open| + |Close| <= |inner| {
        TagAtPrefix(inner, tail, j - |Open|, Close);
      } else {
        NoTagAcrossAngle(inner, tail, j - |Open|, Close);
      }
    }
    assert TagAt(block, closeAt, Close) by {
      assert block[closeAt..closeAt + |Close|] == close;
    }
    FindTagLeast(block, Close, |Open|, closeAt);
  }

  /** The first pass removes a leading closed block and leaves what follows it. */
  lemma LeadingBlockRemoved(open: string, inner: string, close: string, after: string)
    requires Lower(open) == Open && Lower(close) == Close
    requires NoTag(inner, Close)
    ensures RemoveClosedBlocks(open + inner + close + after) == RemoveClosedBlocks(after)
  {
    var block := open + inner + close + after;
    assert block[..|Open|] == open;
    assert TagAt(block, 0, Open);
    CloseFoundAt(open, inner, close, after);
    assert block[|Open| + |inner| + |Close|..] == after;
  }

  /** A closed block, its tags in any letter case, is removed with its contents, and
    * the text before and after it is joined. */
  lemma ClosedBlockRemoved(before: string, open: string, inner: string, close: string, after: string)
    requires Lower(open) == Open && Lower(close) == Close
    requires ThinkFree(before + after)
    requires NoTag(inner, Close)
    ensures StripThinkBlocks(before + open + inner + close + after) == before + after
  {
    NoTagParts(before, after, Open);
    var block := open + inner + close + after;
    assert before + open + inner + close + after == before + block;
    assert block[0] == '<' by { assert LowerChar(open[0]) == '<'; }
    NoOpenBefore(before, block);
    RemoveClosedBlocksKeepsPrefix(before, block);
    LeadingBlockRemoved(open, inner, close, after);
    RemoveClosedBlocksNoop(after);
    RemoveTagsNoop(before + after);
  }

  /** `FindTag` returns the least position: one with the tag and none before it. */
  lemma {:induction false} FindTagLeast(s: string, tag: string, k: nat, j: nat)
    requires k <= j && TagAt(s, j, tag)
    requires forall m: nat :: k <= m < j ==> !TagAt(s, m, tag)
    ensures FindTag(s, tag, k) == Some(j)
    decreases j - k
  {
    if k < j {
      FindTagLeast(s, tag, k + 1, j);
    }
  }

  // ---------------------------------------------------------------------------
  // Extraction of the JSON object

  /** A half-open index range `[start, end)` of a text. */
  datatype Span = Span(start: nat, end: nat)

  predicate SpanOf(s: string, sp: Span) {
    sp.start <= sp.end <= |s|
  }

  const FenceOpen := "```json"
  const FenceClose := "```"

  /** The first index at or after `k` that does not hold whitespace (`\s*`). */
  function SkipSpace(s: string, k: nat): (r: nat)
    requires k <= |s|
    ensures k <= r <= |s| && (r == |s| || !IsSpace(s[r]))
    ensures forall j :: k <= j < r ==> IsSpace(s[j])
    decreases |s| - k
  {
    if k < |s| && IsSpace(s[k]) then SkipSpace(s, k + 1) else k
  }

  /** A `}` at `e` followed by optional whitespace and a closing fence. */
  predicate ClosesFence(s: string, e: nat) {
    e < |s| && s[e] == '}' && FenceClose <= s[SkipSpace(s, e + 1)..]
  }

  /** The lazy `[\s\S]*?\}\s*```: the least `e` at or after `k` that closes the fence. */
  function FenceEnd(s: string, k: nat): (r: Option<nat>)
    requires k <= |s|
    ensures r.Some? ==> k <= r.value < |s| && ClosesFence(s, r.value)
    ensures forall e :: k <= e < |s| && (r.None? || e < r.value) ==> !ClosesFence(s, e)
    decreases |s| - k
  {
    if k == |s| then None
    else if ClosesFence(s, k) then Some(k)
    else FenceEnd(s, k + 1)
  }

  /** The `{`..`}` group of a match of "```json\s*(\{[\s\S]*?\})\s*```" starting at `p`. */
  function FenceGroupAt(s: string, p: nat): (r: Option<Span>)
    requires p <= |s|
    ensures r.Some? ==> (SpanOf(s, r.value) && r.value.start < r.value.end
      && s[r.value.start] == '{' && s[r.value.end - 1] == '}')
  {
    if FenceOpen <= s[p..] then
      var q := SkipSpace(s, p + |FenceOpen|);
      if q < |s| && s[q] == '{' then
        match FenceEnd(s, q + 1)
        case Some(e) => Some(Span(q, e + 1))
        case None => None
      else None
    else None
  }

  /** `re.search` for the fenced block: the group of the leftmost match at or after `p`. */
  function FencedFrom(s: string, p: nat): (r: Option<Span>)
    requires p <= |s|
    ensures r.Some? ==> (SpanOf(s, r.value) && r.value.start < r.value.end
      && s[r.value.start] == '{' && s[r.value.end - 1] == '}')
    decreases |s| - p
  {
    if FenceGroupAt(s, p).Some? then FenceGroupAt(s, p)
    else if p == |s| then None
    else FencedFrom(s, p + 1)
  }

  function FencedBlock(text: string): (r: Option<Span>)
    ensures r.Some? ==> (SpanOf(text, r.value) && r.value.start < r.value.end
      && text[r.value.start] == '{' && text[r.value.end - 1] == '}')
  {
    FencedFrom(text, 0)
  }

  /** How many times `c` occurs in `s` (counted from the end, as the scan extends). */
  function Count(s: string, c: char): nat
    decreases |s|
  {
    if s == [] then 0 else Count(s[..|s| - 1], c) + (if s[|s| - 1] == c then 1 else 0)
  }

  /** The brace depth at the end of `s`: opening minus closing braces, string contents included. */
  function Depth(s: string): int {
    Count(s, '{') - Count(s, '}')
  }

  lemma DepthStep(s: string, i: nat, j: nat)
    requires i <= j < |s|
    ensures Depth(s[i..j + 1]) == Depth(s[i..j]) + (if s[j] == '{' then 1 else if s[j] == '}' then -1 else 0)
  {
    assert s[i..j + 1][..j - i] == s[i..j];
  }

  /** The running depth of the scan from `start` is zero just after index `e`. */
  predicate DepthZeroAt(s: string, start: nat, e: nat)
    requires start <= e < |s|
  {
    Depth(s[start..e + 1]) == 0
  }

  /** The least `e` at or after `k` at which the depth of `s[start..e + 1]` is zero. */
  function DepthZeroFrom(s: string, start: nat, k: nat): (r: Option<nat>)
    requires start <= k <= |s|
    ensures r.Some? ==> k <= r.value < |s| && DepthZeroAt(s, start, r.value)
    ensures forall e :: k <= e < |s| && (r.None? || e < r.value) ==> !DepthZeroAt(s, start, e)
    decreases |s| - k
  {
    if k == |s| then None
    else if DepthZeroAt(s, start, k) then Some(k)
    else DepthZeroFrom(s, start, k + 1)
  }

  /** The first brace-balanced span: from the first `{` to the first index where the
    * running depth is back to zero. */
  function BalancedSpan(text: string): (r: Option<Span>)
    ensures r.Some? ==> SpanOf(text, r.value) && r.value.start < r.value.end
  {
    match Find(text, '{')
    case None => None
    case Some(start) =>
      match DepthZeroFrom(text, start, start)
      case None => None
      case Some(e) => Some(Span(start, e + 1))
  }

  /** Between the first `{` and the index where the depth first returns to zero, the
    * running depth stays positive. */
  lemma {:induction false} DepthPositive(text: string, start: nat, e: nat, k: nat)
    requires start < k <= e < |text| && text[start] == '{'
    requires forall m :: start <= m < e ==> !DepthZeroAt(text, start, m)
    ensures Depth(text[start..k]) > 0
    decreases k
  {
    DepthStep(text, start, k - 1);
    if k == start + 1 {
      assert text[start..start] == [];
    } else {
      DepthPositive(text, start, e, k - 1);
      assert !DepthZeroAt(text, start, k - 1);
    }
  }

  /** The balanced span starts at the first `{`, holds as many `{` as `}`, and every
    * non-empty proper prefix of it has more `{` than `}`. */
  lemma BalancedSpanShape(text: string)
    requires BalancedSpan(text).Some?
    ensures var sp := BalancedSpan(text).value;
      && Find(text, '{') == Some(sp.start)
      && Count(Slice(text, sp), '{') == Count(Slice(text, sp), '}')
      && forall k :: sp.start < k < sp.end ==> Depth(text[sp.start..k]) > 0
  {
    var sp := BalancedSpan(text).value;
    var start := Find(text, '{').value;
    var e := DepthZeroFrom(text, start, start).value;
    assert sp == Span(start, e + 1);
    forall k | sp.start < k < sp.end ensures Depth(text[sp.start..k]) > 0 {
      DepthPositive(text, start, e, k);
    }
  }

  /** `Find` returns the first index holding the character. */
  lemma FindFirst(s: string, c: char, i: nat)
    requires i < |s| && s[i] == c && c !in s[..i]
    ensures Find(s, c) == Some(i)
  {
    assert s[..i + 1][i] == c;
  }

  /** `DepthZeroFrom` returns the least index at which the depth is zero. */
  lemma {:induction false} DepthZeroFromLeast(s: string, start: nat, k: nat, e: nat)
    requires start <= k <= e < |s| && DepthZeroAt(s, start, e)
    requires forall m :: k <= m < e ==> !DepthZeroAt(s, start, m)
    ensures DepthZeroFrom(s, start, k) == Some(e)
    decreases e - k
  {
    if k < e {
      DepthZeroFromLeast(s, start, k + 1, e);
    }
  }

  /** A brace-balanced object `j` wrapped in prose without braces before it is the
    * balanced span, whatever follows it. */
  lemma BalancedSpanOfWrapped(p: string, j: string, q: string)
    requires '{' !in p
    requires j != [] && j[0] == '{' && Depth(j) == 0
    requires forall k :: 0 < k < |j| ==> Depth(j[..k]) > 0
    ensures BalancedSpan(p + j + q) == Some(Span(|p|, |p| + |j|))
    ensures Slice(p + j + q, Span(|p|, |p| + |j|)) == j
  {
    var text := p + j + q;
    assert text[..|p|] == p;
    FindFirst(text, '{', |p|);
    var e := |p| + |j| - 1;
    forall m | |p| <= m < e ensures !DepthZeroAt(text, |p|, m) {
      assert text[|p|..m + 1] == j[..m + 1 - |p|];
      assert Depth(j[..m + 1 - |p|]) > 0;
    }
    assert text[|p|..e + 1] == j;
    DepthZeroFromLeast(text, |p|, |p|, e);
    assert text[|p|..|p| + |j|] == j;
  }

  function Slice(text: string, sp: Span): string
    requires SpanOf(text, sp)
  {
    text[sp.start..sp.end]
  }

  /** What `_extract_json_object` tries, in order: the whole text, the fenced block's
    * group when there is a match, the first balanced span when its depth closes. */
  function Candidates(text: string): (r: seq<string>)
    ensures 1 <= |r| <= 3 && r[0] == text
  {
    [text] + Listed(SpanText(text, FencedBlock(text))) + Listed(SpanText(text, BalancedSpan(text)))
  }

  /** The text of a span that was found. */
  function SpanText(text: string, span: Option<Span>): (r: Option<string>)
    requires span.Some? ==> SpanOf(text, span.value)
    ensures r.Some? <==> span.Some?
  {
    match span
    case Some(sp) => Some(Slice(text, sp))
    case None => None
  }

  /** A found candidate as a one-element list, a missing one as none. */
  function Listed(o: Option<string>): (r: seq<string>)
    ensures |r| <= 1 && (r == [] <==> o.None?)
  {
    match o
    case Some(x) => [x]
    case None => []
  }

  /** The value of the first candidate that parses. */
  function FirstParsed<J>(candidates: seq<string>, parse: string -> Option<J>): (r: Result<J>)
    ensures r.Ok? <==> exists i :: 0 <= i < |candidates| && parse(candidates[i]).Some?
    ensures r.Ok? ==> exists i :: (0 <= i < |candidates| && parse(candidates[i]) == Some(r.value)
      && forall k :: 0 <= k < i ==> parse(candidates[k]).None?)
    ensures r.Err? ==> r.error == NoJsonObject
    decreases |candidates|
  {
    if candidates == [] then Err(NoJsonObject)
    else if parse(candidates[0]).Some? then Ok(parse(candidates[0]).value)
    else
      var r := FirstParsed(candidates[1..], parse);
      if r.Ok? then
        assert forall i :: 1 <= i < |candidates| ==> candidates[i] == candidates[1..][i - 1];
        r
      else r
  }

  /** The specification of `_extract_json_object`: the whole text, then the fenced
    * block's group, then the first balanced span, each tried only when the steps
    * before it found nothing that parses. */
  function Extract<J>(text: string, parse: string -> Option<J>): (r: Result<J>)
    ensures r.Err? ==> r.error == NoJsonObject
  {
    Cascade(text, SpanText(text, FencedBlock(text)), SpanText(text, BalancedSpan(text)), parse)
  }

  /** The whole text if it parses, else the fenced block if there is one and it parses,
    * else the balanced span if there is one and it parses. */
  function Cascade<J>(text: string, fenced: Option<string>, balanced: Option<string>, parse: string -> Option<J>): (r: Result<J>)
    ensures r.Err? ==> r.error == NoJsonObject
  {
    if parse(text).Some? then Ok(parse(text).value)
    else if fenced.Some? && parse(fenced.value).Some? then Ok(parse(fenced.value).value)
    else if balanced.Some? && parse(balanced.value).Some? then Ok(parse(balanced.value).value)
    else Err(NoJsonObject)
  }


  /** The first of three candidates, of which the last two may be missing, that parses. */
  lemma FirstParsedOfThree<J>(a: string, f: Option<string>, b: Option<string>, parse: string -> Option<J>)
    ensures FirstParsed([a] + Listed(f) + Listed(b), parse) == Cascade(a, f, b, parse)
  {
    var c := [a] + Listed(f) + Listed(b);
    assert c[1..] == Listed(f) + Listed(b);
    if f.Some? {
      assert c[1..][1..] == Listed(b);
    } else {
      assert c[1..] == Listed(b);
    }
  }

  /** The extraction is the first of its candidates that parses. */
  lemma ExtractIsFirstParsed<J>(text: string, parse: string -> Option<J>)
    ensures Extract(text, parse) == FirstParsed(Candidates(text), parse)
  {
    FirstParsedOfThree(text, SpanText(text, FencedBlock(text)), SpanText(text, BalancedSpan(text)), parse);
  }

  lemma {:induction false} CountAppend(a: string, b: string, c: char)
    ensures Count(a + b, c) == Count(a, c) + Count(b, c)
    decreases |b|
  {
    if b != [] {
      assert (a + b)[..|a + b| - 1] == a + b[..|b| - 1];
      CountAppend(a, b[..|b| - 1], c);
    } else {
      assert a + b == a;
    }
  }

  lemma {:induction false} CountAbsent(s: string, c: char)
    requires c !in s
    ensures Count(s, c) == 0
    decreases |s|
  {
    if s != [] {
      assert s[..|s| - 1] + [s[|s| - 1]] == s;
      CountAbsent(s[..|s| - 1], c);
    }
  }

  /** The depth after an opening brace followed by text without braces is one. */
  lemma DepthAfterOpen(s: string)
    requires s != [] && s[0] == '{' && '{' !in s[1..] && '}' !in s[1..]
    ensures Depth(s) == 1
  {
    assert s == [s[0]] + s[1..];
    CountAppend([s[0]], s[1..], '{');
    CountAppend([s[0]], s[1..], '}');
    CountAbsent(s[1..], '{');
    CountAbsent(s[1..], '}');
    assert [s[0]][..0] == [];
  }

  /** Braces inside a JSON string count toward the depth: in `{"k": "}"}` the span
    * closes at the quoted brace. */
  lemma QuotedBraceCloses()
    ensures BalancedSpan("{\"k\": \"}\"}") == Some(Span(0, 8))
  {
    var text := "{\"k\": \"}\"}";
    FindFirst(text, '{', 0);
    forall m | 0 <= m < 7 ensures !DepthZeroAt(text, 0, m) {
      DepthAfterOpen(text[0..m + 1]);
    }
    DepthStep(text, 0, 7);
    DepthAfterOpen(text[0..7]);
    DepthZeroFromLeast(text, 0, 0, 7);
  }

  /** Once the first balanced span fails to parse no later span is tried: in `{x} {}`
    * the object `{}` is never reached. */
  lemma LaterSpanIgnored<J>(parse: string -> Option<J>)
    requires forall s :: parse(s).Some? <==> s == "{}"
    ensures Extract("{x} {}", parse).Err?
  {
    var text := "{x} {}";
    SampleHasNoFence();
    SampleFirstSpan();
    assert Slice(text, Span(0, 3)) == "{x}";
    CascadeNone(text, "{x}", parse);
  }

  lemma SampleHasNoFence()
    ensures FencedBlock("{x} {}").None?
  {
    var text := "{x} {}";
    assert forall p :: 0 <= p <= |text| ==> !(FenceOpen <= text[p..]);
  }

  /** The first balanced span of `{x} {}` is `{x}`. */
  lemma SampleFirstSpan()
    ensures BalancedSpan("{x} {}") == Some(Span(0, 3))
  {
    var text := "{x} {}";
    FindFirst(text, '{', 0);
    forall m | 0 <= m < 2 ensures !DepthZeroAt(text, 0, m) {
      DepthAfterOpen(text[0..m + 1]);
    }
    DepthStep(text, 0, 2);
    DepthAfterOpen(text[0..2]);
    DepthZeroFromLeast(text, 0, 0, 2);
  }

  /** With no fenced block, neither the text nor the balanced span parsing means no object. */
  lemma CascadeNone<J>(text: string, balanced: string, parse: string -> Option<J>)
    requires parse(text).None? && parse(balanced).None?
    ensures Cascade(text, None, Some(balanced), parse).Err?
  {
  }

  /** The depth-counting scan of `_extract_json_object`: from the `{` at `start`, the
    * first index at which the running depth is back to zero. */
  method ScanBalanced(text: string, start: nat) returns (e: Option<nat>)
    requires start < |text| && text[start] == '{'
    ensures e == DepthZeroFrom(text, start, start)
  {
    var depth := 0;
    var i := start;
    while i < |text|
      invariant start <= i <= |text|
      invariant depth == Depth(text[start..i])
      invariant i == start || depth >= 1
      invariant DepthZeroFrom(text, start, i) == DepthZeroFrom(text, start, start)
    {
      DepthStep(text, start, i);
      if text[i] == '{' {
        depth := depth + 1;
      } else if text[i] == '}' {
        depth := depth - 1;
        if depth == 0 {
          assert DepthZeroAt(text, start, i);
          return Some(i);
        }
      }
      i := i + 1;
    }
    return None;
  }

  /** `_extract_json_object`: direct parse, fenced block, then a depth-counting scan
    * from the first `{` that stops at the first span whose depth returns to zero. */
  method ExtractJsonObject<J>(text: string, parse: string -> Option<J>) returns (r: Result<J>)
    ensures r == Extract(text, parse)
  {
    var whole := parse(text);
    if whole.Some? {
      return Ok(whole.value);
    }
    var fenced := SpanText(text, FencedBlock(text));
    if fenced.Some? {
      var v := parse(fenced.value);
      if v.Some? {
        return Ok(v.value);
      }
    }
    var balanced := None;
    var found := Find(text, '{');
    if found.Some? {
      var start := found.value;
      var e := ScanBalanced(text, start);
      if e.Some? {
        balanced := Some(text[start..e.value + 1]);
        var v := parse(balanced.value);
        if v.Some? {
          assert balanced == SpanText(text, BalancedSpan(text));
          return Ok(v.value);
        }
      }
    }
    assert balanced.None? || parse(balanced.value).None?;
    assert SpanText(text, BalancedSpan(text)) == balanced;
    return Err(NoJsonObject);
  }

}
