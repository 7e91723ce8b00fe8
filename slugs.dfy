/** The two slug functions that name files: `_slugify` on the scoring side and
  * `slugify_name` on the report-generation side. */
module Slugs {

  import opened Text

  /** `_slugify`: strip, lower-case, then spaces and hyphens become underscores; on the
    * stripped text this works character by character. */
  function Slugify(text: string): (r: string)
    ensures |r| == |Strip(text)|
    ensures forall i :: 0 <= i < |r| ==> r[i] == SlugChar(Strip(text)[i])
  {
    var stripped := Strip(text);
    var lowered := Lower(stripped);
    var spaced := ReplaceChar(lowered, ' ', '_');
    ReplaceChar(spaced, '-', '_')
  }

  /** What `_slugify` does to one character of the stripped text. */
  function SlugChar(c: char): (r: char)
    ensures r != ' ' && r != '-' && !IsUpper(r)
  {
    var l := LowerChar(c);
    if l == ' ' || l == '-' then '_' else l
  }

  /** A slug holds no space, no hyphen and no upper-case letter. */
  lemma SlugifyChars(text: string)
    ensures var r := Slugify(text);
      |r| <= |text| && ' ' !in r && '-' !in r && forall i :: 0 <= i < |r| ==> !IsUpper(r[i])
  {
  }

  lemma SlugCharTwice(c: char)
    ensures SlugChar(SlugChar(c)) == SlugChar(c)
  {
  }

  lemma SlugCharSpace(c: char)
    ensures IsSpace(SlugChar(c)) ==> IsSpace(c)
  {
  }

  /** A slug neither starts nor ends with whitespace. */
  lemma SlugifyEdges(text: string)
    ensures var r := Slugify(text); r == [] || (!IsSpace(r[0]) && !IsSpace(r[|r| - 1]))
  {
    var stripped := Strip(text);
    var r := Slugify(text);
    if r != [] {
      var n := |r| - 1;
      assert !IsSpace(stripped[0]) && !IsSpace(stripped[n]);
      assert r[0] == SlugChar(stripped[0]) && r[n] == SlugChar(stripped[n]);
      SlugCharSpace(stripped[0]);
      SlugCharSpace(stripped[n]);
    }
  }

  /** A slug in the sense of `_slugify`: no whitespace at either end, and every
    * character is its own `SlugChar`. */
  predicate IsSlug(r: string) {
    && (r == [] || (!IsSpace(r[0]) && !IsSpace(r[|r| - 1])))
    && forall i :: 0 <= i < |r| ==> SlugChar(r[i]) == r[i]
  }

  /** Slugging a slug changes nothing. */
  lemma SlugifyIdempotent(text: string)
    ensures Slugify(Slugify(text)) == Slugify(text)
  {
    SlugifyIsSlug(text);
    SlugifyFixed(Slugify(text));
  }

  /** `_slugify` gives a slug. */
  lemma SlugifyIsSlug(text: string)
    ensures IsSlug(Slugify(text))
  {
    var r := Slugify(text);
    SlugifyEdges(text);
    forall i | 0 <= i < |r| ensures SlugChar(r[i]) == r[i] {
      SlugCharTwice(Strip(text)[i]);
    }
  }

  /** A slug is its own slug. */
  lemma SlugifyFixed(r: string)
    requires IsSlug(r)
    ensures Slugify(r) == r
  {
    StripNoop(r);
    assert forall i :: 0 <= i < |r| ==> Slugify(r)[i] == SlugChar(r[i]);
  }

  predicate IsSlugChar(c: char) {
    'a' <= c <= 'z' || '0' <= c <= '9'
  }

  predicate NotSlugChar(c: char) {
    !IsSlugChar(c)
  }

  predicate IsUnderscore(c: char) {
    c == '_'
  }

  /** `s.strip("_")`. */
  function StripUnderscores(s: string): (r: string)
    ensures |r| <= |s|
    ensures r == [] || (r[0] != '_' && r[|r| - 1] != '_')
  {
    TrimEnd(TrimStart(s, IsUnderscore), IsUnderscore)
  }

  predicate NoDoubleUnderscore(s: string) {
    forall i :: 0 <= i < |s| - 1 ==> !(s[i] == '_' && s[i + 1] == '_')
  }

  /** A slug in the sense of `slugify_name`: lower-case letters, digits and single
    * inner underscores. */
  predicate IsNameSlug(s: string) {
    && s != []
    && (forall i :: 0 <= i < |s| ==> IsSlugChar(s[i]) || s[i] == '_')
    && NoDoubleUnderscore(s)
    && s[0] != '_' && s[|s| - 1] != '_'
  }

  /** `encode("ascii", "ignore")`: drops every character outside ASCII. */
  function AsciiOnly(s: string): (r: string)
    ensures |r| <= |s|
    ensures forall i :: 0 <= i < |r| ==> r[i] as int < 128
    decreases |s|
  {
    if s == [] then []
    else (if s[0] as int < 128 then [s[0]] else []) + AsciiOnly(s[1..])
  }

  lemma {:induction false} AsciiOnlyNoop(s: string)
    requires forall i :: 0 <= i < |s| ==> s[i] as int < 128
    ensures AsciiOnly(s) == s
    decreases |s|
  {
    if s != [] {
      AsciiOnlyNoop(s[1..]);
    }
  }

  /** `re.sub(r"[^a-z0-9]+", "_", s)`: every maximal run of other characters becomes one `_`. */
  function SubstituteRuns(s: string): (r: string)
    ensures forall i :: 0 <= i < |r| ==> IsSlugChar(r[i]) || r[i] == '_'
    ensures NoDoubleUnderscore(r)
    ensures r == [] <==> s == []
    ensures s != [] ==> (r[0] == '_' <==> !IsSlugChar(s[0]))
    decreases |s|
  {
    if s == [] then []
    else if IsSlugChar(s[0]) then [s[0]] + SubstituteRuns(s[1..])
    else
      var rest := TrimStart(s, NotSlugChar);
      "_" + SubstituteRuns(rest)
  }

  /** `re.sub(r"_+", "_", s)`: every run of underscores becomes one. */
  function CollapseUnderscores(s: string): (r: string)
    ensures NoDoubleUnderscore(r)
    ensures |r| <= |s|
    decreases |s|
  {
    if s == [] then []
    else if s[0] != '_' then [s[0]] + CollapseUnderscores(s[1..])
    else
      var rest := TrimStart(s, IsUnderscore);
      "_" + CollapseUnderscores(rest)
  }

  lemma {:induction false} CollapseNoop(s: string)
    requires NoDoubleUnderscore(s)
    ensures CollapseUnderscores(s) == s
    decreases |s|
  {
    if s != [] {
      CollapseNoop(s[1..]);
      if s[0] == '_' {
        var rest := TrimStart(s, IsUnderscore);
        assert rest == s[1..];
      }
    }
  }

  /** `slugify_name`: ASCII only, strip, lower-case, runs of other characters to `_`,
    * runs of `_` to one, no `_` at either end, and `player` when nothing is left. */
  function SlugifyName(name: string): (r: string)
    ensures IsNameSlug(r)
  {
    var t := SubstituteRuns(Lower(Strip(AsciiOnly(name))));
    CollapseNoop(t);
    var u := StripUnderscores(CollapseUnderscores(t));
    StripUnderscoresSlug(t);
    FallbackIsNameSlug();
    if u == [] then "player" else u
  }

  lemma FallbackIsNameSlug()
    ensures IsNameSlug("player")
  {
  }

  /** Stripping the end underscores off a substituted text leaves a name slug or nothing. */
  lemma StripUnderscoresSlug(t: string)
    requires forall i :: 0 <= i < |t| ==> IsSlugChar(t[i]) || t[i] == '_'
    requires NoDoubleUnderscore(t)
    ensures StripUnderscores(t) == [] || IsNameSlug(StripUnderscores(t))
  {
    var v := TrimStart(t, IsUnderscore);
    var u := TrimEnd(v, IsUnderscore);
    var off := |t| - |v|;
    assert u == t[off..off + |u|];
    SliceKeepsSlugChars(t, off, off + |u|);
  }

  /** A slice of a text of slug characters and single underscores is one too. */
  lemma SliceKeepsSlugChars(t: string, a: nat, b: nat)
    requires a <= b <= |t|
    requires forall i :: 0 <= i < |t| ==> IsSlugChar(t[i]) || t[i] == '_'
    requires NoDoubleUnderscore(t)
    ensures forall i :: 0 <= i < b - a ==> IsSlugChar(t[a..b][i]) || t[a..b][i] == '_'
    ensures NoDoubleUnderscore(t[a..b])
  {
    assert forall i :: 0 <= i < b - a ==> t[a..b][i] == t[a + i];
  }

  lemma {:induction false} SubstituteRunsNoop(s: string)
    requires forall i :: 0 <= i < |s| ==> IsSlugChar(s[i]) || s[i] == '_'
    requires NoDoubleUnderscore(s)
    ensures SubstituteRuns(s) == s
    decreases |s|
  {
    if s != [] {
      SubstituteRunsNoop(s[1..]);
      if !IsSlugChar(s[0]) {
        assert TrimStart(s, NotSlugChar) == s[1..];
      }
    }
  }

  /** A slug character is ASCII, not whitespace and not upper case. */
  lemma SlugCharFacts(c: char)
    requires IsSlugChar(c) || c == '_'
    ensures !IsSpace(c) && !IsUpper(c) && c as int < 128
  {
  }

  /** Every name slug is a fixed point of `slugify_name`. */
  lemma NameSlugFixed(r: string)
    requires IsNameSlug(r)
    ensures SlugifyName(r) == r
  {
    forall i | 0 <= i < |r|
      ensures !IsSpace(r[i]) && !IsUpper(r[i]) && r[i] as int < 128
    {
      SlugCharFacts(r[i]);
    }
    assert AsciiOnly(r) == r by {
      AsciiOnlyNoop(r);
    }
    assert Strip(r) == r by {
      StripNoop(r);
    }
    assert Lower(r) == r by {
      LowerNoop(r);
    }
    SubstituteRunsNoop(r);
    CollapseNoop(r);
    TrimNoop(r, IsUnderscore);
  }

  /** `slugify_name` is idempotent. */
  lemma SlugifyNameIdempotent(name: string)
    ensures SlugifyName(SlugifyName(name)) == SlugifyName(name)
  {
    NameSlugFixed(SlugifyName(name));
  }
}
