/** The file-name handshake between the summary agent and the scorers: the agent names a
  * report `slugify_name(f"{team} {first} {last}")`, the scorers look for
  * `_slugify(team) + "_" + _slugify(f"{first}_{last}")`. The two agree on plain names and
  * disagree as soon as a name holds a character such as an apostrophe or a period. */
module Handshake {

  import opened Text
  import opened Slugs

  predicate IsAlnum(c: char) {
    'a' <= c <= 'z' || 'A' <= c <= 'Z' || '0' <= c <= '9'
  }

  predicate IsNameSeparator(c: char) {
    c == ' ' || c == '-'
  }

  /** A plain name: ASCII letters and digits in words separated by single spaces or
    * hyphens. */
  predicate PlainName(s: string) {
    && s != []
    && (forall i :: 0 <= i < |s| ==> IsAlnum(s[i]) || IsNameSeparator(s[i]))
    && IsAlnum(s[0]) && IsAlnum(s[|s| - 1])
    && (forall i :: 0 <= i < |s| - 1 ==> IsAlnum(s[i]) || IsAlnum(s[i + 1]))
  }

  /** `SlugChar` on every character. */
  function SlugChars(s: string): (r: string)
    ensures |r| == |s| && forall i :: 0 <= i < |s| ==> r[i] == SlugChar(s[i])
  {
    seq(|s|, i requires 0 <= i < |s| => SlugChar(s[i]))
  }


  /** On a text without whitespace at either end, `_slugify` works character by character. */
  lemma SlugifyByChar(s: string)
    requires s == [] || (!IsSpace(s[0]) && !IsSpace(s[|s| - 1]))
    ensures Slugify(s) == SlugChars(s)
  {
    StripNoop(s);
  }

  /** Every character other than a slug character replaced by `_` on its own. */
  function UnderscoreOthers(t: string): (r: string)
    ensures |r| == |t|
    ensures forall i :: 0 <= i < |t| ==> r[i] == if IsSlugChar(t[i]) then t[i] else '_'
  {
    seq(|t|, i requires 0 <= i < |t| => if IsSlugChar(t[i]) then t[i] else '_')
  }

  lemma UnderscoreOthersCons(t: string)
    requires t != []
    ensures UnderscoreOthers(t) == [if IsSlugChar(t[0]) then t[0] else '_'] + UnderscoreOthers(t[1..])
  {
  }

  /** Where the character after a non-slug character is a slug character, the run
    * starting there is that one character. */
  lemma SingleRun(t: string)
    requires t != [] && !IsSlugChar(t[0])
    requires |t| > 1 ==> IsSlugChar(t[1])
    ensures SubstituteRuns(t) == "_" + SubstituteRuns(t[1..])
  {
    assert TrimStart(t, NotSlugChar) == t[1..] by {
      if |t| > 1 {
        assert TrimStart(t[1..], NotSlugChar) == t[1..];
      }
    }
  }

  /** `re.sub("[^a-z0-9]+", "_", t)` on a text in which no two other characters are
    * adjacent: each other character becomes `_` on its own. */
  lemma {:induction false} SubstituteSingles(t: string)
    requires forall i :: 0 <= i < |t| - 1 ==> IsSlugChar(t[i]) || IsSlugChar(t[i + 1])
    ensures SubstituteRuns(t) == UnderscoreOthers(t)
    decreases |t|
  {
    if t != [] {
      SubstituteSingles(t[1..]);
      UnderscoreOthersCons(t);
      if !IsSlugChar(t[0]) {
        SingleRun(t);
      }
    }
  }

  /** Plain words joined by one space stay plain. */
  lemma JoinPlain(a: string, b: string)
    requires PlainName(a) && PlainName(b)
    ensures PlainName(a + " " + b)
  {
    var s := a + " " + b;
    forall i | 0 <= i < |s|
      ensures IsAlnum(s[i]) || IsNameSeparator(s[i])
    {
      if i < |a| {
        assert s[i] == a[i];
      } else if i > |a| {
        assert s[i] == b[i - |a| - 1];
      }
    }
    forall i | 0 <= i < |s| - 1
      ensures IsAlnum(s[i]) || IsAlnum(s[i + 1])
    {
      if i < |a| - 1 {
        assert s[i] == a[i] && s[i + 1] == a[i + 1];
      } else if i == |a| - 1 {
        assert s[i] == a[|a| - 1];
      } else if i == |a| {
        assert s[i + 1] == b[0];
      } else {
        assert s[i] == b[i - |a| - 1] && s[i + 1] == b[i - |a|];
      }
    }
  }

  /** A plain name passes the ASCII filter and `strip` untouched. */
  lemma PlainUntouched(s: string)
    requires PlainName(s)
    ensures AsciiOnly(s) == s && Strip(s) == s
  {
    forall i | 0 <= i < |s| ensures s[i] as int < 128 {
    }
    AsciiOnlyNoop(s);
    StripNoop(s);
  }

  /** Lower-casing a plain name gives its character-by-character slug, except that each
    * separator becomes `_` only in the next step; no two separators touch. */
  lemma LowerPlain(s: string)
    requires PlainName(s)
    ensures |Lower(s)| == |s|
    ensures forall i :: 0 <= i < |s| - 1 ==> IsSlugChar(Lower(s)[i]) || IsSlugChar(Lower(s)[i + 1])
    ensures UnderscoreOthers(Lower(s)) == SlugChars(s)
  {
  }

  /** The character-by-character slug of a plain name neither starts nor ends with `_`
    * and has no `__`. */
  lemma SlugCharsPlain(s: string)
    requires PlainName(s)
    ensures NoDoubleUnderscore(SlugChars(s))
    ensures SlugChars(s)[0] != '_' && SlugChars(s)[|s| - 1] != '_'
  {
  }

  /** `slugify_name` of a text that the ASCII filter and `strip` leave alone, whose
    * substitution `t` already has single underscores and none at either end, is `t`. */
  lemma SlugifyNameIs(s: string, t: string)
    requires AsciiOnly(s) == s && Strip(s) == s
    requires SubstituteRuns(Lower(s)) == t
    requires t != [] && t[0] != '_' && t[|t| - 1] != '_'
    requires NoDoubleUnderscore(t)
    ensures SlugifyName(s) == t
  {
    CollapseNoop(t);
    TrimNoop(t, IsUnderscore);
  }

  /** On a plain name, `re.sub("[^a-z0-9]+", "_", ...)` after lower-casing is the
    * character-by-character slug. */
  lemma SubstitutePlain(s: string)
    requires PlainName(s)
    ensures SubstituteRuns(Lower(s)) == SlugChars(s)
  {
    LowerPlain(s);
    SubstituteSingles(Lower(s));
  }

  /** On a plain name, `slugify_name` works character by character too. */
  lemma SlugifyNameByChar(s: string)
    requires PlainName(s)
    ensures SlugifyName(s) == SlugChars(s)
  {
    PlainUntouched(s);
    SubstitutePlain(s);
    SlugCharsPlain(s);
    SlugifyNameIs(s, SlugChars(s));
  }

  /** The slug of two texts around a space or underscore is their slugs around `_`. */
  lemma SlugCharsAround(a: string, sep: char, b: string)
    requires sep == ' ' || sep == '_'
    ensures SlugChars(a + [sep] + b) == SlugChars(a) + "_" + SlugChars(b)
  {
    var l := a + [sep] + b;
    var r := SlugChars(a) + "_" + SlugChars(b);
    assert |SlugChars(l)| == |r|;
    forall i | 0 <= i < |l| ensures SlugChars(l)[i] == r[i] {
      if i < |a| {
        assert l[i] == a[i];
      } else if i > |a| {
        assert l[i] == b[i - |a| - 1];
      }
    }
  }

  /** The agent's slug of `f"{team} {first} {last}"` on plain names. */
  lemma AgentSlugPlain(team: string, first: string, last: string)
    requires PlainName(team) && PlainName(first) && PlainName(last)
    ensures SlugifyName(team + " " + first + " " + last) == SlugChars(team) + "_" + SlugChars(first) + "_" + SlugChars(last)
  {
    var tf := team + " " + first;
    JoinPlain(team, first);
    JoinPlain(tf, last);
    SlugifyNameByChar(tf + " " + last);
    assert tf == team + [' '] + first;
    assert tf + " " + last == tf + [' '] + last;
    SlugCharsAround(tf, ' ', last);
    SlugCharsAround(team, ' ', first);
  }

  /** The scorer's `_slugify(f"{first}_{last}")` on plain names. */
  lemma ScorerPlayerSlugPlain(first: string, last: string)
    requires PlainName(first) && PlainName(last)
    ensures Slugify(first + "_" + last) == SlugChars(first) + "_" + SlugChars(last)
  {
    var player := first + "_" + last;
    assert player == first + ['_'] + last;
    assert player[0] == first[0] && player[|player| - 1] == last[|last| - 1];
    SlugifyByChar(player);
    SlugCharsAround(first, '_', last);
  }

  /** The scorer's `_slugify(team)` on a plain name. */
  lemma ScorerTeamSlugPlain(team: string)
    requires PlainName(team)
    ensures Slugify(team) == SlugChars(team)
  {
    SlugifyByChar(team);
  }

  /** The handshake holds on plain names: the agent's file slug is the scorer's
    * `{team_slug}_{player_slug}`. */
  lemma HandshakeOnPlainNames(team: string, first: string, last: string)
    requires PlainName(team) && PlainName(first) && PlainName(last)
    ensures SlugifyName(team + " " + first + " " + last) == Slugify(team) + "_" + Slugify(first + "_" + last)
  {
    AgentSlugPlain(team, first, last);
    ScorerPlayerSlugPlain(first, last);
    ScorerTeamSlugPlain(team);
    Regroup(SlugChars(team), SlugChars(first), SlugChars(last));
  }

  lemma Regroup(a: string, b: string, c: string)
    ensures a + "_" + b + "_" + c == a + "_" + (b + "_" + c)
  {
  }

  /** A character that is not whitespace survives `strip`. */
  lemma StripKeeps(s: string, k: nat)
    requires k < |s| && !IsSpace(s[k])
    ensures s[k] in Strip(s)
  {
    var v := TrimStart(s, IsSpace);
    var off := |s| - |v|;
    assert k >= off;
    assert v[k - off] == s[k];
    var u := TrimEnd(v, IsSpace);
    assert k - off < |u|;
    assert u[k - off] == s[k];
  }

  /** `_slugify` keeps a character that is neither whitespace, upper case, a space nor a
    * hyphen. */
  lemma SlugifyKeeps(s: string, c: char)
    requires c in s
    requires !IsSpace(c) && !IsUpper(c) && c != '-'
    ensures c in Slugify(s)
  {
    var k :| 0 <= k < |s| && s[k] == c;
    StripKeeps(s, k);
    var stripped := Strip(s);
    var j :| 0 <= j < |stripped| && stripped[j] == c;
    assert SlugChar(c) == c;
    assert Slugify(s)[j] == c;
  }

  /** A character that `_slugify` keeps but `slugify_name` never produces breaks the
    * handshake: the scorer's slug holds it, the agent's slug cannot. */
  lemma ForeignCharBreaksHandshake(team: string, first: string, last: string, c: char)
    requires c in first
    requires !IsSpace(c) && !IsUpper(c) && c != '-' && !IsSlugChar(c) && c != '_'
    ensures SlugifyName(team + " " + first + " " + last) != Slugify(team) + "_" + Slugify(first + "_" + last)
  {
    var player := first + "_" + last;
    assert c in player by {
      var k :| 0 <= k < |first| && first[k] == c;
      assert player[k] == c;
    }
    SlugifyKeeps(player, c);
    NotInNameSlug(SlugifyName(team + " " + first + " " + last), c);
  }

  /** A name slug holds only slug characters and underscores. */
  lemma NotInNameSlug(s: string, c: char)
    requires IsNameSlug(s) && !IsSlugChar(c) && c != '_'
    ensures c !in s
  {
  }

  /** An apostrophe in the first name (`O'Reilly`) breaks the handshake. */
  lemma ApostropheBreaksHandshake(team: string, x: string, y: string, last: string)
    ensures var first := x + "'" + y;
      SlugifyName(team + " " + first + " " + last) != Slugify(team) + "_" + Slugify(first + "_" + last)
  {
    var first := x + "'" + y;
    assert first[|x|] == '\'';
    ForeignCharBreaksHandshake(team, first, last, '\'');
  }

  /** A period in the first name (`J.T.`) breaks the handshake. */
  lemma PeriodBreaksHandshake(team: string, x: string, y: string, last: string)
    ensures var first := x + "." + y;
      SlugifyName(team + " " + first + " " + last) != Slugify(team) + "_" + Slugify(first + "_" + last)
  {
    var first := x + "." + y;
    assert first[|x|] == '.';
    ForeignCharBreaksHandshake(team, first, last, '.');
  }
}
