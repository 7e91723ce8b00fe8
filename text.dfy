/** The Python string operations the pipeline relies on, over `seq<char>`:
  * `str.strip`, ASCII `str.lower`, `str.replace`, `str.split`/`str.join`,
  * `str.find`, `str.endswith` and the `in` test for substrings. */
module Text {

  import opened Wrappers

  /** `str.isspace()`: the characters Python treats as whitespace (also `\s` in a regex). */
  predicate IsSpace(c: char) {
    c == ' ' || ('\t' <= c <= '\r') || ('\U{1c}' <= c <= '\U{1f}') || c == '\U{85}' || c == '\U{a0}'
    || c == '\U{1680}' || ('\U{2000}' <= c <= '\U{200a}') || c == '\U{2028}' || c == '\U{2029}'
    || c == '\U{202f}' || c == '\U{205f}' || c == '\U{3000}'
  }

  /** Drops the leading characters that satisfy `drop`. */
  function TrimStart(s: string, drop: char -> bool): (r: string)
    ensures |r| <= |s| && r == s[|s| - |r|..]
    ensures r == [] || !drop(r[0])
    ensures forall k :: 0 <= k < |s| - |r| ==> drop(s[k])
    decreases |s|
  {
    if s != [] && drop(s[0]) then TrimStart(s[1..], drop) else s
  }

  /** Drops the trailing characters that satisfy `drop`. */
  function TrimEnd(s: string, drop: char -> bool): (r: string)
    ensures |r| <= |s| && r == s[..|r|]
    ensures r == [] || !drop(r[|r| - 1])
    ensures forall k :: |r| <= k < |s| ==> drop(s[k])
    decreases |s|
  {
    if s != [] && drop(s[|s| - 1]) then TrimEnd(s[..|s| - 1], drop) else s
  }

  /** `s.strip()`: removes leading and trailing whitespace. */
  function Strip(s: string): (r: string)
    ensures |r| <= |s|
    ensures r == [] || (!IsSpace(r[0]) && !IsSpace(r[|r| - 1]))
  {
    TrimEnd(TrimStart(s, IsSpace), IsSpace)
  }

  /** Removing what is not there changes nothing. */
  lemma TrimNoop(s: string, drop: char -> bool)
    requires s == [] || (!drop(s[0]) && !drop(s[|s| - 1]))
    ensures TrimEnd(TrimStart(s, drop), drop) == s
  {
  }

  lemma StripNoop(s: string)
    requires s == [] || (!IsSpace(s[0]) && !IsSpace(s[|s| - 1]))
    ensures Strip(s) == s
  {
    TrimNoop(s, IsSpace);
  }

  predicate IsUpper(c: char) { 'A' <= c <= 'Z' }

  /** ASCII `str.lower` on one character. */
  function LowerChar(c: char): (r: char)
    ensures !IsUpper(r)
    ensures IsUpper(c) ==> r as int == c as int + 32
    ensures !IsUpper(c) ==> r == c
  {
    if IsUpper(c) then (c as int + 32) as char else c
  }

  /** ASCII `str.lower`. */
  function Lower(s: string): (r: string)
    ensures |r| == |s|
    ensures forall i :: 0 <= i < |s| ==> r[i] == LowerChar(s[i])
  {
    seq(|s|, i requires 0 <= i < |s| => LowerChar(s[i]))
  }

  /** A text without upper-case letters is its own lower case. */
  lemma LowerNoop(s: string)
    requires forall i :: 0 <= i < |s| ==> !IsUpper(s[i])
    ensures Lower(s) == s
  {
  }

  /** Lower-casing twice is lower-casing once. */
  lemma LowerIdempotent(s: string)
    ensures Lower(Lower(s)) == Lower(s)
  {
    LowerNoop(Lower(s));
  }

  /** `s.replace(a, b)` for single characters `a` and `b`. */
  function ReplaceChar(s: string, a: char, b: char): (r: string)
    ensures |r| == |s|
    ensures forall i :: 0 <= i < |s| ==> r[i] == (if s[i] == a then b else s[i])
  {
    seq(|s|, i requires 0 <= i < |s| => if s[i] == a then b else s[i])
  }

  /** After the replacement no `a` is left (unless it is its own replacement), and a
    * text without `a` is unchanged. */
  lemma ReplaceCharRemoves(s: string, a: char, b: char)
    ensures a != b ==> a !in ReplaceChar(s, a, b)
    ensures a !in s ==> ReplaceChar(s, a, b) == s
  {
    var r := ReplaceChar(s, a, b);
    if a != b {
      forall i | 0 <= i < |r| ensures r[i] != a {
      }
    }
  }

  /** Python's `a or b` on text: `a` unless it is empty. */
  function Or(a: string, b: string): (r: string)
    ensures r == a || r == b
    ensures r == [] ==> a == [] && b == []
  {
    if a != [] then a else b
  }

  predicate StartsWith(s: string, prefix: string) {
    prefix <= s
  }

  predicate EndsWith(s: string, suffix: string) {
    |suffix| <= |s| && s[|s| - |suffix|..] == suffix
  }

  /** `s.find(c)`: the first index holding `c`, `None` standing for -1. */
  function Find(s: string, c: char): (r: Option<nat>)
    ensures r.Some? ==> r.value < |s| && s[r.value] == c && c !in s[..r.value]
    ensures r.None? ==> c !in s
    decreases |s|
  {
    if s == [] then None
    else if s[0] == c then Some(0)
    else
      match Find(s[1..], c)
      case None => None
      case Some(i) => assert s[..i + 1] == [s[0]] + s[1..][..i]; Some(i + 1)
  }

  /** `pattern in s`. */
  predicate Contains(s: string, pattern: string)
    decreases |s|
  {
    pattern <= s || (s != [] && Contains(s[1..], pattern))
  }

  /** `s.replace(pattern, replacement)`: every occurrence, left to right, without overlaps. */
  function ReplaceAll(s: string, pattern: string, replacement: string): string
    requires pattern != []
    decreases |s|
  {
    if s == [] then []
    else if pattern <= s then replacement + ReplaceAll(s[|pattern|..], pattern, replacement)
    else [s[0]] + ReplaceAll(s[1..], pattern, replacement)
  }

  /** `s.split(pattern)`: the pieces between the occurrences `ReplaceAll` replaces. */
  function Split(s: string, pattern: string): (pieces: seq<string>)
    requires pattern != []
    ensures |pieces| >= 1
    decreases |s|
  {
    if s == [] then [[]]
    else if pattern <= s then [[]] + Split(s[|pattern|..], pattern)
    else
      var rest := Split(s[1..], pattern);
      [[s[0]] + rest[0]] + rest[1..]
  }

  /** `separator.join(pieces)`. */
  function Join(pieces: seq<string>, separator: string): string
    requires |pieces| >= 1
    decreases |pieces|
  {
    if |pieces| == 1 then pieces[0] else pieces[0] + separator + Join(pieces[1..], separator)
  }

  lemma JoinConsHead(c: char, pieces: seq<string>, separator: string)
    requires |pieces| >= 1
    ensures Join([[c] + pieces[0]] + pieces[1..], separator) == [c] + Join(pieces, separator)
  {
    if |pieces| > 1 {
      assert ([[c] + pieces[0]] + pieces[1..])[1..] == pieces[1..];
    }
  }

  lemma JoinConsEmpty(pieces: seq<string>, separator: string)
    requires |pieces| >= 1
    ensures Join([[]] + pieces, separator) == separator + Join(pieces, separator)
  {
    assert ([[]] + pieces)[1..] == pieces;
  }

  /** Splitting on a pattern and joining with it again gives back the text. */
  lemma {:induction false} SplitJoin(s: string, pattern: string)
    requires pattern != []
    ensures Join(Split(s, pattern), pattern) == s
    decreases |s|
  {
    if s == [] {
    } else if pattern <= s {
      var tail := s[|pattern|..];
      SplitJoin(tail, pattern);
      JoinConsEmpty(Split(tail, pattern), pattern);
      assert s == pattern + tail;
    } else {
      var rest := Split(s[1..], pattern);
      SplitJoin(s[1..], pattern);
      JoinConsHead(s[0], rest, pattern);
      assert s == [s[0]] + s[1..];
    }
  }

  /** Replacing is splitting and joining with the replacement: the pieces between
    * occurrences are kept and every occurrence becomes `replacement`. */
  lemma {:induction false} ReplaceIsSplitJoin(s: string, pattern: string, replacement: string)
    requires pattern != []
    ensures ReplaceAll(s, pattern, replacement) == Join(Split(s, pattern), replacement)
    decreases |s|
  {
    if s == [] {
    } else if pattern <= s {
      var tail := s[|pattern|..];
      ReplaceIsSplitJoin(tail, pattern, replacement);
      JoinConsEmpty(Split(tail, pattern), replacement);
    } else {
      var rest := Split(s[1..], pattern);
      ReplaceIsSplitJoin(s[1..], pattern, replacement);
      JoinConsHead(s[0], rest, replacement);
    }
  }

  /** No piece of a split contains the pattern: every occurrence was cut out. */
  lemma {:induction false} SplitPiecesFree(s: string, pattern: string, k: nat)
    requires pattern != []
    requires k < |Split(s, pattern)|
    ensures !Contains(Split(s, pattern)[k], pattern)
    decreases |s|
  {
    if s == [] {
    } else if pattern <= s {
      if k > 0 {
        SplitPiecesFree(s[|pattern|..], pattern, k - 1);
      }
    } else {
      var rest := Split(s[1..], pattern);
      SplitPiecesFree(s[1..], pattern, k);
      if k == 0 {
        var piece := [s[0]] + rest[0];
        assert piece[1..] == rest[0];
        SplitPieceIsPrefix(s, pattern);
        assert !(pattern <= piece);
      }
    }
  }

  /** The first piece of a split is a prefix of the text. */
  lemma {:induction false} SplitPieceIsPrefix(s: string, pattern: string)
    requires pattern != []
    ensures Split(s, pattern)[0] <= s
    decreases |s|
  {
    if s != [] && !(pattern <= s) {
      SplitPieceIsPrefix(s[1..], pattern);
    }
  }

  /** A text without the pattern is left as it is by `replace`. */
  lemma {:induction false} ReplaceAbsent(s: string, pattern: string, replacement: string)
    requires pattern != []
    requires !Contains(s, pattern)
    ensures ReplaceAll(s, pattern, replacement) == s
    decreases |s|
  {
    if s != [] {
      ReplaceAbsent(s[1..], pattern, replacement);
    }
  }
}
