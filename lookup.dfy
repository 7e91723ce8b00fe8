/** Finding a player's report among the summary files: the index of reports by
  * lower-cased stem, the order its keys are searched in, and the three-tier lookup shared
  * by the batch driver and the scorer's roster mode. */
module Lookup {

  import opened Wrappers
  import opened Text
  import opened Documents

  /** The index key of a report: its stem, lower-cased. */
  function StemKey(p: Path): string {
    Lower(Stem(p.name))
  }

  /** The stem index of the report files, in the order they are listed. */
  function StemIndex(files: seq<Path>): map<string, Path> {
    Index(files, |files|, StemKey)
  }

  /** `{key(p): p for p in files}` over the first `n` files; the stem index is this with
    * `StemKey`. */
  function Index(files: seq<Path>, n: nat, key: Path -> string): map<string, Path>
    requires n <= |files|
  {
    if n == 0 then map[] else Index(files, n - 1, key)[key(files[n - 1]) := files[n - 1]]
  }

  /** The index holds exactly the keys of the files, each mapped to a file with that key. */
  lemma {:induction false} IndexKeys(files: seq<Path>, n: nat, key: Path -> string)
    requires n <= |files|
    ensures forall k :: k in Index(files, n, key) <==> exists i :: 0 <= i < n && key(files[i]) == k
    ensures forall k :: k in Index(files, n, key) ==> key(Index(files, n, key)[k]) == k
    ensures forall k :: k in Index(files, n, key) ==> Index(files, n, key)[k] in files
  {
    if n > 0 {
      IndexKeys(files, n - 1, key);
    }
  }

  /** Of several files with the same key, the later one in the list is the one indexed. */
  lemma {:induction false} LaterFileWins(files: seq<Path>, n: nat, key: Path -> string, i: nat)
    requires i < n <= |files|
    requires forall j :: i < j < n ==> key(files[j]) != key(files[i])
    ensures key(files[i]) in Index(files, n, key)
    ensures Index(files, n, key)[key(files[i])] == files[i]
  {
    if i < n - 1 {
      LaterFileWins(files, n - 1, key, i);
    }
  }

  /** `list(index.keys())` over the first `n` files: each key where it first appears, an
    * overwrite keeping the key's place. */
  function KeyOrder(files: seq<Path>, n: nat, key: Path -> string): seq<string>
    requires n <= |files|
  {
    if n == 0 then []
    else
      var order := KeyOrder(files, n - 1, key);
      if key(files[n - 1]) in order then order else order + [key(files[n - 1])]
  }

  predicate Distinct(s: seq<string>) {
    forall i, j :: 0 <= i < j < |s| ==> s[i] != s[j]
  }

  /** The key order lists every key of the index exactly once. */
  lemma {:induction false} KeyOrderListsKeys(files: seq<Path>, n: nat, key: Path -> string)
    requires n <= |files|
    ensures forall k :: k in KeyOrder(files, n, key) <==> k in Index(files, n, key)
    ensures Distinct(KeyOrder(files, n, key))
  {
    if n > 0 {
      KeyOrderListsKeys(files, n - 1, key);
    }
  }

  /** Some file with key `k1` comes, among the first `n`, before every file with key `k2`. */
  predicate SeenBefore(files: seq<Path>, n: nat, key: Path -> string, k1: string, k2: string)
    requires n <= |files|
  {
    exists a :: 0 <= a < n && key(files[a]) == k1 && forall b :: 0 <= b < n && key(files[b]) == k2 ==> a < b
  }

  /** The keys in the order lists where each first appears among the files: of two
    * keys, the earlier one in the order belongs to a file listed before every file of
    * the later one. */
  lemma {:induction false} KeyOrderFirstSeen(files: seq<Path>, n: nat, key: Path -> string)
    requires n <= |files|
    ensures forall i, j :: 0 <= i < j < |KeyOrder(files, n, key)| ==>
      SeenBefore(files, n, key, KeyOrder(files, n, key)[i], KeyOrder(files, n, key)[j])
  {
    if n > 0 {
      KeyOrderFirstSeen(files, n - 1, key);
      var prev := KeyOrder(files, n - 1, key);
      var order := KeyOrder(files, n, key);
      var x := key(files[n - 1]);
      KeyOrderListsKeys(files, n - 1, key);
      IndexKeys(files, n - 1, key);
      forall i, j | 0 <= i < j < |order| ensures SeenBefore(files, n, key, order[i], order[j]) {
        if j < |prev| {
          assert order[i] == prev[i] && order[j] == prev[j];
          assert SeenBefore(files, n - 1, key, prev[i], prev[j]);
          var a :| 0 <= a < n - 1 && key(files[a]) == prev[i]
            && forall b :: 0 <= b < n - 1 && key(files[b]) == prev[j] ==> a < b;
          assert key(files[a]) == order[i];
        } else {
          assert x !in prev && order[j] == x && order[i] == prev[i];
          assert prev[i] in Index(files, n - 1, key);
          var a :| 0 <= a < n - 1 && key(files[a]) == prev[i];
          assert forall b :: 0 <= b < n && key(files[b]) == x ==> a < b;
        }
      }
    }
  }

  /** Python's string order: code point by code point, a proper prefix first. */
  predicate LexLe(a: string, b: string)
    decreases |a|
  {
    a == [] || (b != [] && (a[0] < b[0] || (a[0] == b[0] && LexLe(a[1..], b[1..]))))
  }

  lemma {:induction false} LexLeTotal(a: string, b: string)
    ensures LexLe(a, b) || LexLe(b, a)
    decreases |a|
  {
    if a != [] && b != [] && a[0] == b[0] {
      LexLeTotal(a[1..], b[1..]);
    }
  }

  lemma {:induction false} LexLeAntisymmetric(a: string, b: string)
    requires LexLe(a, b) && LexLe(b, a)
    ensures a == b
    decreases |a|
  {
    if a != [] {
      LexLeAntisymmetric(a[1..], b[1..]);
      assert a == [a[0]] + a[1..] && b == [b[0]] + b[1..];
    }
  }

  lemma {:induction false} LexLeTransitive(a: string, b: string, c: string)
    requires LexLe(a, b) && LexLe(b, c)
    ensures LexLe(a, c)
    decreases |a|
  {
    if a != [] && a[0] == b[0] && b[0] == c[0] {
      LexLeTransitive(a[1..], b[1..], c[1..]);
    }
  }

  predicate Sorted(s: seq<string>) {
    forall i, j :: 0 <= i < j < |s| ==> LexLe(s[i], s[j])
  }

  /** One step of the insertion sort that stands for `sorted`. */
  function Insert(x: string, s: seq<string>): (r: seq<string>)
    requires Sorted(s)
    ensures Sorted(r) && multiset(r) == multiset(s) + multiset{x}
  {
    if s == [] then [x]
    else if LexLe(x, s[0]) then
      assert forall j :: 0 < j < |s| ==> LexLe(x, s[j]) by {
        forall j | 0 < j < |s| ensures LexLe(x, s[j]) {
          LexLeTransitive(x, s[0], s[j]);
        }
      }
      [x] + s
    else
      LexLeTotal(x, s[0]);
      var rest := Insert(x, s[1..]);
      assert s == [s[0]] + s[1..];
      assert forall k :: 0 <= k < |rest| ==> LexLe(s[0], rest[k]) by {
        forall k | 0 <= k < |rest| ensures LexLe(s[0], rest[k]) {
          assert rest[k] in multiset(rest);
          if rest[k] != x {
            assert rest[k] in multiset(s[1..]);
            var j :| 0 <= j < |s[1..]| && s[1..][j] == rest[k];
            assert s[j + 1] == rest[k];
          }
        }
      }
      [s[0]] + rest
  }

  /** `sorted(keys)`. */
  function Sort(s: seq<string>): (r: seq<string>)
    ensures Sorted(r) && multiset(r) == multiset(s)
  {
    if s == [] then []
    else
      assert s == [s[0]] + s[1..];
      Insert(s[0], Sort(s[1..]))
  }

  /** The position of the first key ending with `slug`. */
  function FirstEnding(order: seq<string>, slug: string): (r: Option<nat>)
    ensures r.Some? ==> (r.value < |order| && EndsWith(order[r.value], slug)
      && forall j :: 0 <= j < r.value ==> !EndsWith(order[j], slug))
    ensures r.None? ==> forall j :: 0 <= j < |order| ==> !EndsWith(order[j], slug)
    decreases |order|
  {
    if order == [] then None
    else if EndsWith(order[0], slug) then Some(0)
    else
      match FirstEnding(order[1..], slug)
      case Some(i) => Some(i + 1)
      case None => None
  }

  /** In a sorted order the first key ending with `slug` is the least such key. */
  lemma FirstEndingIsLeast(order: seq<string>, slug: string, k: string)
    requires Sorted(order) && FirstEnding(order, slug).Some?
    requires k in order && EndsWith(k, slug)
    ensures LexLe(order[FirstEnding(order, slug).value], k)
  {
    var i := FirstEnding(order, slug).value;
    var j :| 0 <= j < |order| && order[j] == k;
    if j == i {
      LexLeTotal(k, k);
    }
  }

  /** The report for a roster row: `{team_slug}_{player_slug}`, then `{player_slug}`, then
    * the first key in `order` ending with the player slug. */
  function FindReport(index: map<string, Path>, order: seq<string>, teamSlug: string, playerSlug: string): (r: Option<Path>)
    requires forall k :: k in order ==> k in index
    ensures teamSlug + "_" + playerSlug in index ==> r == Some(index[teamSlug + "_" + playerSlug])
    ensures teamSlug + "_" + playerSlug !in index && playerSlug in index ==> r == Some(index[playerSlug])
    ensures teamSlug + "_" + playerSlug !in index && playerSlug !in index ==>
      (r.Some? <==> (exists k :: k in order && EndsWith(k, playerSlug)))
    ensures teamSlug + "_" + playerSlug !in index && playerSlug !in index && r.Some? ==>
      exists i :: 0 <= i < |order| && EndsWith(order[i], playerSlug) && r == Some(index[order[i]])
        && forall j :: 0 <= j < i ==> !EndsWith(order[j], playerSlug)
    ensures r.Some? ==> exists k :: k in index && index[k] == r.value
  {
    var exact := teamSlug + "_" + playerSlug;
    if exact in index then Some(index[exact])
    else if playerSlug in index then Some(index[playerSlug])
    else
      match FirstEnding(order, playerSlug)
      case Some(i) => Some(index[order[i]])
      case None => None
  }
}
