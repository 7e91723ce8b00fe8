/** The document loader: the companion-name toggle between `<name>.md` and
  * `<name>_extended.md`, the search for the companion, and the merge of the two
  * reports into one evidence document (`_load_merged_markdown`). */
module Documents {

  import opened Wrappers
  import opened Text

  /** A file path: the directory components below a fixed anchor, and the file name. */
  datatype Path = Path(dirs: seq<string>, name: string)

  /** The files that exist and what reading each gives: `None` is a file that exists
    * but cannot be read. */
  type Files = map<Path, Option<string>>

  const Extended := "_extended"
  const SummariesDir := "player_summaries"
  const Separator := "\n\n---\n\n"

  /** `name.rfind('.')`, with `None` standing for -1. */
  function LastDot(s: string): (r: Option<nat>)
    ensures r.Some? ==> r.value < |s| && s[r.value] == '.' && '.' !in s[r.value + 1..]
    ensures r.None? ==> '.' !in s
    decreases |s|
  {
    if s == [] then None
    else if s[|s| - 1] == '.' then Some(|s| - 1)
    else
      var r := LastDot(s[..|s| - 1]);
      assert s == s[..|s| - 1] + [s[|s| - 1]];
      if r.Some? then
        assert s[r.value + 1..] == s[..|s| - 1][r.value + 1..] + [s[|s| - 1]];
        r
      else r
  }

  /** `PurePath.suffix`: from the last dot, when that dot is neither the first nor the
    * last character of the name. */
  function Suffix(name: string): (r: string)
    ensures r == [] || (2 <= |r| < |name| && r[0] == '.' && '.' !in r[1..] && EndsWith(name, r))
  {
    match LastDot(name)
    case Some(i) =>
      if 0 < i < |name| - 1 then
        assert name[i..][1..] == name[i + 1..];
        name[i..]
      else []
    case None => []
  }

  /** `PurePath.stem`: the name without its suffix. */
  function Stem(name: string): (r: string)
    ensures r + Suffix(name) == name
  {
    name[..|name| - |Suffix(name)|]
  }

  /** The name of the companion report: `_extended` is removed from a stem that ends
    * with it and added to any other stem, the suffix kept. */
  function CompanionName(name: string): (r: string)
  {
    var stem := Stem(name);
    if EndsWith(stem, Extended) then stem[..|stem| - |Extended|] + Suffix(name)
    else stem + Extended + Suffix(name)
  }

  /** `LastDot` finds a dot with no dot after it. */
  lemma LastDotAt(s: string, i: nat)
    requires i < |s| && s[i] == '.' && '.' !in s[i + 1..]
    ensures LastDot(s) == Some(i)
  {
    assert s[i] in s;
    var k := LastDot(s).value;
    forall j | k < j < |s| ensures s[j] == s[k + 1..][j - k - 1] {
    }
    forall j | i < j < |s| ensures s[j] == s[i + 1..][j - i - 1] {
    }
  }

  lemma SuffixOf(x: string, ext: string)
    requires x != [] && ext != [] && '.' !in ext
    ensures Suffix(x + "." + ext) == "." + ext && Stem(x + "." + ext) == x
  {
    var name := x + "." + ext;
    assert name[|x| + 1..] == ext;
    LastDotAt(name, |x|);
    assert name[|x|..] == "." + ext;
    assert Suffix(name) == "." + ext;
    assert name[..|x|] == x;
  }

  /** A base report names its extended companion. */
  lemma CompanionOfBase(x: string, ext: string)
    requires x != [] && ext != [] && '.' !in ext
    requires !EndsWith(x, Extended)
    ensures CompanionName(x + "." + ext) == x + Extended + "." + ext
  {
    SuffixOf(x, ext);
  }

  /** An extended report names its base companion. */
  lemma CompanionOfExtended(x: string, ext: string)
    requires ext != [] && '.' !in ext
    ensures CompanionName(x + Extended + "." + ext) == x + "." + ext
  {
    SuffixOf(x + Extended, ext);
    assert (x + Extended)[..|x|] == x;
    assert EndsWith(x + Extended, Extended);
  }

  /** On names `x.ext` and `x_extended.ext` with a non-empty `x` that does not itself
    * end with `_extended`, the companion toggle is an involution. */
  lemma CompanionInvolution(x: string, ext: string)
    requires x != [] && ext != [] && '.' !in ext
    requires !EndsWith(x, Extended)
    ensures CompanionName(CompanionName(x + "." + ext)) == x + "." + ext
    ensures CompanionName(CompanionName(x + Extended + "." + ext)) == x + Extended + "." + ext
  {
    CompanionOfBase(x, ext);
    CompanionOfExtended(x, ext);
  }

  /** A stem that ends with `_extended` twice is stripped only once, so two toggles do
    * not lead back to it (`a_extended_extended.md` to `a_extended.md` to `a.md`). */
  lemma DoubleExtendedNotInvolution(x: string, ext: string)
    requires ext != [] && '.' !in ext
    ensures CompanionName(x + Extended + Extended + "." + ext) == x + Extended + "." + ext
    ensures CompanionName(CompanionName(x + Extended + Extended + "." + ext)) == x + "." + ext
    ensures x + "." + ext != x + Extended + Extended + "." + ext
  {
    CompanionOfExtended(x + Extended, ext);
    CompanionOfExtended(x, ext);
  }

  /** A name ending with a dot has no suffix, so its companion `x._extended` has the
    * suffix `._extended`, and toggling again gives `x_extended._extended`. */
  lemma TrailingDotNotInvolution(x: string)
    requires x != [] && !EndsWith(x, Extended)
    ensures CompanionName(x + ".") == x + "." + Extended
    ensures CompanionName(x + "." + Extended) == x + Extended + "." + Extended
  {
    var name := x + ".";
    assert name[|x| + 1..] == [];
    LastDotAt(name, |x|);
    assert Suffix(name) == [];
    assert Stem(name) == name;
    CompanionOfBase(x, Extended);
  }

  /** `dir.parent` on directory components: one level up, the anchor being its own
    * parent. For a file in `dirs` this is the file's `parent.parent`. */
  function ParentDir(dirs: seq<string>): (r: seq<string>)
    ensures |dirs| > 0 ==> r + [dirs[|dirs| - 1]] == dirs
    ensures |dirs| == 0 ==> r == []
  {
    if |dirs| == 0 then [] else dirs[..|dirs| - 1]
  }

  /** Where the companion is looked for: beside the primary report, then in the
    * `player_summaries` directory next to the primary's directory. */
  function Sibling(primary: Path): Path {
    Path(primary.dirs, CompanionName(primary.name))
  }

  function CrossDir(primary: Path): Path {
    Path(ParentDir(primary.dirs) + [SummariesDir], CompanionName(primary.name))
  }

  /** A candidate qualifies when it exists and does not resolve to the primary report. */
  predicate Qualifies(files: Files, resolve: Path -> string, primary: Path, candidate: Path) {
    candidate in files && resolve(candidate) != resolve(primary)
  }

  /** The companion search: the sibling when it qualifies, otherwise the file in the
    * summaries directory when it qualifies, otherwise none. */
  function FindCompanion(files: Files, resolve: Path -> string, primary: Path): (r: Option<Path>)
    requires primary.name != []
    ensures r.Some? ==> (Qualifies(files, resolve, primary, r.value)
      && r.value.name == CompanionName(primary.name))
    ensures r.Some? <==> (Qualifies(files, resolve, primary, Sibling(primary))
      || Qualifies(files, resolve, primary, CrossDir(primary)))
    ensures Qualifies(files, resolve, primary, Sibling(primary)) ==> r == Some(Sibling(primary))
  {
    if Qualifies(files, resolve, primary, Sibling(primary)) then Some(Sibling(primary))
    else if Qualifies(files, resolve, primary, CrossDir(primary)) then Some(CrossDir(primary))
    else None
  }

  /** The file's text, or the empty text when it is missing or unreadable. */
  function ReadOrEmpty(files: Files, p: Path): string {
    if p in files && files[p].Some? then files[p].value else ""
  }

  /** What a found companion adds: the separator and its text, when it can be read. */
  function CompanionPart(files: Files, c: Path): string
    requires c in files
  {
    if files[c].Some? then Separator + files[c].value else ""
  }

  /** `_load_merged_markdown`: the primary text (empty when it cannot be read), followed
    * by the separator and the companion's text when a companion is found and read: the
    * sibling when it qualifies, else the file in the summaries directory when that one
    * does, else nothing is appended. */
  function LoadMergedMarkdown(files: Files, resolve: Path -> string, primary: Path): (r: string)
    requires primary.name != []
    ensures Qualifies(files, resolve, primary, Sibling(primary)) ==>
      r == ReadOrEmpty(files, primary) + CompanionPart(files, Sibling(primary))
    ensures !Qualifies(files, resolve, primary, Sibling(primary)) && Qualifies(files, resolve, primary, CrossDir(primary)) ==>
      r == ReadOrEmpty(files, primary) + CompanionPart(files, CrossDir(primary))
    ensures !Qualifies(files, resolve, primary, Sibling(primary)) && !Qualifies(files, resolve, primary, CrossDir(primary)) ==>
      r == ReadOrEmpty(files, primary)
  {
    var primaryText := ReadOrEmpty(files, primary);
    match FindCompanion(files, resolve, primary)
    case Some(c) => primaryText + CompanionPart(files, c)
    case None => primaryText
  }

  /** The merged text is the primary text, and then exactly one companion's text behind
    * the separator when a companion that is not the primary can be read. */
  lemma MergedShape(files: Files, resolve: Path -> string, primary: Path)
    requires primary.name != []
    ensures var r := LoadMergedMarkdown(files, resolve, primary);
      var primaryText := ReadOrEmpty(files, primary);
      && StartsWith(r, primaryText)
      && (r == primaryText
        || exists c :: (c in files && files[c].Some? && resolve(c) != resolve(primary)
          && c.name == CompanionName(primary.name)
          && r == primaryText + Separator + files[c].value))
  {
    var r := LoadMergedMarkdown(files, resolve, primary);
    var primaryText := ReadOrEmpty(files, primary);
    match FindCompanion(files, resolve, primary)
    case None =>
    case Some(c) =>
      if files[c].Some? {
        assert r == primaryText + (Separator + files[c].value);
        assert r == primaryText + Separator + files[c].value;
      } else {
        assert r == primaryText + "";
      }
  }

  /** The merged document of `a.md` holding "X" and `a_extended.md` holding "Y" beside
    * it is "X", the separator, then "Y"; here for any base name and any two texts. */
  lemma MergeExample(resolve: Path -> string, dirs: seq<string>, x: string, ext: string,
                     primaryText: string, companionText: string)
    requires x != [] && ext != [] && '.' !in ext && !EndsWith(x, Extended)
    requires resolve(Path(dirs, x + "." + ext)) != resolve(Path(dirs, x + Extended + "." + ext))
    ensures LoadMergedMarkdown(
      map[Path(dirs, x + "." + ext) := Some(primaryText),
          Path(dirs, x + Extended + "." + ext) := Some(companionText)],
      resolve, Path(dirs, x + "." + ext)) == primaryText + Separator + companionText
  {
    var primary := Path(dirs, x + "." + ext);
    var companion := Path(dirs, x + Extended + "." + ext);
    SiblingOfBase(dirs, x, ext);
    var files := map[primary := Some(primaryText), companion := Some(companionText)];
    MergeBeside(files, resolve, primary, companion);
  }

  /** With the sibling present, readable and distinct, the merge appends its text. */
  lemma MergeBeside(files: Files, resolve: Path -> string, primary: Path, companion: Path)
    requires primary.name != [] && Sibling(primary) == companion
    requires primary in files && files[primary].Some?
    requires companion in files && files[companion].Some? && resolve(primary) != resolve(companion)
    ensures LoadMergedMarkdown(files, resolve, primary) == files[primary].value + Separator + files[companion].value
  {
    assert Qualifies(files, resolve, primary, Sibling(primary));
    assert ReadOrEmpty(files, primary) + CompanionPart(files, companion)
      == files[primary].value + (Separator + files[companion].value);
  }

  /** The sibling of `x.ext` is `x_extended.ext` in the same directory, another file. */
  lemma SiblingOfBase(dirs: seq<string>, x: string, ext: string)
    requires x != [] && ext != [] && '.' !in ext && !EndsWith(x, Extended)
    ensures Sibling(Path(dirs, x + "." + ext)) == Path(dirs, x + Extended + "." + ext)
    ensures Path(dirs, x + "." + ext) != Path(dirs, x + Extended + "." + ext)
  {
    assert |x + "." + ext| != |x + Extended + "." + ext|;
    CompanionOfBase(x, ext);
  }

  /** An unreadable primary without a readable companion gives the empty document. */
  lemma UnreadablePrimaryIsEmpty(files: Files, resolve: Path -> string, primary: Path)
    requires primary.name != []
    requires primary in files && files[primary].None?
    requires forall c :: c in files && c != primary ==> files[c].None?
    ensures LoadMergedMarkdown(files, resolve, primary) == ""
  {
  }
}
