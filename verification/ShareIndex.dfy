/** The share index as a value: what scanning and removing do to it, and when its
    cached directory sizes are right. */
module ShareIndex {
  import opened Bytes
  import opened Paths
  import opened MapSum
  import opened ShareAlias

  /** `files` and `dirs` map paths to sizes, `names` maps aliases to disk paths.
      `origin` is a history variable: the disk path each file was scanned from. */
  datatype Index = Index(
    files: map<Bytes, u64>, dirs: map<Bytes, u64>, names: map<Name, Bytes>, origin: map<Bytes, Bytes>)

  const EMPTY := Index(map[], map[], map[], map[])

  /** What the directory walk reports next. `lateFailure` is the second metadata
      read, made for the log line after the file is stored. */
  datatype WalkEvent =
    | WalkFailed
    | MetadataFailed
    | Directory
    | BadPath
    | File(rel: Bytes, size: u64, lateFailure: bool)

  datatype ScanError = WalkError | MetadataError | PathError | NoFileName

  datatype ScanResult = Added(count: nat) | Failed(error: ScanError)

  datatype ResolveResult = Resolved(path: Bytes, size: u64) | FileNotFound | MissingFirstComponent | BadShareName

  function SizeOf(m: map<Bytes, u64>, k: Bytes): u64 {
    if k in m then m[k] else 0
  }

  /** `share_key_matches`. */
  predicate KeyMatches(entry: Bytes, name: Bytes) {
    entry == name || name + [SEP] <= entry
  }

  function DiskPath(root: Bytes, rel: Bytes): Bytes {
    if root == [] || root[|root| - 1] == SEP then root + rel else root + [SEP] + rel
  }

  function IndexPath(name: Name, rel: Bytes): Bytes {
    name + [SEP] + rel
  }

  // ---------------------------------------------------- the recursive sums

  ghost function Under(files: map<Bytes, u64>, d: Bytes): map<Bytes, u64> {
    map f | f in files && Below(d, f) :: files[f]
  }

  /** The size a directory should have: all files strictly below it. */
  ghost function Total(files: map<Bytes, u64>, d: Bytes): nat {
    Sum(Under(files, d))
  }

  // ------------------------------------------------------------ operations

  /** One file's size merged into each directory of a list, in order. */
  function MergeAll(dirs: map<Bytes, u64>, above: seq<Bytes>, size: u64): map<Bytes, u64> {
    if above == [] then dirs
    else
      var done := MergeAll(dirs, above[..|above| - 1], size);
      var d := above[|above| - 1];
      done[d := WrapAdd(SizeOf(done, d), size)]
  }

  /** The same for a list without repetition, all directories at once. */
  ghost function Merged(dirs: map<Bytes, u64>, above: set<Bytes>, size: u64): map<Bytes, u64> {
    map d | d in dirs.Keys + above :: if d in above then WrapAdd(SizeOf(dirs, d), size) else dirs[d]
  }

  ghost function AboveSet(path: Bytes): set<Bytes> {
    set d | d in Ancestors(path)
  }

  ghost function AddFile(ix: Index, name: Name, root: Bytes, rel: Bytes, size: u64): Index {
    var path := IndexPath(name, rel);
    var origin := ix.origin[path := DiskPath(root, rel)];
    Index(ix.files[path := size], MergeAll(ix.dirs, Ancestors(path), size), ix.names, origin)
  }

  /** Store what the walk reports until it ends or fails. */
  ghost function Absorb(ix: Index, name: Name, root: Bytes, walk: seq<WalkEvent>): (Index, ScanResult)
    decreases |walk|
  {
    if walk == [] then (ix, Added(0))
    else
      match walk[0]
      case WalkFailed => (ix, Failed(WalkError))
      case MetadataFailed => (ix, Failed(MetadataError))
      case BadPath => (ix, Failed(PathError))
      case Directory => Absorb(ix, name, root, walk[1..])
      case File(rel, size, lateFailure) =>
        var added := AddFile(ix, name, root, rel, size);
        if lateFailure then (added, Failed(MetadataError))
        else
          var (r, result) := Absorb(added, name, root, walk[1..]);
          (r, if result.Added? then Added(result.count + 1) else result)
  }

  function Keep<V>(m: map<Bytes, V>, name: Bytes): map<Bytes, V> {
    map k | k in m && !KeyMatches(k, name) :: m[k]
  }

  /** `remove_share_dir` when the name has a directory entry. */
  function Removed(ix: Index, name: Bytes): Index
    requires name in ix.dirs
  {
    var rootSize := if [] in ix.dirs then WrapSub(ix.dirs[[]], ix.dirs[name]) else 0;
    Index(Keep(ix.files, name), Keep(ix.dirs[[] := rootSize], name), ix.names - {name}, Keep(ix.origin, name))
  }

  /** A name without a directory entry is left alone (`NoShare`). */
  function RemoveShare(ix: Index, name: Bytes): Index {
    if name in ix.dirs then Removed(ix, name) else ix
  }

  ghost function ScanShare(ix: Index, root: Bytes, walk: seq<WalkEvent>): (Index, ScanResult) {
    match AliasFor(ix.names, root)
    case None => (ix, Failed(NoFileName))
    case Some(name) =>
      var cleared := RemoveShare(ix, name);
      Absorb(cleared.(names := cleared.names[name := root]), name, root, walk)
  }

  function ComponentText(c: Component): Bytes {
    match c
    case RootDir => [SEP]
    case CurDir => [DOT]
    case ParentDir => [DOT, DOT]
    case Normal(n) => n
  }

  function ComponentTexts(cs: seq<Component>): seq<Bytes> {
    if cs == [] then [] else [ComponentText(cs[0])] + ComponentTexts(cs[1..])
  }

  /** `resolve_path`. */
  function Resolve(files: map<Bytes, u64>, names: map<Name, Bytes>, input: Bytes): ResolveResult {
    if input !in files then FileNotFound
    else
      var parts := ComponentTexts(Parse(input));
      if parts == [] then MissingFirstComponent
      else if parts[0] !in names then BadShareName
      else Resolved(DiskPath(names[parts[0]], Join(parts[1..])), files[input])
  }

  // ------------------------------------------------------------ invariants

  /** Every cached size is the recursive sum, in 64-bit arithmetic. */
  ghost predicate SumsRight(ix: Index) {
    forall d | d in ix.dirs :: ix.dirs[d] == Mod64(Total(ix.files, d))
  }

  /** Every directory above a file is present. */
  ghost predicate AncestorsPresent(ix: Index) {
    forall f, d | f in ix.files && Below(d, f) :: d in ix.dirs
  }

  ghost predicate Accounted(ix: Index) {
    SumsRight(ix) && AncestorsPresent(ix)
  }

  /** A file path is an alias and at least one more name. */
  predicate FilePath(names: set<Name>, f: Bytes) {
    WellFormed(f) && |Split(f)| >= 2 && Split(f)[0] in names
  }

  /** Only the root may be a directory with no file below it. */
  ghost predicate DirsNeeded(ix: Index) {
    forall d | d in ix.dirs && d != [] :: exists f :: f in ix.files && Below(d, f)
  }

  ghost predicate OriginsRight(ix: Index) {
    && ix.origin.Keys == ix.files.Keys
    && forall f | f in ix.files ::
         var cs := Split(f);
         cs[0] in ix.names && ix.origin[f] == DiskPath(ix.names[cs[0]], Join(cs[1..]))
  }

  ghost predicate Tree(files: map<Bytes, u64>) {
    forall f, g | f in files && g in files :: !Below(f, g)
  }

  ghost predicate Valid(ix: Index) {
    && AliasesSound(ix.names)
    && (forall f | f in ix.files :: FilePath(ix.names.Keys, f))
    && Tree(ix.files)
    && Accounted(ix)
    && DirsNeeded(ix)
    && OriginsRight(ix)
  }

  /** What a walk of a directory tree reports: each file once, by a relative path
      of listing names, and no file inside another. */
  ghost predicate WalkOfTree(walk: seq<WalkEvent>) {
    && (forall i | 0 <= i < |walk| && walk[i].File? :: WellFormed(walk[i].rel))
    && (forall i, j | 0 <= i < |walk| && 0 <= j < |walk| && i != j && walk[i].File? && walk[j].File? ::
          walk[i].rel != walk[j].rel && !Below(walk[i].rel, walk[j].rel))
  }

  // ----------------------------------------------------------- path lemmas

  lemma IndexPathSplits(name: Name, rel: Bytes)
    requires GoodName(name) && WellFormed(rel)
    ensures var f := IndexPath(name, rel);
            f != [] && WellFormed(f) && Split(f) == [name] + Split(rel) && Join(Split(f)[1..]) == rel
  {
    SplitAppend(name, rel);
    SplitSingle(name);
    JoinSplit(rel);
    assert ([name] + Split(rel))[1..] == Split(rel);
  }

  /** Below an alias means having it as first component. */
  lemma MatchesIsFirst(name: Name, d: Bytes)
    requires GoodName(name) && d != []
    ensures KeyMatches(d, name) <==> Split(d)[0] == name
  {
    SplitSingle(name);
    BelowIsComponentPrefix(name, d);
    if Split(d)[0] == name {
      if |Split(d)| == 1 {
        assert Split(d) == Split(name);
        ComponentsInjective(d, name);
      }
    }
  }

  lemma BelowSharesFirst(d: Bytes, f: Bytes)
    requires d != [] && Below(d, f)
    ensures Split(d)[0] == Split(f)[0] && |Split(d)| < |Split(f)|
  {
    BelowIsComponentPrefix(d, f);
  }

  lemma SiblingPaths(name: Name, rel: Bytes, other: Bytes)
    ensures IndexPath(name, rel) == IndexPath(name, other) <==> rel == other
    ensures rel != [] ==> (Below(IndexPath(name, rel), IndexPath(name, other)) <==> Below(rel, other))
  {
    var p, q := IndexPath(name, rel), IndexPath(name, other);
    assert p[|name| + 1..] == rel && q[|name| + 1..] == other;
    if Below(rel, other) && rel != [] {
      assert q == p + [SEP] + other[|rel| + 1..];
    }
    if Below(p, q) {
      var t := q[|p| + 1..];
      assert q == p + [SEP] + t;
      assert other == rel + [SEP] + t;
    }
  }

  /** On disk a file has the components of the shared directory followed by its own,
      whether or not the directory was given with a trailing separator. */
  lemma DiskPathIs(root: Bytes, rel: Bytes)
    requires WellFormed(rel)
    ensures Parse(DiskPath(root, rel)) == Parse(root) + Inner(Split(rel))
    ensures root != [] && root[|root| - 1] != SEP ==> Below(root, DiskPath(root, rel))
  {
    hide Parse, Split, Inner, WellFormed;
    var disk := DiskPath(root, rel);
    ParseIs(root);
    ParseIs(disk);
    NothingInEmpty();
    if root == [] {
      assert disk == rel;
      StartsInside(rel);
    } else if root[|root| - 1] == SEP {
      var stem := root[..|root| - 1];
      assert root == stem + [SEP] + [] && disk == stem + [SEP] + rel;
      SplitAppend(stem, []);
      SplitAppend(stem, rel);
      InnerAppend(Split(stem), [[]]);
      InnerAppend(Split(stem), Split(rel));
    } else {
      SplitAppend(root, rel);
      InnerAppend(Split(root), Split(rel));
    }
  }

  lemma NothingInEmpty()
    ensures Split([]) == [[]] && Inner([[]]) == []
  {
    SplitEmpty();
  }

  lemma StartsInside(rel: Bytes)
    requires WellFormed(rel)
    ensures Opening(rel) == []
  {
    assert Split(rel)[0] in Split(rel);
  }

  // ------------------------------------------------------------ sum lemmas

  lemma TotalAfterInsert(files: map<Bytes, u64>, f: Bytes, size: u64, d: Bytes)
    requires f !in files
    ensures Total(files[f := size], d) == Total(files, d) + if Below(d, f) then size else 0
  {
    var u := Under(files, d);
    if Below(d, f) {
      assert Under(files[f := size], d) == u[f := size];
      SumInsert(u, f, size);
    } else {
      assert Under(files[f := size], d) == u;
    }
  }

  lemma EmptyTotal(files: map<Bytes, u64>, d: Bytes)
    requires forall f | f in files :: !Below(d, f)
    ensures Total(files, d) == 0
  {
    assert Under(files, d) == map[];
  }

  /** Dropping the files at or below `name` takes its total off every directory
      above it, and nothing off a directory that has no file in common. */
  lemma TotalAfterKeep(files: map<Bytes, u64>, name: Bytes, d: Bytes)
    requires name !in files
    ensures Below(d, name) ==> Total(files, d) == Total(Keep(files, name), d) + Total(files, name)
    ensures (forall f | f in files && Below(d, f) :: !KeyMatches(f, name)) ==>
              Total(files, d) == Total(Keep(files, name), d)
  {
    var kept := Under(Keep(files, name), d);
    if Below(d, name) {
      var gone := Under(files, name);
      assert forall f | f in gone :: f in Under(files, d);
      assert Under(files, d) == kept + gone;
      SumUnion(kept, gone);
    }
    if forall f | f in files && Below(d, f) :: !KeyMatches(f, name) {
      assert kept == Under(files, d);
    }
  }
}
