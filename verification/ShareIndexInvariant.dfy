/** Every run of scans, rescans, aborted scans and removals keeps the directory
    sizes right, and exactly which removals do. */
module ShareIndexInvariant {
  import opened Bytes
  import opened Paths
  import opened MapSum
  import opened ShareAlias
  import opened ShareIndex

  // -------------------------------------------------------- 64-bit algebra

  lemma WrapSubTracks(cached: u64, part: u64, total: nat, gone: nat)
    requires cached == Mod64(total + gone) && part == Mod64(gone)
    ensures WrapSub(cached, part) == Mod64(total)
  {
  }

  lemma SameResidue(total: nat, gone: nat)
    ensures Mod64(total + gone) == Mod64(total) <==> Mod64(gone) == 0
  {
  }

  // -------------------------------------------------------------- one file

  /** `path` may join the files of `ix`: it is new, and neither inside a file nor
      around one. */
  ghost predicate Fits(files: map<Bytes, u64>, path: Bytes) {
    path !in files && forall f | f in files :: !Below(path, f) && !Below(f, path)
  }

  lemma MergedOneMore(dirs: map<Bytes, u64>, above: set<Bytes>, d: Bytes, size: u64)
    requires d !in above
    ensures var done := Merged(dirs, above, size);
            done[d := WrapAdd(SizeOf(done, d), size)] == Merged(dirs, above + {d}, size)
  {
  }

  ghost function SetOf(s: seq<Bytes>): set<Bytes> {
    set d | d in s
  }

  lemma SetOfLonger(s: seq<Bytes>)
    requires s != []
    ensures SetOf(s) == SetOf(s[..|s| - 1]) + {s[|s| - 1]}
  {
    assert s == s[..|s| - 1] + [s[|s| - 1]];
  }

  lemma {:induction false} MergeAllIs(dirs: map<Bytes, u64>, above: seq<Bytes>, size: u64)
    requires forall i, j | 0 <= i < j < |above| :: above[i] != above[j]
    ensures MergeAll(dirs, above, size) == Merged(dirs, SetOf(above), size)
  {
    if above == [] {
      assert Merged(dirs, {}, size) == dirs;
    } else {
      var n := |above| - 1;
      var before := SetOf(above[..n]);
      MergeAllIs(dirs, above[..n], size);
      SetOfLonger(above);
      assert above[n] !in before;
      MergedOneMore(dirs, before, above[n], size);
    }
  }

  lemma AddedDirs(ix: Index, name: Name, root: Bytes, rel: Bytes, size: u64)
    requires GoodName(name) && WellFormed(rel)
    ensures var path := IndexPath(name, rel);
            && AddFile(ix, name, root, rel, size).dirs == Merged(ix.dirs, AboveSet(path), size)
            && path != [] && forall d :: d in AboveSet(path) <==> Below(d, path)
  {
    IndexPathSplits(name, rel);
    AncestorsAreAbove(IndexPath(name, rel));
    MergeAllIs(ix.dirs, Ancestors(IndexPath(name, rel)), size);
    assert SetOf(Ancestors(IndexPath(name, rel))) == AboveSet(IndexPath(name, rel));
  }

  lemma MergedAt(files: map<Bytes, u64>, dirs: map<Bytes, u64>, path: Bytes, size: u64, d: Bytes)
    requires path !in files
    requires if d in dirs then dirs[d] == Mod64(Total(files, d)) else forall f | f in files :: !Below(d, f)
    ensures Below(d, path) ==> WrapAdd(SizeOf(dirs, d), size) == Mod64(Total(files[path := size], d))
    ensures !Below(d, path) && d in dirs ==> dirs[d] == Mod64(Total(files[path := size], d))
  {
    TotalAfterInsert(files, path, size, d);
    if d !in dirs { EmptyTotal(files, d); }
  }

  lemma AddFileAccounted(ix: Index, name: Name, root: Bytes, rel: Bytes, size: u64)
    requires Accounted(ix) && GoodName(name) && WellFormed(rel)
    requires IndexPath(name, rel) !in ix.files
    ensures Accounted(AddFile(ix, name, root, rel, size))
  {
    var path := IndexPath(name, rel);
    var r := AddFile(ix, name, root, rel, size);
    AddedDirs(ix, name, root, rel, size);
    forall d | d in r.dirs ensures r.dirs[d] == Mod64(Total(r.files, d)) {
      MergedAt(ix.files, ix.dirs, path, size, d);
    }
  }

  lemma AddFileNeeded(ix: Index, name: Name, root: Bytes, rel: Bytes, size: u64)
    requires DirsNeeded(ix) && GoodName(name) && WellFormed(rel)
    ensures DirsNeeded(AddFile(ix, name, root, rel, size))
  {
    var path := IndexPath(name, rel);
    var r := AddFile(ix, name, root, rel, size);
    AddedDirs(ix, name, root, rel, size);
    forall d | d in r.dirs && d != [] ensures exists f :: f in r.files && Below(d, f) {
      if Below(d, path) {
        assert path in r.files;
      } else {
        var f :| f in ix.files && Below(d, f);
        assert f in r.files;
      }
    }
  }

  lemma AddFileValid(ix: Index, name: Name, root: Bytes, rel: Bytes, size: u64)
    requires Valid(ix) && WellFormed(rel)
    requires name in ix.names && ix.names[name] == root
    requires Fits(ix.files, IndexPath(name, rel))
    ensures Valid(AddFile(ix, name, root, rel, size))
  {
    AddFileAccounted(ix, name, root, rel, size);
    AddFileNeeded(ix, name, root, rel, size);
    IndexPathSplits(name, rel);
    var path := IndexPath(name, rel);
    assert !Below(path, path);
  }

  // -------------------------------------------------------------- scanning

  /** Nothing stored gets in the way of what the walk still reports. */
  ghost predicate WalkFits(files: map<Bytes, u64>, name: Name, walk: seq<WalkEvent>) {
    forall i | 0 <= i < |walk| && walk[i].File? :: Fits(files, IndexPath(name, walk[i].rel))
  }

  lemma WalkTail(files: map<Bytes, u64>, name: Name, walk: seq<WalkEvent>)
    requires walk != [] && WalkOfTree(walk) && WalkFits(files, name, walk)
    ensures WalkOfTree(walk[1..]) && WalkFits(files, name, walk[1..])
    ensures walk[0].File? ==> WalkFits(files[IndexPath(name, walk[0].rel) := walk[0].size], name, walk[1..])
  {
    var tail := walk[1..];
    assert forall i | 0 <= i < |tail| :: tail[i] == walk[i + 1];
    if walk[0].File? {
      forall i | 0 <= i < |tail| && tail[i].File?
        ensures Fits(files[IndexPath(name, walk[0].rel) := walk[0].size], IndexPath(name, tail[i].rel))
      {
        var rel := walk[i + 1].rel;
        assert rel != [] by { assert WellFormed(rel) && Split(rel)[0] in Split(rel); }
        assert walk[0].rel != [] by { assert WellFormed(walk[0].rel) && Split(walk[0].rel)[0] in Split(walk[0].rel); }
        SiblingPaths(name, walk[0].rel, walk[i + 1].rel);
        SiblingPaths(name, walk[i + 1].rel, walk[0].rel);
      }
    }
  }

  /** Wherever the walk stops, the index it leaves is valid. */
  lemma {:induction false} AbsorbValid(ix: Index, name: Name, root: Bytes, walk: seq<WalkEvent>)
    requires Valid(ix) && name in ix.names && ix.names[name] == root
    requires WalkOfTree(walk) && WalkFits(ix.files, name, walk)
    ensures Valid(Absorb(ix, name, root, walk).0)
    decreases |walk|
  {
    if walk != [] {
      WalkTail(ix.files, name, walk);
      match walk[0] {
        case Directory => AbsorbValid(ix, name, root, walk[1..]);
        case File(rel, size, lateFailure) =>
          AddFileValid(ix, name, root, rel, size);
          AbsorbValid(AddFile(ix, name, root, rel, size), name, root, walk[1..]);
        case _ =>
      }
    }
  }

  // -------------------------------------------------------------- removing

  /** One directory that survives the removal of `name`. */
  lemma KeptAt(files: map<Bytes, u64>, dirs: map<Bytes, u64>, name: Bytes, d: Bytes)
    requires name !in files && d in dirs
    requires dirs[d] == Mod64(Total(files, d))
    requires forall f | f in files && Below(d, f) :: !KeyMatches(f, name)
    ensures dirs[d] == Mod64(Total(Keep(files, name), d))
  {
    TotalAfterKeep(files, name, d);
  }

  lemma RootAt(files: map<Bytes, u64>, dirs: map<Bytes, u64>, name: Bytes)
    requires name !in files && name != [] && name in dirs && [] in dirs
    requires dirs[[]] == Mod64(Total(files, [])) && dirs[name] == Mod64(Total(files, name))
    ensures WrapSub(dirs[[]], dirs[name]) == Mod64(Total(Keep(files, name), []))
  {
    TotalAfterKeep(files, name, []);
    WrapSubTracks(dirs[[]], dirs[name], Total(Keep(files, name), []), Total(files, name));
  }

  /** Files and directories agree on what lies at or below an alias. */
  lemma OutsideAlias(name: Name, d: Bytes, f: Bytes)
    requires GoodName(name) && d != [] && Below(d, f)
    ensures KeyMatches(f, name) <==> KeyMatches(d, name)
  {
    BelowSharesFirst(d, f);
    MatchesIsFirst(name, d);
    MatchesIsFirst(name, f);
  }

  lemma RemoveAliasSums(ix: Index, name: Name)
    requires Accounted(ix) && DirsNeeded(ix) && GoodName(name) && name in ix.dirs && name !in ix.files
    ensures Accounted(Removed(ix, name))
  {
    var r := Removed(ix, name);
    var f0 :| f0 in ix.files && Below(name, f0);
    assert Below([], f0) && [] in ix.dirs;
    forall d | d in r.dirs ensures r.dirs[d] == Mod64(Total(r.files, d)) {
      if d == [] {
        RootAt(ix.files, ix.dirs, name);
      } else {
        forall f | f in ix.files && Below(d, f) ensures !KeyMatches(f, name) { OutsideAlias(name, d, f); }
        KeptAt(ix.files, ix.dirs, name, d);
      }
    }
    forall f, d | f in r.files && Below(d, f) ensures d in r.dirs {
      if d != [] { OutsideAlias(name, d, f); }
    }
  }

  lemma RemoveAliasNeeded(ix: Index, name: Name)
    requires DirsNeeded(ix) && GoodName(name) && name in ix.dirs
    ensures DirsNeeded(Removed(ix, name))
  {
    var r := Removed(ix, name);
    forall d | d in r.dirs && d != [] ensures exists f :: f in r.files && Below(d, f) {
      var f :| f in ix.files && Below(d, f);
      OutsideAlias(name, d, f);
      assert f in r.files;
    }
  }

  /** A file starts with an alias, and matches only that one. */
  lemma FileMatches(names: set<Name>, name: Name, f: Bytes)
    requires GoodName(name) && FilePath(names, f)
    ensures f != [] && f != name && (KeyMatches(f, name) <==> Split(f)[0] == name)
  {
    assert Split(f)[0] in Split(f);
    MatchesIsFirst(name, f);
    SplitSingle(name);
  }

  /** Removing a listed alias keeps the index valid; an alias without a directory
      entry (an empty share) is left as it is. */
  lemma RemoveAliasValid(ix: Index, name: Name)
    requires Valid(ix) && name in ix.names
    ensures Valid(RemoveShare(ix, name))
    ensures forall f | f in RemoveShare(ix, name).files :: Split(f)[0] != name
  {
    forall f | f in ix.files ensures f != name && (KeyMatches(f, name) <==> Split(f)[0] == name) {
      FileMatches(ix.names.Keys, name, f);
    }
    if name in ix.dirs {
      RemoveAliasSums(ix, name);
      RemoveAliasNeeded(ix, name);
      RemovedKeepsPaths(ix, name);
    } else {
      assert forall f | f in ix.files :: !Below(name, f);
    }
  }

  lemma RemovedKeepsPaths(ix: Index, name: Name)
    requires name in ix.dirs && OriginsRight(ix) && Tree(ix.files)
    requires forall f | f in ix.files :: FilePath(ix.names.Keys, f) && (KeyMatches(f, name) <==> Split(f)[0] == name)
    ensures var r := Removed(ix, name);
            OriginsRight(r) && Tree(r.files) && forall f | f in r.files :: FilePath(r.names.Keys, f)
  {
  }

  // ------------------------------------------------------------- all runs

  datatype Op = Scan(root: Bytes, walk: seq<WalkEvent>) | Remove(name: Bytes)

  ghost function Step(ix: Index, op: Op): Index {
    match op
    case Scan(root, walk) => ScanShare(ix, root, walk).0
    case Remove(name) => RemoveShare(ix, name)
  }

  ghost function Run(ix: Index, ops: seq<Op>): Index
    decreases |ops|
  {
    if ops == [] then ix else Run(Step(ix, ops[0]), ops[1..])
  }

  /** Walks are of directory trees, and every removed name is a listed alias or
      has no directory entry. */
  ghost predicate Proper(ix: Index, ops: seq<Op>)
    decreases |ops|
  {
    ops == [] || (
      && (match ops[0]
          case Scan(_, walk) => WalkOfTree(walk)
          case Remove(name) => name in ix.names || name !in ix.dirs)
      && Proper(Step(ix, ops[0]), ops[1..]))
  }

  lemma ScanFits(ix: Index, name: Name, walk: seq<WalkEvent>)
    requires GoodName(name) && WalkOfTree(walk)
    requires forall f | f in ix.files :: f != [] && Split(f)[0] != name
    ensures WalkFits(ix.files, name, walk)
  {
    forall i, f | 0 <= i < |walk| && walk[i].File? && f in ix.files
      ensures var path := IndexPath(name, walk[i].rel); path != f && !Below(path, f) && !Below(f, path)
    {
      var path := IndexPath(name, walk[i].rel);
      IndexPathSplits(name, walk[i].rel);
      if Below(path, f) { BelowSharesFirst(path, f); }
      if Below(f, path) { BelowSharesFirst(f, path); }
    }
  }

  /** Putting an alias on record that no file uses yet keeps the index valid. */
  lemma NamedValid(ix: Index, name: Name, root: Bytes)
    requires Valid(ix) && AliasesSound(ix.names[name := root])
    requires forall f | f in ix.files :: Split(f)[0] != name
    ensures Valid(ix.(names := ix.names[name := root]))
  {
  }

  /** A scan of any kind, complete or aborted at any point, keeps the index valid. */
  lemma ScanValid(ix: Index, root: Bytes, walk: seq<WalkEvent>)
    requires Valid(ix) && WalkOfTree(walk)
    ensures Valid(ScanShare(ix, root, walk).0)
  {
    AliasIsStable(ix.names, root);
    if AliasFor(ix.names, root).Some? {
      var name := AliasFor(ix.names, root).value;
      var cleared := RemoveShare(ix, name);
      ClearedForScan(ix, root, name);
      forall f | f in cleared.files ensures f != [] {
        assert FilePath(cleared.names.Keys, f) && Split(f)[0] in Split(f);
      }
      ScanFits(cleared, name, walk);
      NamedValid(cleared, name, root);
      AbsorbValid(cleared.(names := cleared.names[name := root]), name, root, walk);
    }
  }

  /** Before the walk starts the alias has no entries, and can be recorded. */
  lemma ClearedForScan(ix: Index, root: Bytes, name: Name)
    requires Valid(ix) && AliasFor(ix.names, root) == Some(name)
    ensures var cleared := RemoveShare(ix, name);
            && Valid(cleared) && GoodName(name)
            && AliasesSound(cleared.names[name := root])
            && (forall f | f in cleared.files :: Split(f)[0] != name)
  {
    AliasIsStable(ix.names, root);
    NamesAfterScan(ix, root, name);
    if name in ix.names {
      RemoveAliasValid(ix, name);
    } else {
      NoEntryWithoutAlias(ix, name);
    }
  }

  lemma NamesAfterScan(ix: Index, root: Bytes, name: Name)
    ensures RemoveShare(ix, name).names[name := root] == ix.names[name := root]
  {
  }

  /** A top-level directory entry belongs to a listed alias. */
  lemma NoEntryWithoutAlias(ix: Index, name: Name)
    requires Valid(ix) && GoodName(name) && name !in ix.names
    ensures name !in ix.dirs
  {
    if name in ix.dirs {
      var f :| f in ix.files && Below(name, f);
      BelowSharesFirst(name, f);
      assert FilePath(ix.names.Keys, f);
      SplitSingle(name);
    }
  }

  /** Main result: in every run of scans, rescans, aborted scans and removals of
      listed aliases, each directory size is the recursive sum of the file sizes
      below it and every directory above a file is present. */
  lemma {:induction false} RunValid(ix: Index, ops: seq<Op>)
    requires Valid(ix) && Proper(ix, ops)
    ensures Valid(Run(ix, ops))
    decreases |ops|
  {
    if ops != [] {
      match ops[0] {
        case Scan(root, walk) => ScanValid(ix, root, walk);
        case Remove(name) => if name in ix.names { RemoveAliasValid(ix, name); }
      }
      RunValid(Step(ix, ops[0]), ops[1..]);
    }
  }

  lemma EmptyIndexValid()
    ensures Valid(EMPTY)
  {
  }

  /** Every index the program can have, from an empty database on. */
  lemma RunFromEmpty(ops: seq<Op>)
    requires Proper(EMPTY, ops)
    ensures var ix := Run(EMPTY, ops);
            && AliasesSound(ix.names)
            && (forall d | d in ix.dirs :: ix.dirs[d] == Mod64(Total(ix.files, d)))
            && (forall f, d | f in ix.files && Below(d, f) :: d in ix.dirs)
  {
    hide FilePath, Tree, DirsNeeded, OriginsRight, AliasesSound, Total, Below;
    EmptyIndexValid();
    RunValid(EMPTY, ops);
  }

  // --------------------------------------------------- sizes below 2^64

  lemma TotalWithinRoot(files: map<Bytes, u64>, d: Bytes)
    ensures Total(files, d) <= Total(files, [])
  {
    var part, all := Under(files, d), Under(files, []);
    assert forall f | f in part :: f in all;
    assert all == (all - part.Keys) + part;
    SumUnion(all - part.Keys, part);
  }

  lemma ExactAt(ix: Index, d: Bytes)
    requires Accounted(ix) && DirsNeeded(ix) && Total(ix.files, []) < 0x1_0000_0000_0000_0000 && d in ix.dirs
    ensures ix.dirs[d] == Total(ix.files, d) <= Total(ix.files, []) && [] in ix.dirs
  {
    TotalWithinRoot(ix.files, d);
    if d != [] {
      var f :| f in ix.files && Below(d, f);
      assert Below([], f);
    }
  }

  /** While everything shared adds up to less than 2^64 bytes, the sizes are the
      exact sums and the subtraction from the root never underflows. */
  lemma ExactBelowLimit(ix: Index)
    requires Valid(ix) && Total(ix.files, []) < 0x1_0000_0000_0000_0000
    ensures forall d | d in ix.dirs :: ix.dirs[d] == Total(ix.files, d)
    ensures forall d | d in ix.dirs :: [] in ix.dirs && ix.dirs[d] <= ix.dirs[[]]
  {
    forall d | d in ix.dirs
      ensures ix.dirs[d] == Total(ix.files, d) && [] in ix.dirs && ix.dirs[d] <= ix.dirs[[]]
    {
      ExactAt(ix, d);
      ExactAt(ix, []);
    }
  }

  // ---------------------------------------- exactly which removals are safe

  /** Removing takes the recorded size off the root, or makes an empty root. */
  lemma RootAfterRemoval(ix: Index, name: Bytes)
    requires name in ix.dirs && name != []
    ensures var dirs := RemoveShare(ix, name).dirs;
            && [] in dirs
            && dirs[[]] == if [] in ix.dirs then Mod64(ix.dirs[[]] as int - ix.dirs[name] as int) else 0
  {
  }

  /** What a caller can check before removing a name. */
  predicate SafeToRemove(ix: Index, name: Bytes) {
    || name !in ix.dirs
    || name in ix.names
    || (name != [] && ix.dirs[name] == 0)
    || (name == [] && ix.files == map[])
  }

  /** The alias above a nested directory: a directory that stays when the nested
      one is removed. */
  lemma NestedHasTop(ix: Index, name: Bytes) returns (top: Name)
    requires Valid(ix) && name in ix.dirs && name !in ix.names && name != []
    ensures top in ix.dirs && Below(top, name) && !KeyMatches(top, name) && top != []
    ensures name !in ix.files
  {
    var f :| f in ix.files && Below(name, f);
    BelowSharesFirst(name, f);
    assert FilePath(ix.names.Keys, f);
    top := Split(name)[0];
    SplitSingle(top);
    assert [top] == Split(name)[..1];
    if |Split(name)| == 1 {
      assert Split(name) == Split(top);
      ComponentsInjective(name, top);
    }
    assert GoodName(top);
    BelowIsComponentPrefix(top, name);
    BelowTransitive(top, name, f);
  }

  lemma ShortByTotal(ix: Index, name: Bytes, top: Bytes)
    requires SumsRight(ix) && name in ix.dirs && name !in ix.files && ix.dirs[name] != 0
    requires top in ix.dirs && Below(top, name) && !KeyMatches(top, name) && top != []
    ensures Removed(ix, name).dirs[top] != Mod64(Total(Removed(ix, name).files, top))
  {
    TotalAfterKeep(ix.files, name, top);
    SameResidue(Total(Keep(ix.files, name), top), Total(ix.files, name));
  }

  lemma NestedBreaks(ix: Index, name: Bytes)
    requires Valid(ix) && name in ix.dirs && name !in ix.names && name != [] && ix.dirs[name] != 0
    ensures !SumsRight(Removed(ix, name))
  {
    var top := NestedHasTop(ix, name);
    ShortByTotal(ix, name, top);
    assert top in Removed(ix, name).dirs;
  }

  lemma EmptyNestedAt(ix: Index, name: Bytes, d: Bytes)
    requires SumsRight(ix) && name in ix.dirs && name != [] && name !in ix.files && ix.dirs[name] == 0
    requires d in ix.dirs && d != [] && !KeyMatches(d, name)
    ensures ix.dirs[d] == Mod64(Total(Keep(ix.files, name), d))
  {
    if Below(d, name) {
      TotalAfterKeep(ix.files, name, d);
      SameResidue(Total(Keep(ix.files, name), d), Total(ix.files, name));
    } else {
      forall f | f in ix.files && Below(d, f) ensures !KeyMatches(f, name) {
        if KeyMatches(f, name) { Comparable(d, name, f); }
      }
      KeptAt(ix.files, ix.dirs, name, d);
    }
  }

  lemma EmptyNestedKeeps(ix: Index, name: Bytes)
    requires Accounted(ix) && DirsNeeded(ix) && Tree(ix.files)
    requires name in ix.dirs && name != [] && ix.dirs[name] == 0
    ensures Accounted(Removed(ix, name))
  {
    var r := Removed(ix, name);
    var f0 :| f0 in ix.files && Below(name, f0);
    assert Below([], f0) && [] in ix.dirs;
    forall d | d in r.dirs ensures r.dirs[d] == Mod64(Total(r.files, d)) {
      if d == [] { RootAt(ix.files, ix.dirs, name); } else { EmptyNestedAt(ix, name, d); }
    }
    forall f, d | f in r.files && Below(d, f) ensures d in r.dirs {
    }
  }

  /** Two directories above the same file are nested one way or the other. */
  lemma Comparable(d: Bytes, name: Bytes, f: Bytes)
    requires d != [] && name != [] && Below(d, f) && KeyMatches(f, name) && !Below(d, name)
    ensures KeyMatches(d, name)
  {
    if f != name {
      BelowIsComponentPrefix(d, f);
      BelowIsComponentPrefix(name, f);
      BelowIsComponentPrefix(d, name);
      BelowIsComponentPrefix(name, d);
      if |Split(d)| == |Split(name)| {
        assert Split(d) == Split(name);
        ComponentsInjective(d, name);
      }
    }
  }

  /** `remove_share_dir` takes any string. The sizes stay right exactly for a name
      without a directory entry, a listed alias, a directory of recorded size
      zero, or the root of an index without files. */
  lemma RemovalAccountedIff(ix: Index, name: Bytes)
    requires Valid(ix)
    ensures Accounted(RemoveShare(ix, name)) <==> SafeToRemove(ix, name)
  {
    if name in ix.dirs {
      if name in ix.names {
        RemoveAliasSums(ix, name);
      } else if name != [] {
        if ix.dirs[name] == 0 { EmptyNestedKeeps(ix, name); } else { NestedBreaks(ix, name); }
      } else {
        RootRemoval(ix);
      }
    }
  }

  lemma RootRemoval(ix: Index)
    requires Valid(ix) && [] in ix.dirs && [] !in ix.names
    ensures Accounted(Removed(ix, [])) <==> ix.files == map[]
  {
    var r := Removed(ix, []);
    if ix.files == map[] {
      assert forall d | d in ix.dirs :: d == [];
      assert r.dirs == map[];
    } else {
      var f :| f in ix.files;
      assert FilePath(ix.names.Keys, f) && Split(f)[0] in Split(f) && GoodName(Split(f)[0]);
      assert f[0] != SEP && f != [];
      assert f in r.files && Below([], f);
      assert [] !in r.dirs;
    }
  }
}
