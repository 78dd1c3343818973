/** What scans and removals leave behind: rescanning equals scanning afresh,
    removing undoes scanning and spares every other share, and indexed files
    resolve to where they were found. */
module ShareIndexRescan {
  import opened Bytes
  import opened Paths
  import opened ShareAlias
  import opened ShareIndex
  import opened ShareIndexInvariant

  /** The files a walk stores: those reported before it first fails. */
  ghost function Stored(name: Name, walk: seq<WalkEvent>): map<Bytes, u64>
    decreases |walk|
  {
    if walk == [] || walk[0].WalkFailed? || walk[0].MetadataFailed? || walk[0].BadPath? then map[]
    else if walk[0].Directory? then Stored(name, walk[1..])
    else if walk[0].lateFailure then map[IndexPath(name, walk[0].rel) := walk[0].size]
    else map[IndexPath(name, walk[0].rel) := walk[0].size] + Stored(name, walk[1..])
  }

  ghost function StoredOrigins(name: Name, root: Bytes, walk: seq<WalkEvent>): map<Bytes, Bytes>
    decreases |walk|
  {
    if walk == [] || walk[0].WalkFailed? || walk[0].MetadataFailed? || walk[0].BadPath? then map[]
    else if walk[0].Directory? then StoredOrigins(name, root, walk[1..])
    else if walk[0].lateFailure then map[IndexPath(name, walk[0].rel) := DiskPath(root, walk[0].rel)]
    else map[IndexPath(name, walk[0].rel) := DiskPath(root, walk[0].rel)] + StoredOrigins(name, root, walk[1..])
  }

  /** Whether a walk completes, and what the scan then reports. */
  ghost function Outcome(walk: seq<WalkEvent>): ScanResult
    decreases |walk|
  {
    if walk == [] then Added(0)
    else
      match walk[0]
      case WalkFailed => Failed(WalkError)
      case MetadataFailed => Failed(MetadataError)
      case BadPath => Failed(PathError)
      case Directory => Outcome(walk[1..])
      case File(_, _, lateFailure) =>
        if lateFailure then Failed(MetadataError)
        else
          var rest := Outcome(walk[1..]);
          if rest.Added? then Added(rest.count + 1) else rest
  }

  lemma UpdateThenAdd<V>(m: map<Bytes, V>, k: Bytes, v: V, rest: map<Bytes, V>)
    ensures m[k := v] + rest == m + (map[k := v] + rest)
    ensures m[k := v] == m + map[k := v]
  {
  }

  lemma {:induction false} AbsorbFiles(ix: Index, name: Name, root: Bytes, walk: seq<WalkEvent>)
    ensures Absorb(ix, name, root, walk).0.files == ix.files + Stored(name, walk)
    decreases |walk|
  {
    if walk != [] {
      match walk[0] {
        case Directory => AbsorbFiles(ix, name, root, walk[1..]);
        case File(rel, size, lateFailure) =>
          UpdateThenAdd(ix.files, IndexPath(name, rel), size, Stored(name, walk[1..]));
          if !lateFailure { AbsorbFiles(AddFile(ix, name, root, rel, size), name, root, walk[1..]); }
        case _ =>
      }
    }
  }

  lemma {:induction false} AbsorbOrigins(ix: Index, name: Name, root: Bytes, walk: seq<WalkEvent>)
    ensures Absorb(ix, name, root, walk).0.origin == ix.origin + StoredOrigins(name, root, walk)
    decreases |walk|
  {
    if walk != [] {
      match walk[0] {
        case Directory => AbsorbOrigins(ix, name, root, walk[1..]);
        case File(rel, size, lateFailure) =>
          UpdateThenAdd(ix.origin, IndexPath(name, rel), DiskPath(root, rel), StoredOrigins(name, root, walk[1..]));
          if !lateFailure { AbsorbOrigins(AddFile(ix, name, root, rel, size), name, root, walk[1..]); }
        case _ =>
      }
    }
  }

  lemma {:induction false} AbsorbOutcome(ix: Index, name: Name, root: Bytes, walk: seq<WalkEvent>)
    ensures Absorb(ix, name, root, walk).0.names == ix.names
    ensures Absorb(ix, name, root, walk).1 == Outcome(walk)
    decreases |walk|
  {
    if walk != [] {
      match walk[0] {
        case Directory => AbsorbOutcome(ix, name, root, walk[1..]);
        case File(rel, size, lateFailure) =>
          if !lateFailure { AbsorbOutcome(AddFile(ix, name, root, rel, size), name, root, walk[1..]); }
        case _ =>
      }
    }
  }

  lemma {:induction false} StoredAreUnder(name: Name, walk: seq<WalkEvent>)
    ensures forall f | f in Stored(name, walk) :: KeyMatches(f, name)
    ensures forall root :: StoredOrigins(name, root, walk).Keys == Stored(name, walk).Keys
    decreases |walk|
  {
    if walk != [] { StoredAreUnder(name, walk[1..]); }
  }

  /** Equal up to a root entry of size zero, which no query can tell from none
      except by its presence. */
  ghost predicate SameIndex(a: Index, b: Index) {
    && a.files == b.files && a.names == b.names && a.origin == b.origin
    && a.dirs - {[]} == b.dirs - {[]}
    && SizeOf(a.dirs, []) == SizeOf(b.dirs, [])
  }

  /** The directory sizes are a function of the files. */
  lemma DirsDetermined(a: Index, b: Index)
    requires Accounted(a) && DirsNeeded(a) && Accounted(b) && DirsNeeded(b) && a.files == b.files
    ensures a.dirs - {[]} == b.dirs - {[]}
    ensures SizeOf(a.dirs, []) == SizeOf(b.dirs, [])
  {
    forall d | d != [] ensures d in a.dirs <==> d in b.dirs {
      if d in a.dirs { var f :| f in a.files && Below(d, f); }
      if d in b.dirs { var f :| f in b.files && Below(d, f); }
    }
    assert (a.dirs - {[]}).Keys == (b.dirs - {[]}).Keys;
    RootSize(a);
    RootSize(b);
  }

  lemma RootSize(ix: Index)
    requires Accounted(ix)
    ensures SizeOf(ix.dirs, []) == Mod64(Total(ix.files, []))
  {
    if [] !in ix.dirs {
      assert forall f | f in ix.files :: !Below([], f);
      EmptyTotal(ix.files, []);
    }
  }

  // ------------------------------------------------------------- a scan

  /** What is cleared before a walk: exactly what lies under the alias. */
  lemma ClearedIs(ix: Index, name: Name)
    requires Valid(ix) && GoodName(name)
    ensures RemoveShare(ix, name).files == Keep(ix.files, name)
    ensures RemoveShare(ix, name).origin == Keep(ix.origin, name)
  {
    if name !in ix.dirs {
      NothingUnder(ix, name);
    }
  }

  lemma NothingUnder(ix: Index, name: Name)
    requires AncestorsPresent(ix) && GoodName(name) && name !in ix.dirs
    requires forall f | f in ix.files :: FilePath(ix.names.Keys, f)
    ensures forall f | f in ix.files :: !KeyMatches(f, name)
  {
    forall f | f in ix.files ensures !KeyMatches(f, name) { FileMatches(ix.names.Keys, name, f); }
  }

  lemma ScanStores(ix: Index, root: Bytes, walk: seq<WalkEvent>, name: Name)
    requires AliasFor(ix.names, root) == Some(name)
    requires RemoveShare(ix, name).files == Keep(ix.files, name)
    requires RemoveShare(ix, name).origin == Keep(ix.origin, name)
    ensures var (r, result) := ScanShare(ix, root, walk);
            && r.files == Keep(ix.files, name) + Stored(name, walk)
            && r.origin == Keep(ix.origin, name) + StoredOrigins(name, root, walk)
            && r.names == ix.names[name := root]
            && result == Outcome(walk)
  {
    var cleared := RemoveShare(ix, name);
    var named := cleared.(names := cleared.names[name := root]);
    AbsorbFiles(named, name, root, walk);
    AbsorbOrigins(named, name, root, walk);
    AbsorbOutcome(named, name, root, walk);
    NamesAfterScan(ix, root, name);
  }

  /** A scan fails for want of a name exactly if no alias holds the path and the path
      has no named last piece; then it changes nothing. */
  lemma UnnamedScanIff(ix: Index, root: Bytes, walk: seq<WalkEvent>)
    ensures var (r, kept) := (ScanShare(ix, root, walk), Kept(Split(root)));
            && (r.1 == Failed(NoFileName) <==>
                  && (forall a | a in ix.names :: ix.names[a] != root)
                  && (kept == [] || kept[|kept| - 1] == [DOT, DOT]))
            && (r.1 == Failed(NoFileName) ==> r.0 == ix)
  {
    hide Absorb, RemoveShare, FileName, Parse, Normals;
    FileNameIs(root);
    if (exists a :: a in ix.names && ix.names[a] == root) {
      assert HeldBy(ix.names, root) != {} by {
        var a :| a in ix.names && ix.names[a] == root;
        assert a in HeldBy(ix.names, root);
      }
    }
    if AliasFor(ix.names, root).Some? {
      var name := AliasFor(ix.names, root).value;
      var cleared := RemoveShare(ix, name);
      AbsorbOutcome(cleared.(names := cleared.names[name := root]), name, root, walk);
      NeverUnnamed(walk);
    }
  }

  lemma {:induction false} NeverUnnamed(walk: seq<WalkEvent>)
    ensures Outcome(walk) != Failed(NoFileName)
    decreases |walk|
  {
    if walk != [] { NeverUnnamed(walk[1..]); }
  }

  /** A scan replaces what lies under the alias by what the walk stores. */
  lemma ScanResultIs(ix: Index, root: Bytes, walk: seq<WalkEvent>, name: Name)
    requires Valid(ix) && WalkOfTree(walk) && AliasFor(ix.names, root) == Some(name)
    ensures var (r, result) := ScanShare(ix, root, walk);
            && Valid(r)
            && r.files == Keep(ix.files, name) + Stored(name, walk)
            && r.origin == Keep(ix.origin, name) + StoredOrigins(name, root, walk)
            && r.names == ix.names[name := root]
            && result == Outcome(walk)
  {
    AliasIsStable(ix.names, root);
    ScanValid(ix, root, walk);
    ClearedIs(ix, name);
    ScanStores(ix, root, walk, name);
  }

  lemma KeepForgets<V>(m: map<Bytes, V>, name: Name, stored: map<Bytes, V>)
    requires forall k | k in stored :: KeyMatches(k, name)
    ensures Keep(Keep(m, name) + stored, name) == Keep(m, name)
  {
  }

  lemma AliasRemembered(names: map<Name, Bytes>, root: Bytes, name: Name)
    requires AliasesSound(names) && AliasFor(names, root) == Some(name)
    ensures AliasFor(names[name := root], root) == Some(name)
  {
    AliasIsStable(names, root);
    assert name in HeldBy(names[name := root], root);
  }

  /** Rescanning gives the same files, sizes, aliases and outcome as scanning the
      share's current contents in the index that had never seen the earlier scan. */
  lemma RescanIsFreshScan(ix: Index, root: Bytes, earlier: seq<WalkEvent>, current: seq<WalkEvent>)
    requires Valid(ix) && WalkOfTree(earlier) && WalkOfTree(current)
    ensures var again := ScanShare(ScanShare(ix, root, earlier).0, root, current);
            var direct := ScanShare(ix, root, current);
            SameIndex(again.0, direct.0) && again.1 == direct.1
  {
    if AliasFor(ix.names, root).Some? {
      var name := AliasFor(ix.names, root).value;
      AliasIsStable(ix.names, root);
      AliasRemembered(ix.names, root, name);
      var first := ScanShare(ix, root, earlier).0;
      ScanResultIs(ix, root, earlier, name);
      ScanResultIs(ix, root, current, name);
      ScanResultIs(first, root, current, name);
      StoredAreUnder(name, earlier);
      KeepForgets(ix.files, name, Stored(name, earlier));
      KeepForgets(ix.origin, name, StoredOrigins(name, root, earlier));
      DirsDetermined(ScanShare(first, root, current).0, ScanShare(ix, root, current).0);
    }
  }

  /** Removing a new share undoes its scan, provided the scan stored a file;
      otherwise there is no directory entry and the empty alias stays listed. */
  lemma RemoveUndoesScan(ix: Index, root: Bytes, walk: seq<WalkEvent>, name: Name)
    requires Valid(ix) && WalkOfTree(walk) && AliasFor(ix.names, root) == Some(name) && name !in ix.names
    ensures var scanned := ScanShare(ix, root, walk).0;
            && (Stored(name, walk) != map[] ==> SameIndex(RemoveShare(scanned, name), ix))
            && (Stored(name, walk) == map[] ==> RemoveShare(scanned, name) == scanned && name in scanned.names)
  {
    var scanned := ScanShare(ix, root, walk).0;
    ScanResultIs(ix, root, walk, name);
    UnknownAliasKeepsAll(ix, root, name);
    StoredAreUnder(name, walk);
    EntryIfStored(scanned, name, ix.files, Stored(name, walk));
    if Stored(name, walk) != map[] {
      RemovedIs(ix, scanned, root, walk, name);
      RemoveAliasValid(scanned, name);
      DirsDetermined(RemoveShare(scanned, name), ix);
    }
  }

  lemma RemovedIs(ix: Index, scanned: Index, root: Bytes, walk: seq<WalkEvent>, name: Name)
    requires name in scanned.dirs && name !in ix.names
    requires Keep(ix.files, name) == ix.files && Keep(ix.origin, name) == ix.origin
    requires scanned.files == ix.files + Stored(name, walk)
    requires scanned.origin == ix.origin + StoredOrigins(name, root, walk)
    requires scanned.names == ix.names[name := root]
    ensures var r := RemoveShare(scanned, name);
            r.files == ix.files && r.origin == ix.origin && r.names == ix.names
  {
    StoredAreUnder(name, walk);
    KeepForgets(ix.files, name, Stored(name, walk));
    KeepForgets(ix.origin, name, StoredOrigins(name, root, walk));
    assert ix.names[name := root] - {name} == ix.names;
  }

  lemma UnknownAliasKeepsAll(ix: Index, root: Bytes, name: Name)
    requires Valid(ix) && AliasFor(ix.names, root) == Some(name) && name !in ix.names
    ensures GoodName(name) && Keep(ix.files, name) == ix.files && Keep(ix.origin, name) == ix.origin
  {
    AliasIsStable(ix.names, root);
    NoEntryWithoutAlias(ix, name);
    ClearedIs(ix, name);
  }

  lemma EntryIfStored(scanned: Index, name: Name, before: map<Bytes, u64>, stored: map<Bytes, u64>)
    requires AncestorsPresent(scanned) && DirsNeeded(scanned) && GoodName(name)
    requires forall f | f in scanned.files :: FilePath(scanned.names.Keys, f)
    requires scanned.files == before + stored && Keep(before, name) == before
    requires forall f | f in stored :: KeyMatches(f, name)
    ensures name in scanned.dirs <==> stored != map[]
  {
    forall f | f in before ensures !Below(name, f) {
      assert f in Keep(before, name);
    }
    if stored != map[] {
      var f :| f in stored;
      assert f in scanned.files && KeyMatches(f, name);
      FileMatches(scanned.names.Keys, name, f);
    } else {
      assert forall f | f in scanned.files :: f in before;
    }
  }

  /** Removing an alias takes exactly the files and directories whose first
      component it is: every other share keeps its entries, sizes and resolved
      paths, however its alias is spelled. */
  lemma RemovalSparesOthers(ix: Index, name: Name, k: Bytes)
    requires Valid(ix) && name in ix.names && name in ix.dirs && k != []
    ensures var r := RemoveShare(ix, name);
            && (k in r.files <==> k in ix.files && Split(k)[0] != name)
            && (k in r.dirs <==> k in ix.dirs && Split(k)[0] != name)
            && (k in r.files ==> r.files[k] == ix.files[k])
            && (k in r.files ==> Resolve(r.files, r.names, k) == Resolve(ix.files, ix.names, k))
            && (k in r.dirs ==> r.dirs[k] == ix.dirs[k])
  {
    MatchesIsFirst(name, k);
    var r := RemoveShare(ix, name);
    if k in r.files {
      RemoveAliasValid(ix, name);
      ResolvesToOrigin(ix, k);
      ResolvesToOrigin(r, k);
    }
  }

  // ------------------------------------------------------------ resolving

  lemma {:induction false} TextsOfGoodNames(ns: seq<Name>)
    requires forall n | n in ns :: GoodName(n)
    ensures ComponentTexts(Inner(ns)) == ns
  {
    if ns != [] {
      assert ns[0] in ns;
      var rest := ns[1..];
      TextsOfGoodNames(rest);
      var r := Inner(ns);
      assert r == [Normal(ns[0])] + Inner(rest);
      assert r[1..] == Inner(rest);
      assert ns == [ns[0]] + rest;
    }
  }

  lemma IndexPathParses(f: Bytes)
    requires WellFormed(f)
    ensures ComponentTexts(Parse(f)) == Split(f)
  {
    assert Split(f)[0] in Split(f);
    TextsOfGoodNames(Split(f));
    assert f[0] != SEP;
  }

  /** Every indexed file resolves to the disk path it was scanned from, with the
      size it was indexed with; any other path is not found. */
  lemma ResolvesToOrigin(ix: Index, f: Bytes)
    requires Valid(ix)
    ensures Resolve(ix.files, ix.names, f) ==
              if f in ix.files then Resolved(ix.origin[f], ix.files[f]) else FileNotFound
  {
    if f in ix.files {
      assert FilePath(ix.names.Keys, f);
      IndexPathParses(f);
    }
  }

  lemma AliasListed(ix: Index, f: Bytes)
    requires Valid(ix) && f in ix.files
    ensures Split(f)[0] in ix.names
  {
    assert FilePath(ix.names.Keys, f);
  }

  /** Whatever is in the trees, an unknown path is not found and a known one fails only
      for want of its alias. */
  lemma ResolveFailsIff(files: map<Bytes, u64>, names: map<Name, Bytes>, input: Bytes)
    ensures Resolve(files, names, input) == FileNotFound <==> input !in files
    ensures input in files && WellFormed(input) ==>
              (Resolve(files, names, input) == BadShareName <==> Split(input)[0] !in names)
              && (Resolve(files, names, input).Resolved? <==> Split(input)[0] in names)
  {
    if WellFormed(input) { IndexPathParses(input); }
  }

  /** The resolved path lies in the shared directory: it has the components of that
      directory followed by those of the file below its alias. */
  lemma ResolvesInsideShare(ix: Index, f: Bytes)
    requires Valid(ix) && f in ix.files
    ensures var root, r := ix.names[Split(f)[0]], Resolve(ix.files, ix.names, f);
            && r.Resolved? && r.size == ix.files[f]
            && Parse(r.path) == Parse(root) + Inner(Split(f)[1..])
            && (root != [] && root[|root| - 1] != SEP ==> Below(root, r.path))
  {
    hide Parse, Inner, DiskPath, Resolve;
    assert FilePath(ix.names.Keys, f);
    var cs := Split(f);
    ResolvesToOrigin(ix, f);
    SplitJoin(cs[1..]);
    assert forall n | n in cs[1..] :: n in cs;
    DiskPathIs(ix.names[cs[0]], Join(cs[1..]));
  }

  /** In particular after a scan: whatever it stored resolves to where the walk saw it. */
  lemma ScannedFileResolves(ix: Index, root: Bytes, walk: seq<WalkEvent>, name: Name, f: Bytes)
    requires Valid(ix) && WalkOfTree(walk) && AliasFor(ix.names, root) == Some(name) && f in Stored(name, walk)
    ensures f in StoredOrigins(name, root, walk)
    ensures var r := ScanShare(ix, root, walk).0;
            Resolve(r.files, r.names, f) == Resolved(StoredOrigins(name, root, walk)[f], Stored(name, walk)[f])
  {
    ScanResultIs(ix, root, walk, name);
    StoredAreUnder(name, walk);
    assert StoredOrigins(name, root, walk).Keys == Stored(name, walk).Keys;
    ResolvesToOrigin(ScanShare(ix, root, walk).0, f);
  }
}
