/** The share index object and its queries. */
module Shares {
  import opened Bytes
  import opened Paths
  import opened ShareAlias
  import opened ShareIndex
  import opened ShareIndexInvariant
  import opened ShareIndexRescan

  datatype Entry = Entry(name: Bytes, size: u64, isDir: bool)

  // ---------------------------------------------------------------- queries

  predicate HasSeparator(p: Bytes) {
    SEP in p
  }

  /** `kv_filter_map` without a search term. */
  function KvFilterMap(name: Bytes, size: u64, isDir: bool, recursive: bool, pathLen: nat): Option<Entry>
    requires pathLen <= |name|
  {
    var full := name[pathLen..];
    var suffix := if full != [] && full[0] == SEP then full[1..] else full;
    if !recursive && HasSeparator(suffix) then None else Some(Entry(name, size, isDir))
  }

  function FilterMap(keys: seq<Bytes>, tree: map<Bytes, u64>, isDir: bool, recursive: bool, path: Bytes): seq<Entry>
    requires forall k | k in keys :: k in tree && path <= k
  {
    if keys == [] then []
    else
      assert keys[0] in keys && forall k | k in keys[1..] :: k in keys;
      var e := KvFilterMap(keys[0], tree[keys[0]], isDir, recursive, |path|);
      (if e.Some? then [e.value] else []) + FilterMap(keys[1..], tree, isDir, recursive, path)
  }

  /** `query`: directories first, then files; `None` is `PathNotFound`. */
  function Query(files: map<Bytes, u64>, dirs: map<Bytes, u64>, path: Bytes, recursive: bool): Option<seq<Entry>> {
    if path != [] && path !in dirs && path !in files then None
    else Some(FilterMap(ScanPrefix(dirs, path), dirs, true, recursive, path)
              + FilterMap(ScanPrefix(files, path), files, false, recursive, path))
  }

  lemma {:induction false} FilterMapLists(keys: seq<Bytes>, tree: map<Bytes, u64>, isDir: bool, recursive: bool,
                                          path: Bytes)
    requires forall k | k in keys :: k in tree && path <= k
    ensures var r := FilterMap(keys, tree, isDir, recursive, path);
            forall e :: e in r <==>
              e.isDir == isDir && e.name in keys &&
              KvFilterMap(e.name, tree[e.name], isDir, recursive, |path|) == Some(e)
  {
    if keys != [] {
      assert keys[0] in keys && forall k | k in keys[1..] :: k in keys;
      FilterMapLists(keys[1..], tree, isDir, recursive, path);
    }
  }

  /** A recursive query lists exactly the entries whose key extends the path
      bytewise, which includes siblings such as `ab` for `a`. */
  lemma RecursiveQueryLists(files: map<Bytes, u64>, dirs: map<Bytes, u64>, path: Bytes, e: Entry)
    ensures Query(files, dirs, path, true).Some? ==>
              (e in Query(files, dirs, path, true).value <==>
                 path <= e.name && (if e.isDir then e.name in dirs && dirs[e.name] == e.size
                                    else e.name in files && files[e.name] == e.size))
  {
    FilterMapLists(ScanPrefix(dirs, path), dirs, true, true, path);
    FilterMapLists(ScanPrefix(files, path), files, false, true, path);
  }

  /** A path is refused exactly when the index has no file at or below it. */
  lemma QueryRefusesIff(ix: Index, path: Bytes, recursive: bool)
    requires Valid(ix)
    ensures Query(ix.files, ix.dirs, path, recursive).None? <==>
              path != [] && forall f | f in ix.files :: f != path && !Below(path, f)
  {
    hide Below, FilePath, SumsRight, FilterMap;
  }

  /** A plain query lists the entries whose key goes on after the path, and after one
      separator if there is one, without a further separator. */
  lemma PlainQueryLists(files: map<Bytes, u64>, dirs: map<Bytes, u64>, path: Bytes, e: Entry)
    ensures Query(files, dirs, path, false).Some? ==>
              (e in Query(files, dirs, path, false).value <==>
                 && (if e.isDir then e.name in dirs && dirs[e.name] == e.size
                     else e.name in files && files[e.name] == e.size)
                 && exists t :: SEP !in t && (e.name == path + t || e.name == path + [SEP] + t))
  {
    hide FilterMap, HasSeparator, KvFilterMap;
    FilterMapLists(ScanPrefix(dirs, path), dirs, true, false, path);
    FilterMapLists(ScanPrefix(files, path), files, false, false, path);
    if path <= e.name {
      var tree := if e.isDir then dirs else files;
      PlainTest(path, e.name, SizeOf(tree, e.name), e.isDir);
    }
  }

  lemma PlainTest(path: Bytes, name: Bytes, size: u64, isDir: bool)
    requires path <= name
    ensures KvFilterMap(name, size, isDir, false, |path|) ==
              if exists t :: SEP !in t && (name == path + t || name == path + [SEP] + t)
              then Some(Entry(name, size, isDir)) else None
  {
    var full := name[|path|..];
    assert name == path + full;
    if full != [] && full[0] == SEP { assert name == path + [SEP] + full[1..]; }
    if t :| SEP !in t && (name == path + t || name == path + [SEP] + t) {
      assert full == t || (full == [SEP] + t && full[1..] == t);
    }
  }

  lemma {:induction false} SeparatorSplits(t: Bytes)
    ensures HasSeparator(t) <==> |Split(t)| > 1
  {
    if t != [] {
      assert t == [t[0]] + t[1..];
      SeparatorSplits(t[1..]);
    }
  }

  /** The suffix test of a plain query passes what is directly inside `d`. */
  lemma ChildTest(d: Bytes, k: Bytes, size: u64, isDir: bool)
    requires d <= k && Below(d, k) && (d == [] ==> k[0] != SEP)
    ensures KvFilterMap(k, size, isDir, false, |d|).Some? <==> |Components(k)| == |Components(d)| + 1
  {
    var full := k[|d|..];
    var t := if d == [] then full else full[1..];
    if d == [] {
      assert t == k;
    } else {
      assert k == d + [SEP] + t;
      SplitAppend(d, t);
    }
    SeparatorSplits(t);
  }

  /** A plain query of a directory lists, of everything below it, exactly what is
      directly inside it. */
  lemma PlainQueryListsChildren(files: map<Bytes, u64>, dirs: map<Bytes, u64>, d: Bytes, e: Entry)
    requires d in dirs && d <= e.name && Below(d, e.name) && (d == [] ==> e.name[0] != SEP)
    ensures e in Query(files, dirs, d, false).value <==>
              && |Components(e.name)| == |Components(d)| + 1
              && (if e.isDir then e.name in dirs && dirs[e.name] == e.size
                  else e.name in files && files[e.name] == e.size)
  {
    FilterMapLists(ScanPrefix(dirs, d), dirs, true, false, d);
    FilterMapLists(ScanPrefix(files, d), files, false, false, d);
    ChildTest(d, e.name, e.size, e.isDir);
  }

  // ---------------------------------------------------------------- chunks

  /** The chunks a sequence is sent in; a chunk size of zero never fills up. */
  function Chunks<T>(s: seq<T>, size: nat): seq<seq<T>>
    decreases |s|
  {
    if s == [] then []
    else if size == 0 || |s| <= size then [s]
    else [s[..size]] + Chunks(s[size..], size)
  }

  function Flatten<T>(chunks: seq<seq<T>>): seq<T> {
    if chunks == [] then [] else chunks[0] + Flatten(chunks[1..])
  }

  lemma FlattenCons<T>(first: seq<T>, rest: seq<seq<T>>)
    ensures Flatten([first] + rest) == first + Flatten(rest)
  {
    assert ([first] + rest)[1..] == rest;
  }

  /** Chunking loses and reorders nothing, sends no empty chunk, and only the last
      chunk may be short. */
  lemma {:induction false} ChunksFlatten<T>(s: seq<T>, size: nat)
    ensures Flatten(Chunks(s, size)) == s
    ensures forall i | 0 <= i < |Chunks(s, size)| ::
              && Chunks(s, size)[i] != []
              && (size > 0 ==> |Chunks(s, size)[i]| <= size)
              && (i < |Chunks(s, size)| - 1 ==> |Chunks(s, size)[i]| == size)
    decreases |s|
  {
    if s == [] {
    } else if size == 0 || |s| <= size {
      assert Chunks(s, size) == [s] && [s][1..] == [];
    } else {
      var first, rest := s[..size], Chunks(s[size..], size);
      ChunksFlatten(s[size..], size);
      assert rest != [] && Chunks(s, size) == [first] + rest;
      FlattenCons(first, rest);
      forall i | 0 <= i < |[first] + rest|
        ensures var c := ([first] + rest)[i];
                c != [] && |c| <= size && (i < |rest| ==> |c| == size)
      {
        if i > 0 { assert ([first] + rest)[i] == rest[i - 1]; }
      }
    }
  }

  class Chunker<T> {
    var inner: seq<T>
    const chunkSize: nat

    constructor (inner: seq<T>, chunkSize: nat)
      ensures this.inner == inner && this.chunkSize == chunkSize
    {
      this.inner := inner;
      this.chunkSize := chunkSize;
    }

    /** Polling until `None` yields exactly `Chunks`. */
    method Next() returns (r: Option<seq<T>>)
      modifies this
      ensures r.None? ==> old(inner) == [] && inner == []
      ensures r.Some? ==> Chunks(old(inner), chunkSize) == [r.value] + Chunks(inner, chunkSize)
    {
      var entries: seq<T> := [];
      while inner != []
        invariant old(inner) == entries + inner
        invariant chunkSize == 0 || |entries| < chunkSize
        decreases |inner|
      {
        entries := entries + [inner[0]];
        inner := inner[1..];
        if |entries| == chunkSize {
          assert old(inner)[..chunkSize] == entries && old(inner)[chunkSize..] == inner;
          if inner == [] { assert old(inner) == entries && Chunks(inner, chunkSize) == []; }
          return Some(entries);
        }
      }
      if |entries| == 0 { return None; }
      assert old(inner) == entries && Chunks(inner, chunkSize) == [];
      assert Chunks(entries, chunkSize) == [entries];
      return Some(entries);
    }
  }

  // ------------------------------------------------------------- the object

  class Shares {
    /** File paths mapped to their size. */
    var files: map<Bytes, u64>
    /** Directory paths mapped to the size of everything in them. */
    var dirs: map<Bytes, u64>
    /** Aliases mapped to the directory shared under them. */
    var shareNames: map<Name, Bytes>
    ghost var origin: map<Bytes, Bytes>

    ghost function Value(): Index
      reads this
    {
      Index(files, dirs, shareNames, origin)
    }

    constructor ()
      ensures Value() == EMPTY && Valid(Value())
    {
      files, dirs, shareNames, origin := map[], map[], map[], map[];
    }

    method InsertFile(name: Name, root: Bytes, rel: Bytes, size: u64)
      modifies this
      ensures Value() == AddFile(old(Value()), name, root, rel, size)
    {
      var filepath := IndexPath(name, rel);
      var above := Ancestors(filepath);
      for i := 0 to |above|
        invariant files == old(files) && shareNames == old(shareNames) && origin == old(origin)
        invariant dirs == MergeAll(old(dirs), above[..i], size)
      {
        var subPath := above[i];
        assert above[..i + 1][..i] == above[..i];
        dirs := dirs[subPath := WrapAdd(SizeOf(dirs, subPath), size)];
      }
      assert above[..|above|] == above;
      files := files[filepath := size];
      origin := origin[filepath := DiskPath(root, rel)];
    }

    /** Index a directory. Whatever the walk reports and wherever it fails, the
        index stays valid if the walk is of a directory tree. */
    method Scan(root: Bytes, walk: seq<WalkEvent>) returns (r: ScanResult)
      modifies this
      ensures (Value(), r) == ScanShare(old(Value()), root, walk)
      ensures old(Valid(Value())) && WalkOfTree(walk) ==> Valid(Value())
    {
      if Valid(Value()) && WalkOfTree(walk) { ScanValid(Value(), root, walk); }
      var chosen := ShareNameForPath(shareNames, root);
      if chosen.None? { return Failed(NoFileName); }
      var name := chosen.value;
      var _ := RemoveShareDir(name);
      shareNames := shareNames[name := root];
      r := StoreWalk(name, root, walk);
    }

    /** The loop over the directory walk. */
    method StoreWalk(name: Name, root: Bytes, walk: seq<WalkEvent>) returns (r: ScanResult)
      modifies this
      ensures (Value(), r) == Absorb(old(Value()), name, root, walk)
    {
      ghost var start := Value();
      var added := 0;
      for i := 0 to |walk|
        invariant Absorb(start, name, root, walk) == Later(Absorb(Value(), name, root, walk[i..]), added)
      {
        assert walk[i..][0] == walk[i] && walk[i..][1..] == walk[i + 1..];
        match walk[i] {
          case WalkFailed => return Failed(WalkError);
          case MetadataFailed => return Failed(MetadataError);
          case BadPath => return Failed(PathError);
          case Directory =>
          case File(rel, size, lateFailure) =>
            InsertFile(name, root, rel, size);
            if lateFailure { return Failed(MetadataError); }
            added := added + 1;
        }
      }
      return Added(added);
    }

    static ghost function Later(r: (Index, ScanResult), added: nat): (Index, ScanResult) {
      (r.0, if r.1.Added? then Added(r.1.count + added) else r.1)
    }

    /** Stop sharing; `false` is `NoShare`. */
    method RemoveShareDir(name: Bytes) returns (existed: bool)
      modifies this
      ensures Value() == RemoveShare(old(Value()), name)
      ensures existed <==> name in old(dirs)
      ensures old(Valid(Value())) && name in old(shareNames) ==> Valid(Value())
    {
      if Valid(Value()) && name in shareNames { RemoveAliasValid(Value(), name); }
      if name !in dirs { return false; }
      var existingSize := dirs[name];
      var newSize: u64 := if [] in dirs then WrapSub(dirs[[]], existingSize) else 0;
      dirs := dirs[[] := newSize];
      dirs := DeleteMatching(dirs, name);
      files := DeleteMatching(files, name);
      shareNames := shareNames - {name};
      origin := Keep(origin, name);
      return true;
    }

    /** Where an indexed path is on disk. With a valid index that is where the file
        was scanned from, and the only error is an unknown path. */
    method ResolvePath(input: Bytes) returns (r: ResolveResult)
      ensures r == Resolve(files, shareNames, input)
      ensures Valid(Value()) ==> r == if input in files then Resolved(origin[input], files[input]) else FileNotFound
      ensures Valid(Value()) && input in files ==>
                var alias := Split(input)[0];
                alias in shareNames && Parse(r.path) == Parse(shareNames[alias]) + Inner(Split(input)[1..])
    {
      hide Valid, Parse, ComponentText, DiskPath, Join, Split, Inner;
      if Valid(Value()) {
        ResolvesToOrigin(Value(), input);
        if input in files {
          AliasListed(Value(), input);
          ResolvesInsideShare(Value(), input);
        }
      }
      if input !in files { return FileNotFound; }
      var size := files[input];
      var components := Parse(input);
      if components == [] { return MissingFirstComponent; }
      var shareName := ComponentText(components[0]);
      var subPath: seq<Bytes> := [];
      for i := 1 to |components|
        invariant ComponentTexts(components) == [shareName] + subPath + ComponentTexts(components[i..])
      {
        subPath := subPath + [ComponentText(components[i])];
      }
      assert [shareName] + subPath + [] == [shareName] + subPath && ([shareName] + subPath)[1..] == subPath;
      if shareName !in shareNames { return BadShareName; }
      return Resolved(DiskPath(shareNames[shareName], Join(subPath)), size);
    }
  }

  /** Scan the keys that extend `name` and delete those at or below it. */
  method DeleteMatching(tree: map<Bytes, u64>, name: Bytes) returns (r: map<Bytes, u64>)
    ensures r == Keep(tree, name)
  {
    r := tree;
    var keys := ScanPrefix(tree, name);
    for i := 0 to |keys|
      invariant r == map k | k in tree && !(k in keys[..i] && KeyMatches(k, name)) :: tree[k]
    {
      assert keys[..i + 1] == keys[..i] + [keys[i]];
      if KeyMatches(keys[i], name) { r := r - {keys[i]}; }
    }
    assert keys[..|keys|] == keys;
    assert forall k | k in tree && KeyMatches(k, name) :: name <= k;
  }
}
