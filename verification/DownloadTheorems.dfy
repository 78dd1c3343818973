/** What a download from a valid remote index leaves in the wishlist. */
module DownloadTheorems {
  import opened Bytes
  import opened Paths
  import opened MapSum
  import opened WishlistCodec
  import opened WishlistStore
  import opened Download
  import Shares
  import Index = ShareIndex

  predicate AtOrBelow(path: Bytes, f: Bytes) {
    f == path || Below(path, f)
  }

  predicate Indexed(ix: Index.Index, p: Bytes) {
    p in ix.files || p in ix.dirs
  }

  // ---------------------------------------------------- paths of an index

  lemma IndexedIsSafe(ix: Index.Index, p: Bytes)
    requires Index.Valid(ix) && Indexed(ix, p)
    ensures SafeRelative(p) == Some(Components(p))
  {
    if p in ix.files {
      assert Index.FilePath(ix.names.Keys, p);
    } else if p != [] {
      var f :| f in ix.files && Below(p, f);
      assert Index.FilePath(ix.names.Keys, f);
      DirWellFormed(p, f);
    }
    WellFormedIsSafe(p);
  }

  lemma DirWellFormed(d: Bytes, f: Bytes)
    requires d != [] && Below(d, f) && WellFormed(f)
    ensures WellFormed(d)
  {
    var rest := f[|d| + 1..];
    assert f == d + [SEP] + rest;
    SplitAppend(d, rest);
    forall n | n in Split(d) ensures GoodName(n) {
      assert n in Split(d) + Split(rest);
    }
  }

  lemma FileNotDir(ix: Index.Index, p: Bytes)
    requires Index.Valid(ix)
    ensures p in ix.files ==> p != [] && p !in ix.dirs
  {
    if p in ix.files { assert Index.FilePath(ix.names.Keys, p); }
  }

  /** Of the indexed paths the component filter takes the requested one and those
      below it; a sibling that shares a byte prefix is not taken. */
  lemma TakesAtOrBelow(ix: Index.Index, path: Bytes, e: Entry)
    requires Index.Valid(ix) && Indexed(ix, path) && Indexed(ix, e.name)
    ensures Takes(Components(path), e) <==> AtOrBelow(path, e.name)
  {
    IndexedIsSafe(ix, e.name);
    WithinIsAtOrBelow(path, e.name);
  }

  // ------------------------------------------------ the shape of a listing

  ghost function Rows(tree: map<Bytes, u64>, isDir: bool, path: Bytes): seq<Entry> {
    var keys := ScanPrefix(tree, path);
    seq(|keys|, i requires 0 <= i < |keys| => assert keys[i] in keys; Shares.Entry(keys[i], tree[keys[i]], isDir))
  }

  lemma {:induction false} FilterMapAll(keys: seq<Bytes>, tree: map<Bytes, u64>, isDir: bool, path: Bytes)
    requires forall k | k in keys :: k in tree && path <= k
    ensures var r := Shares.FilterMap(keys, tree, isDir, true, path);
            |r| == |keys| && forall i | 0 <= i < |keys| ::
                keys[i] in tree && r[i] == Shares.Entry(keys[i], tree[keys[i]], isDir)
  {
    if keys != [] {
      assert keys[0] in keys && forall k | k in keys[1..] :: k in keys;
      FilterMapAll(keys[1..], tree, isDir, path);
    }
  }

  lemma QueryIsRows(ix: Index.Index, path: Bytes)
    requires Indexed(ix, path)
    ensures Shares.Query(ix.files, ix.dirs, path, true) == Some(Rows(ix.dirs, true, path) + Rows(ix.files, false, path))
  {
    FilterMapAll(ScanPrefix(ix.dirs, path), ix.dirs, true, path);
    FilterMapAll(ScanPrefix(ix.files, path), ix.files, false, path);
    assert Shares.FilterMap(ScanPrefix(ix.dirs, path), ix.dirs, true, true, path) == Rows(ix.dirs, true, path);
    assert Shares.FilterMap(ScanPrefix(ix.files, path), ix.files, false, true, path) == Rows(ix.files, false, path);
  }

  lemma RowsHold(tree: map<Bytes, u64>, isDir: bool, path: Bytes)
    ensures forall e | e in Rows(tree, isDir, path) :: e.isDir == isDir && e.name in tree && tree[e.name] == e.size
    ensures forall k | k in tree && path <= k :: Shares.Entry(k, tree[k], isDir) in Rows(tree, isDir, path)
  {
    var keys := ScanPrefix(tree, path);
    forall e | e in Rows(tree, isDir, path) ensures e.isDir == isDir && e.name in tree && tree[e.name] == e.size {
      var i :| 0 <= i < |keys| && Rows(tree, isDir, path)[i] == e;
      assert keys[i] in keys;
    }
    forall k | k in tree && path <= k ensures Shares.Entry(k, tree[k], isDir) in Rows(tree, isDir, path) {
      var i :| 0 <= i < |keys| && keys[i] == k;
      assert Rows(tree, isDir, path)[i] == Shares.Entry(k, tree[k], isDir);
    }
  }

  /** A stored path is the first row of its own listing and occurs once. */
  lemma PathRowFirst(tree: map<Bytes, u64>, isDir: bool, path: Bytes)
    requires path in tree
    ensures var rows := Rows(tree, isDir, path);
            && rows != [] && rows[0] == Shares.Entry(path, tree[path], isDir)
            && forall e | e in rows[1..] :: e.name != path
  {
    var keys, rows := ScanPrefix(tree, path), Rows(tree, isDir, path);
    ScanFindsKeyFirst(tree, path);
    forall e | e in rows[1..] ensures e.name != path {
      var i :| 0 <= i < |rows[1..]| && rows[1..][i] == e;
      assert rows[i + 1] == e && keys[0] != keys[i + 1];
    }
  }

  /** How a listing splits around the requested path: other directories, the path's
      own entry, then entries with other names among which are all files. */
  ghost predicate Splits(ix: Index.Index, path: Bytes, dirs: seq<Entry>, found: Entry, rest: seq<Entry>) {
    && Shares.Query(ix.files, ix.dirs, path, true) == Some(dirs + ([found] + rest))
    && (forall i | 0 <= i < |dirs| :: dirs[i].isDir && dirs[i].name != path)
    && found.name == path && (found.isDir <==> path in ix.dirs)
    && (if path in ix.dirs then ix.dirs[path] == found.size else path in ix.files && ix.files[path] == found.size)
    && (forall e | e in rest :: e.name != path)
    && (forall e | e in [found] + rest :: Indexed(ix, e.name))
    && SizedBy([found] + rest, ix.files)
    && (forall f | f in ix.files && path <= f :: Shares.Entry(f, ix.files[f], false) in [found] + rest)
  }

  lemma DirListing(ix: Index.Index, path: Bytes) returns (found: Entry, rest: seq<Entry>)
    requires path in ix.dirs && path !in ix.files
    ensures Splits(ix, path, [], found, rest)
  {
    hide Rows, Shares.Query;
    var ds, fs := Rows(ix.dirs, true, path), Rows(ix.files, false, path);
    QueryIsRows(ix, path);
    RowsHold(ix.dirs, true, path);
    RowsHold(ix.files, false, path);
    PathRowFirst(ix.dirs, true, path);
    found, rest := ds[0], ds[1..] + fs;
    assert ds == [found] + ds[1..];
    assert [found] + rest == ds + fs == [] + ([found] + rest);
  }

  lemma FileListing(ix: Index.Index, path: Bytes) returns (dirs: seq<Entry>, found: Entry, rest: seq<Entry>)
    requires path in ix.files && path !in ix.dirs
    ensures Splits(ix, path, dirs, found, rest)
  {
    hide Rows, Shares.Query;
    var ds, fs := Rows(ix.dirs, true, path), Rows(ix.files, false, path);
    QueryIsRows(ix, path);
    RowsHold(ix.dirs, true, path);
    RowsHold(ix.files, false, path);
    PathRowFirst(ix.files, false, path);
    dirs, found, rest := ds, fs[0], fs[1..];
    assert fs == [found] + rest;
    forall i | 0 <= i < |ds| ensures ds[i].isDir && ds[i].name != path {
      assert ds[i] in ds;
    }
  }

  // ------------------------------------------------------------- the theorem

  ghost function Answer(ix: Index.Index, path: Bytes): seq<Entry>
    requires Indexed(ix, path)
  {
    Shares.Query(ix.files, ix.dirs, path, true).value
  }

  ghost function SizeIn(ix: Index.Index, path: Bytes): u64
    requires Indexed(ix, path)
  {
    if path in ix.dirs then ix.dirs[path] else ix.files[path]
  }

  function JobFor(path: Bytes, id: u32, peer: PublicKey, clock: nat -> u64): Job {
    Job(path, Components(path), id, peer, clock)
  }

  ghost function NewFiles(ix: Index.Index, r: DownloadRequest): map<FileId, FileState> {
    map f | f in ix.files && AtOrBelow(r.path, f) :: FileId(r.requestId, f) := FileState(ix.files[f], false)
  }

  ghost function NewSlots(ix: Index.Index, r: DownloadRequest): map<Slot, Wanted> {
    map f | f in ix.files && AtOrBelow(r.path, f) :: SlotOf(r, f) := Wanted(r.requestId, ix.files[f])
  }

  /** The wishlist with one more request and the indexed files at or below its path,
      all outstanding. */
  ghost function Collect(ix: Index.Index, st: Store, r: DownloadRequest): Store {
    AddRequest(st, r).(files := st.files + NewFiles(ix, r), outstanding := st.outstanding + NewSlots(ix, r))
  }

  lemma NamesAre(ix: Index.Index, job: Job, dirs: seq<Entry>, found: Entry, rest: seq<Entry>, f: Bytes)
    requires Index.Valid(ix) && Indexed(ix, job.path) && job.requested == Components(job.path)
    requires Splits(ix, job.path, dirs, found, rest)
    ensures Names(job, [found] + rest, f) <==> f in ix.files && AtOrBelow(job.path, f)
  {
    hide Index.Valid, Takes, Shares.Query;
    var tail := [found] + rest;
    if Names(job, tail, f) {
      var e :| e in tail && Takes(job.requested, e) && !e.isDir && e.name == f;
      TakesAtOrBelow(ix, job.path, e);
    }
    if f in ix.files && AtOrBelow(job.path, f) {
      var e := Shares.Entry(f, ix.files[f], false);
      TakesAtOrBelow(ix, job.path, e);
      assert e in tail;
    }
  }

  lemma SplitParts(ix: Index.Index, path: Bytes, dirs: seq<Entry>, found: Entry, rest: seq<Entry>)
    requires Splits(ix, path, dirs, found, rest)
    ensures SizedBy([found] + rest, ix.files) && found.name == path
  {
  }

  lemma FilledCollects(ix: Index.Index, st: Store, job: Job, dirs: seq<Entry>, found: Entry, rest: seq<Entry>)
    requires Index.Valid(ix) && Indexed(ix, job.path) && job.requested == Components(job.path)
    requires Splits(ix, job.path, dirs, found, rest)
    ensures var r := RequestFor(job, found, |dirs|);
            Filled(AddRequest(st, r), job, r.timestamp, [found] + rest) == Collect(ix, st, r)
  {
    hide Index.Valid, Takes, Names, Splits;
    var r, tail := RequestFor(job, found, |dirs|), [found] + rest;
    SplitParts(ix, job.path, dirs, found, rest);
    assert FilesOf(job, tail) == NewFiles(ix, r) by {
      forall k: FileId
        ensures k in FilesOf(job, tail) <==> k in NewFiles(ix, r)
        ensures k in FilesOf(job, tail) ==> FilesOf(job, tail)[k] == NewFiles(ix, r)[k]
      {
        FilesOfHolds(job, tail, ix.files, k);
        NamesAre(ix, job, dirs, found, rest, k.path);
      }
    }
    assert SlotsOf(job, r.timestamp, tail) == NewSlots(ix, r) by {
      forall s: Slot
        ensures s in SlotsOf(job, r.timestamp, tail) <==> s in NewSlots(ix, r)
        ensures s in SlotsOf(job, r.timestamp, tail) ==> SlotsOf(job, r.timestamp, tail)[s] == NewSlots(ix, r)[s]
      {
        SlotsOfHolds(job, r.timestamp, tail, ix.files, s);
        NamesAre(ix, job, dirs, found, rest, s.path);
      }
    }
  }

  lemma FoundTaken(ix: Index.Index, path: Bytes, found: Entry)
    requires Index.Valid(ix) && Indexed(ix, path) && found.name == path
    ensures Takes(Components(path), found)
  {
    TakesAtOrBelow(ix, path, found);
  }

  /** For a valid remote index and any path in it, what `download` adds is the
      request and exactly the files at or below the path. No file comes before the
      request: it would have been dropped. */
  lemma DownloadCollects(ix: Index.Index, path: Bytes, st: Store, id: u32, peer: PublicKey, clock: nat -> u64)
    returns (n: nat)
    requires Index.Valid(ix) && Indexed(ix, path)
    ensures Expand(st, JobFor(path, id, peer, clock), Answer(ix, path), 0)
         == Collect(ix, st, DownloadRequest(path, SizeIn(ix, path), id, clock(n), peer, path in ix.dirs))
  {
    hide Index.Valid, Takes, Filled, Expand, Collect, Shares.Query;
    var job := JobFor(path, id, peer, clock);
    FileNotDir(ix, path);
    var dirs: seq<Entry>, found: Entry, rest: seq<Entry>;
    if path in ix.dirs {
      dirs := [];
      found, rest := DirListing(ix, path);
    } else {
      dirs, found, rest := FileListing(ix, path);
    }
    FoundTaken(ix, path, found);
    ExpandListing(st, job, dirs, found, rest);
    FilledCollects(ix, st, job, dirs, found, rest);
    n := |dirs|;
  }

  // ------------------------------------------------------------------- sizes

  ghost function Chosen(files: map<Bytes, u64>, path: Bytes): map<Bytes, u64> {
    map f | f in files && AtOrBelow(path, f) :: files[f]
  }

  lemma ValidAt(ix: Index.Index, path: Bytes)
    requires Index.Valid(ix)
    ensures path in ix.dirs ==> ix.dirs[path] == Mod64(Index.Total(ix.files, path))
    ensures path in ix.files ==> forall f | f in ix.files :: !Below(path, f)
  {
    hide Below, Index.Total, Index.FilePath;
  }

  lemma ChosenBelow(files: map<Bytes, u64>, path: Bytes)
    requires path !in files
    ensures Chosen(files, path) == Index.Under(files, path)
  {
    hide Below;
  }

  lemma ChosenFile(files: map<Bytes, u64>, path: Bytes)
    requires path in files && forall f | f in files :: !Below(path, f)
    ensures Sum(Chosen(files, path)) == files[path]
  {
    hide Below;
    var chosen := Chosen(files, path);
    assert chosen == map[path := files[path]];
    SumPick(chosen, path);
    assert chosen - {path} == map[];
  }

  lemma ChosenSize(ix: Index.Index, path: Bytes)
    requires Index.Valid(ix) && Indexed(ix, path)
    ensures SizeIn(ix, path) == Mod64(Sum(Chosen(ix.files, path)))
  {
    hide Index.Valid, Below, Chosen, Sum;
    FileNotDir(ix, path);
    ValidAt(ix, path);
    if path in ix.dirs {
      ChosenBelow(ix.files, path);
    } else {
      ChosenFile(ix.files, path);
    }
  }

  lemma NewSizes(ix: Index.Index, st: Store, r: DownloadRequest)
    requires forall k | k in st.files :: k.requestId != r.requestId
    ensures Total(Collect(ix, st, r), r.requestId) == Sum(Chosen(ix.files, r.path))
  {
    hide AtOrBelow;
    var chosen, sizes := Chosen(ix.files, r.path), Sizes(Collect(ix, st, r).files, r.requestId);
    forall f | f in chosen ensures FileId(r.requestId, f) in sizes && sizes[FileId(r.requestId, f)] == chosen[f] {
      assert FileId(r.requestId, f) in NewFiles(ix, r);
    }
    SumRename(chosen, sizes, f => FileId(r.requestId, f));
  }

  /** The files of a download sum to the size its request records; exactly, unless
      they exceed 64 bits. */
  lemma DownloadSizesSum(ix: Index.Index, path: Bytes, st: Store, r: DownloadRequest)
    requires Index.Valid(ix) && Indexed(ix, path)
    requires r.path == path && r.totalSize == SizeIn(ix, path)
    requires forall k | k in st.files :: k.requestId != r.requestId
    ensures r.totalSize == Mod64(Total(Collect(ix, st, r), r.requestId))
    ensures Total(Collect(ix, st, r), r.requestId) < 0x1_0000_0000_0000_0000 ==>
              Total(Collect(ix, st, r), r.requestId) == r.totalSize
  {
    hide Index.Valid, Collect, Chosen, Sum, Sizes;
    ChosenSize(ix, path);
    NewSizes(ix, st, r);
  }

  // --------------------------------------------------------------- agreement

  /** No file to be added shares its by-peer key with another request's. */
  ghost predicate SlotsFree(ix: Index.Index, st: Store, r: DownloadRequest) {
    forall f | f in ix.files && AtOrBelow(r.path, f) :: SlotOf(r, f) !in st.outstanding
  }

  /** New files of one request and their by-peer entries, matching one to one. */
  predicate Matched(r: DownloadRequest, files: map<FileId, FileState>, slots: map<Slot, Wanted>) {
    && (forall k | k in files ::
          k.requestId == r.requestId && !files[k].downloaded && SlotOf(r, k.path) in slots)
    && (forall s | s in slots ::
          && s == SlotOf(r, s.path) && FileId(r.requestId, s.path) in files
          && slots[s] == Wanted(r.requestId, files[FileId(r.requestId, s.path)].size))
  }

  lemma NewMatched(ix: Index.Index, r: DownloadRequest)
    ensures Matched(r, NewFiles(ix, r), NewSlots(ix, r))
  {
    hide AtOrBelow;
  }

  function Joined(st: Store, r: DownloadRequest, files: map<FileId, FileState>, slots: map<Slot, Wanted>): Store {
    AddRequest(st, r).(files := st.files + files, outstanding := st.outstanding + slots)
  }

  lemma JoinedProgress(st: Store, r: DownloadRequest, files: map<FileId, FileState>, slots: map<Slot, Wanted>, id: u32)
    requires Matched(r, files, slots) && ProgressAt(st, id) && forall k | k in st.files :: k.requestId != r.requestId
    ensures ProgressAt(Joined(st, r, files, slots), id)
  {
    assert DoneSizes(st.files + files, id) == DoneSizes(st.files, id);
  }

  lemma JoinedTracked(st: Store, r: DownloadRequest, files: map<FileId, FileState>, slots: map<Slot, Wanted>)
    requires Matched(r, files, slots) && FilesTracked(st) && r.requestId !in st.requests
    requires forall s | s in slots :: s !in st.outstanding
    ensures FilesTracked(Joined(st, r, files, slots))
  {
    var st' := Joined(st, r, files, slots);
    forall k | k in st'.files
      ensures k.requestId in st'.requests && (IsOutstanding(st', k) <==> !st'.files[k].downloaded)
    {
      if k !in files {
        assert k in st.files && k.requestId != r.requestId;
        assert IsOutstanding(st', k) <==> IsOutstanding(st, k);
      }
    }
  }

  lemma TakenSlotLosesOld(st: Store, r: DownloadRequest, files: map<FileId, FileState>, slots: map<Slot, Wanted>,
                          slot: Slot)
    requires Matched(r, files, slots) && FilesTracked(st) && OutstandingBacked(st) && r.requestId !in st.requests
    requires slot in slots && slot in st.outstanding
    ensures !FilesTracked(Joined(st, r, files, slots))
  {
    var st' := Joined(st, r, files, slots);
    var lost := FileId(st.outstanding[slot].requestId, slot.path);
    assert Backed(st, slot) && IsOutstanding(st, lost);
    assert lost in st'.files && !st'.files[lost].downloaded && !IsOutstanding(st', lost);
  }

  lemma JoinedAgreesIff(st: Store, r: DownloadRequest, files: map<FileId, FileState>, slots: map<Slot, Wanted>)
    requires Matched(r, files, slots) && Agree(st) && r.requestId !in st.requests
    ensures Agree(Joined(st, r, files, slots)) <==> forall s | s in slots :: s !in st.outstanding
  {
    var st' := Joined(st, r, files, slots);
    forall id: u32 ensures ProgressAt(st', id) {
      assert ProgressAt(st, id);
      JoinedProgress(st, r, files, slots, id);
    }
    if slot :| slot in slots && slot in st.outstanding {
      TakenSlotLosesOld(st, r, files, slots, slot);
    } else {
      JoinedTracked(st, r, files, slots);
    }
  }

  /** A download under a new request id keeps the wishlist's trees in agreement if
      and only if none of its by-peer keys is taken. */
  lemma DownloadAgreesIff(ix: Index.Index, st: Store, r: DownloadRequest)
    requires Agree(st) && r.requestId !in st.requests
    ensures Agree(Collect(ix, st, r)) <==> SlotsFree(ix, st, r)
  {
    hide AtOrBelow, Agree;
    NewMatched(ix, r);
    JoinedAgreesIff(st, r, NewFiles(ix, r), NewSlots(ix, r));
    assert Collect(ix, st, r) == Joined(st, r, NewFiles(ix, r), NewSlots(ix, r));
    assert forall f | f in ix.files && AtOrBelow(r.path, f) :: SlotOf(r, f) in NewSlots(ix, r);
  }

  // ------------------------------------------------- whatever a peer answers

  /** A download puts nothing on the wishlist but safe paths within the requested one,
      under its own id, whatever the peer answers. */
  lemma DownloadStaysWithin(st: Store, path: Bytes, replies: seq<Reply>, id: u32, peer: PublicKey, clock: nat -> u64)
    requires SafeRelative(path).Some?
    ensures var job := Job(path, Kept(Split(path)), id, peer, clock);
            && SafeRelative(path) == Some(job.requested)
            && OnlyWithin(st, Expand(st, job, Listed(replies), 0), job)
  {
    hide SafeRelative, Split, Kept, Expand, Listed;
    SafeIff(path);
    OnlySafePathsStored(st, st, Job(path, Kept(Split(path)), id, peer, clock), Listed(replies), 0);
  }

  // ------------------------------------------------------------------ chunks

  function Listings(chunks: seq<seq<Entry>>): seq<Reply> {
    seq(|chunks|, i requires 0 <= i < |chunks| => Listing(chunks[i]))
  }

  lemma {:induction false} ListedListings(chunks: seq<seq<Entry>>)
    ensures Listed(Listings(chunks)) == Shares.Flatten(chunks)
  {
    if chunks != [] {
      assert Listings(chunks)[1..] == Listings(chunks[1..]);
      ListedListings(chunks[1..]);
    }
  }

  /** Sending an answer in chunks of any size does not change what is read. */
  lemma AnswerInChunks(entries: seq<Entry>, size: nat)
    ensures Listed(Listings(Shares.Chunks(entries, size))) == entries
  {
    Shares.ChunksFlatten(entries, size);
    ListedListings(Shares.Chunks(entries, size));
  }

  /** End to end: what the download loop does with the chunked answer of a peer whose
      index is valid. */
  lemma DownloadFromPeer(ix: Index.Index, path: Bytes, st: Store, id: u32, peer: PublicKey, clock: nat -> u64)
    returns (r: DownloadRequest)
    requires Index.Valid(ix) && Indexed(ix, path)
    ensures SafeRelative(path).Some?
    ensures var replies := Listings(Shares.Chunks(Answer(ix, path), 64));
            Expand(st, Job(path, SafeRelative(path).value, id, peer, clock), Listed(replies), 0) == Collect(ix, st, r)
    ensures r.path == path && r.requestId == id && r.peer == peer
    ensures r.totalSize == SizeIn(ix, path) && (r.isDir <==> path in ix.dirs)
  {
    hide Index.Valid, Collect, Expand, SafeRelative;
    IndexedIsSafe(ix, path);
    AnswerInChunks(Answer(ix, path), 64);
    var n := DownloadCollects(ix, path, st, id, peer, clock);
    r := DownloadRequest(path, SizeIn(ix, path), id, clock(n), peer, path in ix.dirs);
  }
}
