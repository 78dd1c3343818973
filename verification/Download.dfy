/** From a listing to wishlist records: which entries of a peer's answer a download
    request takes, and what it leaves in the wishlist. */
module Download {
  import opened Bytes
  import opened Paths
  import opened WishlistCodec
  import opened WishlistStore
  import opened Wishlist
  import Shares
  import Index = ShareIndex

  type Entry = Shares.Entry

  /** An item of the answer stream: a listing, an error answer, or a broken frame. */
  datatype Reply = Listing(entries: seq<Entry>) | Refusal | BadFrame

  /** `clock(n)` is the second in which entry `n` of the answer is handled. */
  datatype Job = Job(path: Bytes, requested: seq<Name>, id: u32, peer: PublicKey, clock: nat -> u64)

  datatype Outcome = Started(id: u32) | InvalidPath | RequestFailed | NotConnected

  // -------------------------------------------------------- the specification

  /** The entry is safe and lies within the requested path, by components. */
  ghost predicate Takes(requested: seq<Name>, e: Entry) {
    var safe := SafeRelative(e.name);
    safe.Some? && WithinRequest(requested, safe.value)
  }

  function RequestFor(job: Job, e: Entry, n: nat): DownloadRequest {
    DownloadRequest(e.name, e.size, job.id, job.clock(n), job.peer, e.isDir)
  }

  function FileFor(job: Job, e: Entry): RequestedFile {
    RequestedFile(e.name, e.size, job.id, false)
  }

  ghost function ExpandEntry(st: Store, job: Job, e: Entry, n: nat): Store {
    if !Takes(job.requested, e) then st
    else
      var withRequest := if e.name == job.path then AddRequest(st, RequestFor(job, e, n)) else st;
      if e.isDir then withRequest else AddFile(withRequest, FileFor(job, e)).0
  }

  ghost function Expand(st: Store, job: Job, entries: seq<Entry>, n: nat): Store
    decreases |entries|
  {
    if entries == [] then st else Expand(ExpandEntry(st, job, entries[0], n), job, entries[1..], n + 1)
  }

  /** The entries that are read: error answers are skipped, a broken frame ends. */
  function Listed(replies: seq<Reply>): seq<Entry> {
    if replies == [] || replies[0].BadFrame? then []
    else (if replies[0].Listing? then replies[0].entries else []) + Listed(replies[1..])
  }

  /** A broken frame ends the answer. */
  lemma {:induction false} ListedStops(before: seq<Reply>, after: seq<Reply>)
    ensures Listed(before + [BadFrame] + after) == Listed(before)
  {
    if before != [] {
      assert (before + [BadFrame] + after)[1..] == before[1..] + [BadFrame] + after;
      ListedStops(before[1..], after);
    }
  }

  /** An error answer is passed over. */
  lemma {:induction false} ListedSkips(before: seq<Reply>, after: seq<Reply>)
    ensures Listed(before + [Refusal] + after) == Listed(before + after)
  {
    if before == [] {
      assert ([] + [Refusal] + after)[1..] == after && [] + after == after;
    } else {
      assert (before + [Refusal] + after)[1..] == before[1..] + [Refusal] + after;
      assert (before + after)[1..] == before[1..] + after;
      ListedSkips(before[1..], after);
    }
  }

  // ------------------------------------------------- whatever a peer answers

  /** What is stored was stored before, or is of this request, by a path that stays in
      the download directory and lies within the requested one. */
  ghost predicate OnlyWithin(was: Store, st: Store, job: Job) {
    && (forall k | k in st.files && k !in was.files ::
          && k.requestId == job.id && SafeRelative(k.path).Some?
          && WithinRequest(job.requested, SafeRelative(k.path).value))
    && (forall i | i in st.requests && i !in was.requests :: i == job.id)
    && (forall i | i in was.requests && i != job.id :: i in st.requests && st.requests[i] == was.requests[i])
    && (forall k | k in was.files && k.requestId != job.id :: k in st.files && st.files[k] == was.files[k])
  }

  lemma EntryStaysWithin(was: Store, st: Store, job: Job, e: Entry, n: nat)
    requires OnlyWithin(was, st, job)
    ensures OnlyWithin(was, ExpandEntry(st, job, e, n), job)
  {
    hide SafeRelative, WithinRequest;
  }

  /** Whatever entries a peer lists, true to its index or not, only safe paths within
      the requested one get onto the wishlist, under the new request alone; everything
      of other requests stays. */
  lemma {:induction false} OnlySafePathsStored(was: Store, st: Store, job: Job, entries: seq<Entry>, n: nat)
    requires OnlyWithin(was, st, job)
    ensures OnlyWithin(was, Expand(st, job, entries, n), job)
    decreases |entries|
  {
    hide OnlyWithin, ExpandEntry;
    if entries != [] {
      EntryStaysWithin(was, st, job, entries[0], n);
      OnlySafePathsStored(was, ExpandEntry(st, job, entries[0], n), job, entries[1..], n + 1);
    }
  }

  // --------------------------------------------------------------- the method

  method TakeEntry(wishlist: WishList, job: Job, e: Entry, n: nat)
    requires wishlist.Valid()
    modifies wishlist
    ensures wishlist.Valid() && wishlist.store == ExpandEntry(old(wishlist.store), job, e, n)
  {
    var entryPath := SafeRemoteRelativePath(e.name);
    if entryPath.None? || !WithinRequest(job.requested, entryPath.value) { return; }
    if e.name == job.path { wishlist.AddRequest(RequestFor(job, e, n)); }
    if !e.isDir {
      var _ := wishlist.AddRequestedFile(FileFor(job, e));
    }
  }

  /** `response` is `None` when the listing request fails, `peer` is `None` when the
      peer has gone by the time it is looked up. */
  method Download(wishlist: WishList, path: Bytes, response: Option<seq<Reply>>, peer: Option<PublicKey>,
                  id: u32, clock: nat -> u64)
    returns (r: Outcome)
    requires wishlist.Valid()
    modifies wishlist
    ensures wishlist.Valid()
    ensures r == if SafeRelative(path).None? then InvalidPath
                 else if response.None? then RequestFailed
                 else if peer.None? then NotConnected
                 else Started(id)
    ensures wishlist.store ==
              if r.Started?
              then Expand(old(wishlist.store), Job(path, SafeRelative(path).value, id, peer.value, clock),
                          Listed(response.value), 0)
              else old(wishlist.store)
  {
    hide SafeRelative, ExpandEntry, WishList.Valid;
    var requested := SafeRemoteRelativePath(path);
    if requested.None? { return InvalidPath; }
    if response.None? { return RequestFailed; }
    if peer.None? { return NotConnected; }
    var job, replies := Job(path, requested.value, id, peer.value, clock), response.value;
    ghost var whole := Expand(wishlist.store, job, Listed(replies), 0);
    var i, n := 0, 0;
    while i < |replies| && !replies[i].BadFrame?
      invariant i <= |replies| && wishlist.Valid()
      invariant whole == Expand(wishlist.store, job, Listed(replies[i..]), n)
    {
      ghost var rest := Listed(replies[i + 1..]);
      assert replies[i..][1..] == replies[i + 1..];
      if replies[i].Listing? {
        var entries := replies[i].entries;
        for j := 0 to |entries|
          invariant wishlist.Valid()
          invariant whole == Expand(wishlist.store, job, entries[j..] + rest, n)
        {
          assert (entries[j..] + rest)[1..] == entries[j + 1..] + rest;
          TakeEntry(wishlist, job, entries[j], n);
          n := n + 1;
        }
        assert entries[|entries|..] + rest == rest;
      } else {
        assert [] + rest == rest;
      }
      i := i + 1;
    }
    return Started(id);
  }

  // ---------------------------------------------- what an expansion amounts to

  ghost function FilesOf(job: Job, entries: seq<Entry>): map<FileId, FileState> {
    if entries == [] then map[]
    else
      var e, rest := entries[0], FilesOf(job, entries[1..]);
      if Takes(job.requested, e) && !e.isDir
      then map[FileId(job.id, e.name) := FileState(e.size, false)] + rest
      else rest
  }

  ghost function SlotsOf(job: Job, timestamp: u64, entries: seq<Entry>): map<Slot, Wanted> {
    if entries == [] then map[]
    else
      var e, rest := entries[0], SlotsOf(job, timestamp, entries[1..]);
      if Takes(job.requested, e) && !e.isDir
      then map[Slot(job.peer, timestamp, e.name) := Wanted(job.id, e.size)] + rest
      else rest
  }

  ghost function Filled(st: Store, job: Job, timestamp: u64, entries: seq<Entry>): Store {
    st.(outstanding := st.outstanding + SlotsOf(job, timestamp, entries), files := st.files + FilesOf(job, entries))
  }

  lemma AddAfterUpdate<K, V>(m: map<K, V>, k: K, v: V, rest: map<K, V>)
    ensures m[k := v] + rest == m + (map[k := v] + rest)
  {
  }

  lemma FilledCons(st: Store, job: Job, r: DownloadRequest, e: Entry, rest: seq<Entry>)
    requires job.id in st.requests && st.requests[job.id] == r && r.peer == job.peer
    requires Takes(job.requested, e) && !e.isDir
    ensures Filled(Stored(st, FileFor(job, e)), job, r.timestamp, rest) == Filled(st, job, r.timestamp, [e] + rest)
  {
    assert ([e] + rest)[1..] == rest;
    var slot := Slot(job.peer, r.timestamp, e.name);
    AddAfterUpdate(st.outstanding, slot, Wanted(job.id, e.size), SlotsOf(job, r.timestamp, rest));
    AddAfterUpdate(st.files, FileId(job.id, e.name), FileState(e.size, false), FilesOf(job, rest));
  }

  /** Once the request is stored, every further taken file is stored. */
  lemma {:induction false} ExpandAfterRequest(st: Store, job: Job, r: DownloadRequest, entries: seq<Entry>, n: nat)
    requires job.id in st.requests && st.requests[job.id] == r && r.peer == job.peer
    requires forall e | e in entries :: e.name != job.path
    ensures Expand(st, job, entries, n) == Filled(st, job, r.timestamp, entries)
    decreases |entries|
  {
    if entries == [] {
      assert st.outstanding + map[] == st.outstanding && st.files + map[] == st.files;
    } else {
      var e, rest := entries[0], entries[1..];
      assert e in entries && entries == [e] + rest;
      ExpandAfterRequest(ExpandEntry(st, job, e, n), job, r, rest, n + 1);
      if Takes(job.requested, e) && !e.isDir {
        FilledCons(st, job, r, e, rest);
      } else {
      }
    }
  }

  lemma ExpandCons(st: Store, job: Job, e: Entry, rest: seq<Entry>, n: nat)
    ensures Expand(st, job, [e] + rest, n) == Expand(ExpandEntry(st, job, e, n), job, rest, n + 1)
  {
    assert ([e] + rest)[1..] == rest;
  }

  lemma OtherDirIgnored(st: Store, job: Job, e: Entry, n: nat)
    requires e.isDir && e.name != job.path
    ensures ExpandEntry(st, job, e, n) == st
  {
    hide Takes;
  }

  /** Directories other than the requested path leave the wishlist as it is. */
  lemma {:induction false} ExpandOtherDirs(st: Store, job: Job, dirs: seq<Entry>, entries: seq<Entry>, n: nat)
    requires forall i | 0 <= i < |dirs| :: dirs[i].isDir && dirs[i].name != job.path
    ensures Expand(st, job, dirs + entries, n) == Expand(st, job, entries, n + |dirs|)
    decreases |dirs|
  {
    hide Expand, ExpandEntry;
    if dirs == [] {
      assert dirs + entries == entries;
    } else {
      assert dirs + entries == [dirs[0]] + (dirs[1..] + entries);
      ExpandCons(st, job, dirs[0], dirs[1..] + entries, n);
      OtherDirIgnored(st, job, dirs[0], n);
      ExpandOtherDirs(st, job, dirs[1..], entries, n + 1);
    }
  }

  /** The entry of the requested path stores the request and, if a file, itself. */
  lemma ExpandFound(st: Store, job: Job, found: Entry, entries: seq<Entry>, n: nat)
    requires found.name == job.path && Takes(job.requested, found)
    requires forall e | e in entries :: e.name != job.path
    ensures var r := RequestFor(job, found, n);
            Expand(st, job, [found] + entries, n) == Filled(AddRequest(st, r), job, r.timestamp, [found] + entries)
  {
    var r := RequestFor(job, found, n);
    var st1 := ExpandEntry(st, job, found, n);
    ExpandCons(st, job, found, entries, n);
    if found.isDir {
      ExpandAfterRequest(st1, job, r, entries, n + 1);
    } else {
      assert st1 == Stored(AddRequest(st, r), FileFor(job, found));
      ExpandAfterRequest(st1, job, r, entries, n + 1);
      FilledCons(AddRequest(st, r), job, r, found, entries);
    }
  }

  /** The requested path is found after some other directories and only once. */
  lemma ExpandListing(st: Store, job: Job, dirs: seq<Entry>, found: Entry, entries: seq<Entry>)
    requires forall i | 0 <= i < |dirs| :: dirs[i].isDir && dirs[i].name != job.path
    requires found.name == job.path && Takes(job.requested, found)
    requires forall e | e in entries :: e.name != job.path
    ensures var r := RequestFor(job, found, |dirs|);
            Expand(st, job, dirs + ([found] + entries), 0) ==
                Filled(AddRequest(st, r), job, r.timestamp, [found] + entries)
  {
    hide Expand, Takes, Filled;
    ExpandOtherDirs(st, job, dirs, [found] + entries, 0);
    ExpandFound(st, job, found, entries, |dirs|);
  }

  // ------------------------------------------------ contents of an expansion

  /** Non-directory entries carry the size `sizes` gives for their name. */
  ghost predicate SizedBy(entries: seq<Entry>, sizes: map<Bytes, u64>) {
    forall e | e in entries && !e.isDir :: e.name in sizes && sizes[e.name] == e.size
  }

  ghost predicate Names(job: Job, entries: seq<Entry>, f: Bytes) {
    exists e :: e in entries && Takes(job.requested, e) && !e.isDir && e.name == f
  }

  lemma {:induction false} FilesOfHolds(job: Job, entries: seq<Entry>, sizes: map<Bytes, u64>, k: FileId)
    requires SizedBy(entries, sizes)
    ensures k in FilesOf(job, entries) <==> k.requestId == job.id && Names(job, entries, k.path)
    ensures k in FilesOf(job, entries) ==>
              k.path in sizes && FilesOf(job, entries)[k] == FileState(sizes[k.path], false)
  {
    if entries != [] {
      var e, rest := entries[0], entries[1..];
      FilesOfHolds(job, rest, sizes, k);
      if Names(job, entries, k.path) && !Names(job, rest, k.path) {
        var x :| x in entries && Takes(job.requested, x) && !x.isDir && x.name == k.path;
        assert x == e;
      }
      if Names(job, rest, k.path) {
        var x :| x in rest && Takes(job.requested, x) && !x.isDir && x.name == k.path;
        assert x in entries;
      }
    }
  }

  lemma {:induction false} SlotsOfHolds(job: Job, timestamp: u64, entries: seq<Entry>, sizes: map<Bytes, u64>, s: Slot)
    requires SizedBy(entries, sizes)
    ensures s in SlotsOf(job, timestamp, entries) <==>
              s.peer == job.peer && s.timestamp == timestamp && Names(job, entries, s.path)
    ensures s in SlotsOf(job, timestamp, entries) ==>
              s.path in sizes && SlotsOf(job, timestamp, entries)[s] == Wanted(job.id, sizes[s.path])
  {
    if entries != [] {
      var e, rest := entries[0], entries[1..];
      SlotsOfHolds(job, timestamp, rest, sizes, s);
      if Names(job, entries, s.path) && !Names(job, rest, s.path) {
        var x :| x in entries && Takes(job.requested, x) && !x.isDir && x.name == s.path;
        assert x == e;
      }
      if Names(job, rest, s.path) {
        var x :| x in rest && Takes(job.requested, x) && !x.isDir && x.name == s.path;
        assert x in entries;
      }
    }
  }
}
