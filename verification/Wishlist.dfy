/** The wishlist object: five byte-keyed trees kept in step with the store value. */
module Wishlist {
  import opened Bytes
  import opened WishlistCodec
  import opened WishlistStore
  import Shares

  // ------------------------------------------------- trees standing for maps

  /** The tree holds the encoded entries of the map and nothing else. */
  ghost predicate Represents<K, V>(tree: map<Bytes, Bytes>, m: map<K, V>, key: K -> Bytes, value: (K, V) -> Bytes) {
    && (forall k | k in m :: key(k) in tree && tree[key(k)] == value(k, m[k]))
    && (forall b | b in tree :: exists k :: k in m && key(k) == b)
  }

  lemma InsertRepresents<K, V>(tree: map<Bytes, Bytes>, m: map<K, V>, key: K -> Bytes, value: (K, V) -> Bytes, k: K,
                               v: V)
    requires Represents(tree, m, key, value)
    requires forall l | l in m :: key(l) == key(k) ==> l == k
    ensures Represents(tree[key(k) := value(k, v)], m[k := v], key, value)
  {
    var tree', m' := tree[key(k) := value(k, v)], m[k := v];
    forall b | b in tree' ensures exists l :: l in m' && key(l) == b {
      if b == key(k) {
        assert k in m' && key(k) == b;
      } else {
        var l :| l in m && key(l) == b;
        assert l in m' && key(l) == b;
      }
    }
  }

  function RequestRecord(id: u32, r: DownloadRequest): Bytes {
    RequestValue(r)
  }

  function TimeRecord(timestamp: u64, id: u32): Bytes {
    RequestKey(id)
  }

  function ProgressRecord(id: u32, n: u64): Bytes {
    ToBE(n, 8)
  }

  function SlotKey(slot: Slot): Bytes {
    PeerKey(slot.peer, slot.timestamp, slot.path)
  }

  function SlotRecord(slot: Slot, w: Wanted): Bytes {
    PeerValue(w.requestId, w.size)
  }

  function FileIdKey(k: FileId): Bytes {
    FileKey(k.requestId, k.path)
  }

  function FileRecord(k: FileId, s: FileState): Bytes {
    FileValue(s.size, s.downloaded)
  }

  ghost predicate RequestTree(tree: map<Bytes, Bytes>, m: map<u32, DownloadRequest>) {
    Represents(tree, m, RequestKey, RequestRecord)
  }

  ghost predicate TimeTree(tree: map<Bytes, Bytes>, m: map<u64, u32>) {
    Represents(tree, m, TimeKey, TimeRecord)
  }

  ghost predicate ProgressTree(tree: map<Bytes, Bytes>, m: map<u32, u64>) {
    Represents(tree, m, RequestKey, ProgressRecord)
  }

  ghost predicate PeerTree(tree: map<Bytes, Bytes>, m: map<Slot, Wanted>) {
    Represents(tree, m, SlotKey, SlotRecord)
  }

  ghost predicate FileTree(tree: map<Bytes, Bytes>, m: map<FileId, FileState>) {
    Represents(tree, m, FileIdKey, FileRecord)
  }

  lemma PutRequest(tree: map<Bytes, Bytes>, m: map<u32, DownloadRequest>, r: DownloadRequest)
    requires RequestTree(tree, m)
    ensures RequestTree(tree[RequestKey(r.requestId) := RequestValue(r)], m[r.requestId := r])
  {
    forall l: u32 | l in m ensures RequestKey(l) == RequestKey(r.requestId) ==> l == r.requestId {
      RequestKeysDistinct(l, r.requestId);
    }
    InsertRepresents(tree, m, RequestKey, RequestRecord, r.requestId, r);
  }

  lemma PutTime(tree: map<Bytes, Bytes>, m: map<u64, u32>, timestamp: u64, id: u32)
    requires TimeTree(tree, m)
    ensures TimeTree(tree[TimeKey(timestamp) := RequestKey(id)], m[timestamp := id])
  {
    forall l: u64 | l in m ensures TimeKey(l) == TimeKey(timestamp) ==> l == timestamp {
      TimeKeysDistinct(l, timestamp);
    }
    InsertRepresents(tree, m, TimeKey, TimeRecord, timestamp, id);
  }

  lemma PutProgress(tree: map<Bytes, Bytes>, m: map<u32, u64>, id: u32, n: u64)
    requires ProgressTree(tree, m)
    ensures ProgressTree(tree[RequestKey(id) := ToBE(n, 8)], m[id := n])
  {
    forall l: u32 | l in m ensures RequestKey(l) == RequestKey(id) ==> l == id {
      RequestKeysDistinct(l, id);
    }
    InsertRepresents(tree, m, RequestKey, ProgressRecord, id, n);
  }

  lemma SlotKeyOwn(k: Slot, l: Slot)
    ensures SlotKey(l) == SlotKey(k) ==> l == k
  {
    PeerKeysDistinct(l.peer, l.timestamp, l.path, k.peer, k.timestamp, k.path);
  }

  lemma PutSlot(tree: map<Bytes, Bytes>, m: map<Slot, Wanted>, slot: Slot, w: Wanted)
    requires PeerTree(tree, m)
    ensures PeerTree(tree[SlotKey(slot) := PeerValue(w.requestId, w.size)], m[slot := w])
  {
    forall l | l in m ensures SlotKey(l) == SlotKey(slot) ==> l == slot { SlotKeyOwn(slot, l); }
    InsertRepresents(tree, m, SlotKey, SlotRecord, slot, w);
  }

  lemma DropSlot(tree: map<Bytes, Bytes>, m: map<Slot, Wanted>, slot: Slot)
    requires PeerTree(tree, m)
    ensures PeerTree(tree - {SlotKey(slot)}, m - {slot})
  {
    forall l | l in m ensures SlotKey(l) == SlotKey(slot) ==> l == slot { SlotKeyOwn(slot, l); }
  }

  lemma PutFile(tree: map<Bytes, Bytes>, m: map<FileId, FileState>, k: FileId, s: FileState)
    requires FileTree(tree, m)
    ensures FileTree(tree[FileIdKey(k) := FileValue(s.size, s.downloaded)], m[k := s])
  {
    forall l | l in m ensures FileIdKey(l) == FileIdKey(k) ==> l == k {
      FileKeysDistinct(l.requestId, l.path, k.requestId, k.path);
    }
    InsertRepresents(tree, m, FileIdKey, FileRecord, k, s);
  }

  lemma ReadRequest(tree: map<Bytes, Bytes>, m: map<u32, DownloadRequest>, id: u32)
    requires RequestTree(tree, m) && forall i | i in m :: m[i].requestId == i
    ensures RequestKey(id) in tree <==> id in m
    ensures id in m ==> RequestFromDb(RequestKey(id), tree[RequestKey(id)]) == Ok(m[id])
  {
    forall l: u32 | l in m ensures RequestKey(l) == RequestKey(id) ==> l == id {
      RequestKeysDistinct(l, id);
    }
    if id in m { RequestRoundTrip(m[id]); }
  }

  lemma ReadTime(tree: map<Bytes, Bytes>, m: map<u64, u32>, key: Bytes) returns (t: u64)
    requires TimeTree(tree, m) && key in tree
    ensures t in m && TimeKey(t) == key && tree[key] == RequestKey(m[t])
  {
    t :| t in m && TimeKey(t) == key;
  }

  /** The requests on record for ascending timestamps, with their progress. */
  predicate Lists(store: Store, times: seq<u64>, requests: seq<(DownloadRequest, u64)>) {
    && |times| == |requests|
    && (forall i, j | 0 <= i < j < |times| :: times[i] < times[j])
    && (forall i | 0 <= i < |times| ::
          times[i] in store.byTime && store.byTime[times[i]] in store.requests
          && requests[i] == (store.requests[store.byTime[times[i]]], Progress(store, store.byTime[times[i]])))
  }

  /** `times` are those with a stored request among the keys gone through. */
  ghost predicate Covers(store: Store, times: seq<u64>, keys: seq<Bytes>) {
    forall t :: t in times <==> t in store.byTime && store.byTime[t] in store.requests && TimeKey(t) in keys
  }

  lemma NothingCovered(store: Store, keys: seq<Bytes>)
    ensures Lists(store, [], []) && Covers(store, [], keys[..0])
  {
  }

  lemma CoversOneMore(store: Store, times: seq<u64>, requests: seq<(DownloadRequest, u64)>, keys: seq<Bytes>, i: nat,
                      t: u64)
    requires i < |keys| && Ascending(keys) && keys[i] == TimeKey(t) && t in store.byTime
    requires Lists(store, times, requests) && Covers(store, times, keys[..i])
    ensures var id := store.byTime[t];
            if id in store.requests
            then Lists(store, times + [t], requests + [(store.requests[id], Progress(store, id))])
                 && Covers(store, times + [t], keys[..i + 1])
            else Covers(store, times, keys[..i + 1])
  {
    LaterTime(keys, i, times, t);
    assert keys[..i + 1] == keys[..i] + [keys[i]];
    forall s: u64 ensures TimeKey(s) == TimeKey(t) <==> s == t { TimeKeysDistinct(s, t); }
  }

  lemma AllCovered(store: Store, times: seq<u64>, tree: map<Bytes, Bytes>, keys: seq<Bytes>)
    requires TimeTree(tree, store.byTime) && Covers(store, times, keys)
    requires forall k | k in tree :: k in keys
    ensures forall t :: t in times <==> t in store.byTime && store.byTime[t] in store.requests
  {
  }

  /** Timestamps met earlier in key order are smaller. */
  lemma LaterTime(keys: seq<Bytes>, i: nat, times: seq<u64>, t: u64)
    requires Ascending(keys) && i < |keys| && keys[i] == TimeKey(t)
    requires forall s | s in times :: TimeKey(s) in keys[..i]
    ensures forall s | s in times :: s < t
  {
    forall s | s in times ensures s < t {
      var j :| 0 <= j < i && keys[j] == TimeKey(s);
      assert LexLe(keys[j], keys[i]) && keys[j] != keys[i];
      BigEndianOrder(keys[j], keys[i]);
      U64RoundTrip(s);
      U64RoundTrip(t);
    }
  }

  lemma ReadProgress(tree: map<Bytes, Bytes>, m: map<u32, u64>, id: u32)
    requires ProgressTree(tree, m)
    ensures RequestKey(id) in tree <==> id in m
    ensures id in m ==> |tree[RequestKey(id)]| == 8 && U64(tree[RequestKey(id)]) == m[id]
  {
    forall l: u32 | l in m ensures RequestKey(l) == RequestKey(id) ==> l == id {
      RequestKeysDistinct(l, id);
    }
    if id in m { U64RoundTrip(m[id]); }
  }

  // -------------------------------------------------------------- the object

  /** How many entries one message to the interface carries. */
  const MAX_ENTRIES_PER_MESSAGE := 64

  class WishList {
    var requestsByRequestId: map<Bytes, Bytes>
    var requestsByTimestamp: map<Bytes, Bytes>
    var bytesDownloadedByRequestId: map<Bytes, Bytes>
    var requestedFilesByPeer: map<Bytes, Bytes>
    var requestedFilesByRequestId: map<Bytes, Bytes>
    ghost var store: Store

    ghost predicate Valid()
      reads this
    {
      && RequestTree(requestsByRequestId, store.requests)
      && TimeTree(requestsByTimestamp, store.byTime)
      && ProgressTree(bytesDownloadedByRequestId, store.progress)
      && PeerTree(requestedFilesByPeer, store.outstanding)
      && FileTree(requestedFilesByRequestId, store.files)
      && KeysRight(store)
    }

    constructor ()
      ensures Valid() && store == EMPTY
    {
      requestsByRequestId, requestsByTimestamp, bytesDownloadedByRequestId := map[], map[], map[];
      requestedFilesByPeer, requestedFilesByRequestId := map[], map[];
      store := EMPTY;
    }

    method AddRequest(r: DownloadRequest)
      requires Valid()
      modifies this
      ensures Valid() && store == WishlistStore.AddRequest(old(store), r)
      ensures bytesDownloadedByRequestId == old(bytesDownloadedByRequestId)
      ensures requestedFilesByPeer == old(requestedFilesByPeer)
      ensures requestedFilesByRequestId == old(requestedFilesByRequestId)
    {
      hide RequestTree, TimeTree, ProgressTree, PeerTree, FileTree;
      var (byId, byTime) := RequestToDb(r);
      PutRequest(requestsByRequestId, store.requests, r);
      PutTime(requestsByTimestamp, store.byTime, r.timestamp, r.requestId);
      requestsByRequestId := requestsByRequestId[byId.0 := byId.1];
      requestsByTimestamp := requestsByTimestamp[byTime.0 := byTime.1];
      store := WishlistStore.AddRequest(store, r);
    }

    method GetRequest(id: u32) returns (r: Result<DownloadRequest>)
      requires Valid()
      ensures r == if id in store.requests then Ok(store.requests[id]) else Err(NoRequest)
    {
      hide RequestTree, TimeTree, ProgressTree, PeerTree, FileTree;
      var key := RequestKey(id);
      ReadRequest(requestsByRequestId, store.requests, id);
      if key !in requestsByRequestId { return Err(NoRequest); }
      return RequestFromDb(key, requestsByRequestId[key]);
    }

    /** Zero for a request without a progress entry. */
    method GetDownloadProgressForRequest(id: u32) returns (r: Result<u64>)
      requires Valid()
      ensures r == Ok(Progress(store, id))
    {
      hide RequestTree, TimeTree, ProgressTree, PeerTree, FileTree;
      var key := RequestKey(id);
      ReadProgress(bytesDownloadedByRequestId, store.progress, id);
      if key !in bytesDownloadedByRequestId { return Ok(0); }
      var buf := bytesDownloadedByRequestId[key];
      if |buf| != 8 { return Err(CorruptDb); }
      return Ok(U64(buf));
    }

    method AddRequestedFile(f: RequestedFile) returns (r: Result<()>)
      requires Valid()
      modifies this
      ensures Valid() && (store, r) == AddFile(old(store), f)
      ensures requestsByRequestId == old(requestsByRequestId) && requestsByTimestamp == old(requestsByTimestamp)
      ensures bytesDownloadedByRequestId == old(bytesDownloadedByRequestId)
    {
      hide RequestTree, TimeTree, ProgressTree, PeerTree, FileTree;
      var request := GetRequest(f.requestId);
      if request.Err? { return Err(request.error); }
      var (byPeer, byRequest) := FileToDb(f, request.value.peer, request.value.timestamp);
      PutSlot(requestedFilesByPeer, store.outstanding, SlotOf(request.value, f.path), Wanted(f.requestId, f.size));
      PutFile(requestedFilesByRequestId, store.files, FileId(f.requestId, f.path), FileState(f.size, f.downloaded));
      requestedFilesByPeer := requestedFilesByPeer[byPeer.0 := byPeer.1];
      requestedFilesByRequestId := requestedFilesByRequestId[byRequest.0 := byRequest.1];
      store := Stored(store, f);
      return Ok(());
    }

    /** Whether the request is now complete. */
    method FileCompleted(f: RequestedFile) returns (r: Result<bool>)
      requires Valid()
      modifies this
      ensures Valid() && (store, r) == CompleteFile(old(store), f)
      ensures requestsByRequestId == old(requestsByRequestId) && requestsByTimestamp == old(requestsByTimestamp)
      ensures forall key | key != RequestKey(f.requestId) ::
                (key in bytesDownloadedByRequestId <==> key in old(bytesDownloadedByRequestId))
                && (key in bytesDownloadedByRequestId ==>
                      bytesDownloadedByRequestId[key] == old(bytesDownloadedByRequestId)[key])
    {
      hide RequestTree, TimeTree, ProgressTree, PeerTree, FileTree;
      if !f.downloaded { return Err(MarkCompleted); }
      var request := GetRequest(f.requestId);
      if request.Err? { return Err(request.error); }
      var (byPeer, byRequest) := FileToDb(f, request.value.peer, request.value.timestamp);
      var existing := GetDownloadProgressForRequest(f.requestId);
      DropSlot(requestedFilesByPeer, store.outstanding, SlotOf(request.value, f.path));
      requestedFilesByPeer := requestedFilesByPeer - {byPeer.0};
      var updated := WrapAdd(existing.value, f.size);
      PutProgress(bytesDownloadedByRequestId, store.progress, f.requestId, updated);
      bytesDownloadedByRequestId := bytesDownloadedByRequestId[RequestKey(f.requestId) := ToBE(updated, 8)];
      PutFile(requestedFilesByRequestId, store.files, FileId(f.requestId, f.path), FileState(f.size, f.downloaded));
      requestedFilesByRequestId := requestedFilesByRequestId[byRequest.0 := byRequest.1];
      store := Completed(store, f);
      return Ok(updated == request.value.totalSize);
    }

    /** All requests with their progress, in chunks: for each second in which one was
        made, in order of time, the one on record for that second. */
    method Requested() returns (chunks: seq<seq<(DownloadRequest, u64)>>, ghost times: seq<u64>)
      requires Valid()
      ensures chunks == Shares.Chunks(Shares.Flatten(chunks), MAX_ENTRIES_PER_MESSAGE)
      ensures Lists(store, times, Shares.Flatten(chunks))
      ensures forall t :: t in times <==> t in store.byTime && store.byTime[t] in store.requests
    {
      hide RequestTree, TimeTree, ProgressTree, PeerTree, FileTree, Lists, Covers;
      var keys := ScanPrefix(requestsByTimestamp, []);
      var requests: seq<(DownloadRequest, u64)> := [];
      times := [];
      NothingCovered(store, keys);
      for i := 0 to |keys|
        invariant Lists(store, times, requests) && Covers(store, times, keys[..i])
      {
        assert keys[i] in keys && keys[..i + 1] == keys[..i] + [keys[i]];
        ghost var t := ReadTime(requestsByTimestamp, store.byTime, keys[i]);
        var id := requestsByTimestamp[keys[i]];
        U32RoundTrip(store.byTime[t]);
        ReadRequest(requestsByRequestId, store.requests, store.byTime[t]);
        CoversOneMore(store, times, requests, keys, i, t);
        if id in requestsByRequestId {
          var request := RequestFromDb(id, requestsByRequestId[id]);
          var progress := GetDownloadProgressForRequest(U32(id));
          if request.Ok? && progress.Ok? {
            requests := requests + [(request.value, progress.value)];
            times := times + [t];
          }
        }
      }
      assert keys[..|keys|] == keys;
      AllCovered(store, times, requestsByTimestamp, keys);
      chunks := Shares.Chunks(requests, MAX_ENTRIES_PER_MESSAGE);
      Shares.ChunksFlatten(requests, MAX_ENTRIES_PER_MESSAGE);
    }

    /** A request's files, in chunks: exactly the stored files of that request, each
        once and in path order. */
    method RequestedFiles(id: u32) returns (chunks: seq<seq<RequestedFile>>)
      requires Valid()
      ensures chunks == Shares.Chunks(Shares.Flatten(chunks), MAX_ENTRIES_PER_MESSAGE)
      ensures var files := Shares.Flatten(chunks);
              && (forall i, j | 0 <= i < j < |files| ::
                  LexLe(files[i].path, files[j].path) && files[i].path != files[j].path)
              && (forall f :: f in files <==>
                    f.requestId == id && FileId(id, f.path) in store.files
                    && store.files[FileId(id, f.path)] == FileState(f.size, f.downloaded))
    {
      hide RequestTree, TimeTree, ProgressTree, PeerTree, FileTree;
      var keys := ScanPrefix(requestedFilesByRequestId, RequestKey(id));
      var files: seq<RequestedFile> := [];
      forall i | 0 <= i < |keys| ensures IsRecordOf(id, keys[i]) {
        assert keys[i] in keys;
        KeyIsRecord(id, keys[i]);
      }
      for i := 0 to |keys|
        invariant |files| == i
        invariant forall j | 0 <= j < i :: files[j].requestId == id && keys[j] == FileKey(id, files[j].path)
        invariant forall j | 0 <= j < i :: IsStored(files[j])
      {
        RecordReads(id, keys[i]);
        var file := FileFromRequestDb(keys[i], requestedFilesByRequestId[keys[i]]);
        if file.Ok? { files := files + [file.value]; }
      }
      PathOrder(id, keys, files);
      AllListed(id, keys, files);
      chunks := Shares.Chunks(files, MAX_ENTRIES_PER_MESSAGE);
      Shares.ChunksFlatten(files, MAX_ENTRIES_PER_MESSAGE);
    }

    ghost predicate IsStored(f: RequestedFile)
      reads this
    {
      var k := FileId(f.requestId, f.path);
      k in store.files && store.files[k] == FileState(f.size, f.downloaded)
    }

    ghost predicate IsRecordOf(id: u32, key: Bytes)
      reads this
    {
      exists k :: k in store.files && k.requestId == id && FileIdKey(k) == key
    }

    lemma KeyIsRecord(id: u32, key: Bytes)
      requires Valid() && key in requestedFilesByRequestId && RequestKey(id) <= key
      ensures IsRecordOf(id, key)
    {
      var k :| k in store.files && FileIdKey(k) == key;
      RequestPrefix(k.requestId, id, k.path);
    }

    lemma RecordReads(id: u32, key: Bytes)
      requires Valid() && IsRecordOf(id, key)
      ensures key in requestedFilesByRequestId
      ensures var file := FileFromRequestDb(key, requestedFilesByRequestId[key]);
              file.Ok? && file.value.requestId == id && key == FileKey(id, file.value.path) && IsStored(file.value)
    {
      var k :| k in store.files && k.requestId == id && FileIdKey(k) == key;
      var s := store.files[k];
      FileRoundTrip(RequestedFile(k.path, s.size, id, s.downloaded), seq(32, _ => 0), 0);
    }

    lemma PathOrder(id: u32, keys: seq<Bytes>, files: seq<RequestedFile>)
      requires Ascending(keys) && |keys| == |files|
      requires forall j | 0 <= j < |keys| :: keys[j] == FileKey(id, files[j].path)
      ensures forall i, j | 0 <= i < j < |files| ::
                LexLe(files[i].path, files[j].path) && files[i].path != files[j].path
    {
      forall i, j | 0 <= i < j < |files| ensures LexLe(files[i].path, files[j].path) && files[i].path != files[j].path {
        LexCommonPrefix(RequestKey(id), files[i].path, files[j].path);
        assert LexLe(keys[i], keys[j]) && keys[i] != keys[j];
      }
    }

    lemma AllListed(id: u32, keys: seq<Bytes>, files: seq<RequestedFile>)
      requires Valid() && |keys| == |files|
      requires forall b :: b in keys <==> b in requestedFilesByRequestId && RequestKey(id) <= b
      requires forall j | 0 <= j < |keys| ::
                 files[j].requestId == id && keys[j] == FileKey(id, files[j].path) && IsStored(files[j])
      ensures forall f: RequestedFile :: f in files <==> f.requestId == id && IsStored(f)
    {
      forall f: RequestedFile | f.requestId == id && IsStored(f) ensures f in files {
        var k := FileId(id, f.path);
        assert FileIdKey(k) in requestedFilesByRequestId;
        RequestPrefix(id, id, f.path);
        assert FileIdKey(k) in keys;
        var j :| 0 <= j < |keys| && keys[j] == FileIdKey(k);
        FileKeysDistinct(id, f.path, id, files[j].path);
        assert files[j] == f;
      }
    }
  }
}
