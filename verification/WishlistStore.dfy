/** The wishlist as a value: what its operations do to the five trees together,
    and when progress, flags and outstanding files agree. */
module WishlistStore {
  import opened Bytes
  import opened MapSum
  import opened WishlistCodec

  /** The key of an outstanding file. The request id is not part of it. */
  datatype Slot = Slot(peer: PublicKey, timestamp: u64, path: Bytes)

  datatype Wanted = Wanted(requestId: u32, size: u64)

  datatype FileId = FileId(requestId: u32, path: Bytes)

  datatype FileState = FileState(size: u64, downloaded: bool)

  datatype Store = Store(
    requests: map<u32, DownloadRequest>,
    byTime: map<u64, u32>,
    progress: map<u32, u64>,
    outstanding: map<Slot, Wanted>,
    files: map<FileId, FileState>)

  const EMPTY := Store(map[], map[], map[], map[], map[])

  // -------------------------------------------------------------- operations

  function AddRequest(st: Store, r: DownloadRequest): Store {
    st.(requests := st.requests[r.requestId := r], byTime := st.byTime[r.timestamp := r.requestId])
  }

  function SlotOf(r: DownloadRequest, path: Bytes): Slot {
    Slot(r.peer, r.timestamp, path)
  }

  function AddFile(st: Store, f: RequestedFile): (Store, Result<()>) {
    if f.requestId !in st.requests then (st, Err(NoRequest))
    else (Stored(st, f), Ok(()))
  }

  function Stored(st: Store, f: RequestedFile): Store
    requires f.requestId in st.requests
  {
    st.(outstanding := st.outstanding[SlotOf(st.requests[f.requestId], f.path) := Wanted(f.requestId, f.size)],
        files := st.files[FileId(f.requestId, f.path) := FileState(f.size, f.downloaded)])
  }

  function Progress(st: Store, id: u32): u64 {
    if id in st.progress then st.progress[id] else 0
  }

  function CompleteFile(st: Store, f: RequestedFile): (Store, Result<bool>) {
    if !f.downloaded then (st, Err(MarkCompleted))
    else if f.requestId !in st.requests then (st, Err(NoRequest))
    else (Completed(st, f), Ok(WrapAdd(Progress(st, f.requestId), f.size) == st.requests[f.requestId].totalSize))
  }

  function Completed(st: Store, f: RequestedFile): Store
    requires f.requestId in st.requests
  {
    st.(outstanding := st.outstanding - {SlotOf(st.requests[f.requestId], f.path)},
        progress := st.progress[f.requestId := WrapAdd(Progress(st, f.requestId), f.size)],
        files := st.files[FileId(f.requestId, f.path) := FileState(f.size, f.downloaded)])
  }

  // -------------------------------------------------------------- invariants

  ghost function Sizes(files: map<FileId, FileState>, id: u32): map<FileId, nat> {
    map k | k in files && k.requestId == id :: files[k].size
  }

  ghost function DoneSizes(files: map<FileId, FileState>, id: u32): map<FileId, nat> {
    map k | k in files && k.requestId == id && files[k].downloaded :: files[k].size
  }

  /** The bytes of a request's files that are flagged downloaded. */
  ghost function Done(st: Store, id: u32): nat {
    Sum(DoneSizes(st.files, id))
  }

  ghost function Total(st: Store, id: u32): nat {
    Sum(Sizes(st.files, id))
  }

  /** Stored progress is the size of the downloaded files, in 64-bit arithmetic. */
  ghost predicate ProgressAt(st: Store, id: u32) {
    Progress(st, id) == Mod64(Done(st, id))
  }

  ghost predicate ProgressRight(st: Store) {
    forall id: u32 :: ProgressAt(st, id)
  }

  predicate IsOutstanding(st: Store, k: FileId)
    requires k.requestId in st.requests
  {
    var slot := SlotOf(st.requests[k.requestId], k.path);
    slot in st.outstanding && st.outstanding[slot].requestId == k.requestId
  }

  /** A file is outstanding exactly when it is not downloaded. */
  predicate FilesTracked(st: Store) {
    forall k | k in st.files :: k.requestId in st.requests && (IsOutstanding(st, k) <==> !st.files[k].downloaded)
  }

  predicate Backed(st: Store, slot: Slot)
    requires slot in st.outstanding
  {
    var w := st.outstanding[slot];
    var k := FileId(w.requestId, slot.path);
    && w.requestId in st.requests && SlotOf(st.requests[w.requestId], slot.path) == slot
    && k in st.files && st.files[k].size == w.size
  }

  /** Every outstanding entry stands for a stored file of its own request. */
  predicate OutstandingBacked(st: Store) {
    forall slot | slot in st.outstanding :: Backed(st, slot)
  }

  predicate KeysRight(st: Store) {
    forall id | id in st.requests :: st.requests[id].requestId == id
  }

  ghost predicate Agree(st: Store) {
    KeysRight(st) && ProgressRight(st) && FilesTracked(st) && OutstandingBacked(st)
  }

  // ------------------------------------------------------------ sums of sizes

  /** What one file contributes to the downloaded bytes of its request. */
  function Share(files: map<FileId, FileState>, k: FileId): nat {
    if k in files && files[k].downloaded then files[k].size else 0
  }

  lemma DoneAfter(files: map<FileId, FileState>, k: FileId, s: FileState)
    ensures Sum(DoneSizes(files[k := s], k.requestId)) + Share(files, k)
         == Sum(DoneSizes(files, k.requestId)) + Share(files[k := s], k)
  {
    var id := k.requestId;
    var was, now := DoneSizes(files, id), DoneSizes(files[k := s], id);
    assert was - {k} == now - {k};
    if k in was { SumPick(was, k); } else { assert was - {k} == was; }
    if k in now { SumPick(now, k); } else { assert now - {k} == now; }
  }

  lemma DoneElsewhere(files: map<FileId, FileState>, k: FileId, s: FileState, id: u32)
    requires id != k.requestId
    ensures DoneSizes(files[k := s], id) == DoneSizes(files, id)
  {
  }

  lemma DoneWithinTotal(files: map<FileId, FileState>, id: u32)
    ensures Sum(Sizes(files, id)) == Sum(DoneSizes(files, id)) + Sum(LeftSizes(files, id))
  {
    SumUnion(DoneSizes(files, id), LeftSizes(files, id));
    assert DoneSizes(files, id) + LeftSizes(files, id) == Sizes(files, id);
  }

  ghost function LeftSizes(files: map<FileId, FileState>, id: u32): map<FileId, nat> {
    map k | k in files && k.requestId == id && !files[k].downloaded :: files[k].size
  }

  lemma Residues(progress: u64, done: nat, done': nat, added: u64, had: u64)
    requires progress == Mod64(done) && done' + had == done + added
    ensures WrapAdd(progress, added) == Mod64(done') <==> had == 0
  {
    assert WrapAdd(progress, added) == Mod64(done + added);
    SameResidue(done', had);
  }

  lemma SameResidue(n: nat, had: u64)
    ensures Mod64(n + had) == Mod64(n) <==> had == 0
  {
  }

  lemma SameProgress(progress: u64, done: nat, done': nat, had: u64)
    requires progress == Mod64(done) && done' + had == done
    ensures progress == Mod64(done') <==> had == 0
  {
    SameResidue(done', had);
  }

  // ------------------------------------------------- exactly what keeps them

  /** The by-peer key of a file is free or already this file's own. */
  predicate SlotFree(st: Store, f: RequestedFile)
    requires f.requestId in st.requests
  {
    var slot := SlotOf(st.requests[f.requestId], f.path);
    slot in st.outstanding ==> st.outstanding[slot].requestId == f.requestId
  }

  /** The file has not been counted as downloaded, or counting it added nothing. */
  predicate NotCounted(st: Store, f: RequestedFile) {
    var k := FileId(f.requestId, f.path);
    k in st.files && st.files[k].downloaded ==> st.files[k].size == 0
  }

  lemma ProgressIff(st: Store, st': Store, f: RequestedFile, id: u32)
    requires ProgressAt(st, id) && f.requestId in st.requests
    requires st' == if f.downloaded then Completed(st, f) else Stored(st, f)
    ensures ProgressAt(st', id) <==> id != f.requestId || NotCounted(st, f)
  {
    var k := FileId(f.requestId, f.path);
    var s := FileState(f.size, f.downloaded);
    if id != f.requestId {
      DoneElsewhere(st.files, k, s, id);
    } else {
      DoneAfter(st.files, k, s);
      if f.downloaded {
        Residues(Progress(st, id), Done(st, id), Done(st', id), f.size, Share(st.files, k));
      } else {
        SameProgress(Progress(st, id), Done(st, id), Done(st', id), Share(st.files, k));
      }
    }
  }

  lemma ProgressAllIff(st: Store, st': Store, f: RequestedFile)
    requires ProgressRight(st) && f.requestId in st.requests
    requires st' == if f.downloaded then Completed(st, f) else Stored(st, f)
    ensures ProgressRight(st') <==> NotCounted(st, f)
  {
    forall id: u32 ensures ProgressAt(st', id) <==> id != f.requestId || NotCounted(st, f) {
      assert ProgressAt(st, id);
      ProgressIff(st, st', f, id);
    }
    assert ProgressAt(st', f.requestId) <==> NotCounted(st, f);
  }

  /** An entry taken over or removed for another request leaves that request with a
      file that is neither downloaded nor outstanding. */
  lemma TakenSlotLosesFile(st: Store, f: RequestedFile)
    requires Agree(st) && f.requestId in st.requests && !SlotFree(st, f)
    ensures var lost := FileId(st.outstanding[SlotOf(st.requests[f.requestId], f.path)].requestId, f.path);
            && lost in st.files && !st.files[lost].downloaded && lost.requestId in st.requests
            && lost in Stored(st, f).files && !Stored(st, f).files[lost].downloaded
            && !IsOutstanding(Stored(st, f), lost)
            && lost in Completed(st, f).files && !Completed(st, f).files[lost].downloaded
            && !IsOutstanding(Completed(st, f), lost)
  {
    var slot := SlotOf(st.requests[f.requestId], f.path);
    assert Backed(st, slot);
    var lost := FileId(st.outstanding[slot].requestId, f.path);
    assert IsOutstanding(st, lost);
  }

  /** Adding a file keeps the trees in agreement if and only if its by-peer key is
      not another request's and it is not a counted file wanted again. */
  lemma AddFileAgreesIff(st: Store, f: RequestedFile)
    requires Agree(st) && f.requestId in st.requests && !f.downloaded
    ensures Agree(AddFile(st, f).0) <==> SlotFree(st, f) && NotCounted(st, f)
  {
    ProgressAllIff(st, Stored(st, f), f);
    if !SlotFree(st, f) { TakenSlotLosesFile(st, f); }
  }

  /** Completing a file keeps the trees in agreement if and only if it was not
      counted before and its by-peer key is not another request's. */
  lemma CompleteAgreesIff(st: Store, f: RequestedFile)
    requires Agree(st) && f.requestId in st.requests && f.downloaded
    ensures Agree(CompleteFile(st, f).0) <==> SlotFree(st, f) && NotCounted(st, f)
  {
    ProgressAllIff(st, Completed(st, f), f);
    if !SlotFree(st, f) { TakenSlotLosesFile(st, f); }
  }

  /** The id is new, or the replaced request has the same peer and second, or it has
      nothing outstanding. */
  predicate Replaceable(st: Store, r: DownloadRequest) {
    r.requestId in st.requests ==>
      var was := st.requests[r.requestId];
      || (was.peer == r.peer && was.timestamp == r.timestamp)
      || forall slot | slot in st.outstanding :: st.outstanding[slot].requestId != r.requestId
  }

  /** Adding a request keeps the trees in agreement if and only if it does not move
      the by-peer keys of outstanding files. */
  lemma AddRequestAgreesIff(st: Store, r: DownloadRequest)
    requires Agree(st)
    ensures Agree(AddRequest(st, r)) <==> Replaceable(st, r)
  {
    var st' := AddRequest(st, r);
    forall id: u32 ensures ProgressAt(st', id) {
      assert ProgressAt(st, id);
    }
    if Replaceable(st, r) {
      forall slot | slot in st'.outstanding ensures Backed(st', slot) {
        assert Backed(st, slot);
      }
      forall k | k in st'.files
        ensures k.requestId in st'.requests && (IsOutstanding(st', k) <==> !st'.files[k].downloaded)
      {
        assert IsOutstanding(st', k) <==> IsOutstanding(st, k);
      }
    } else {
      var slot :| slot in st.outstanding && st.outstanding[slot].requestId == r.requestId;
      assert Backed(st, slot);
      assert !Backed(st', slot);
    }
  }

  // --------------------------------------------- what a call leaves as it was

  /** The stores hold the same about a request: its record, its place in the list of
      requests, its progress and its files. */
  ghost predicate SameRequest(a: Store, b: Store, id: u32) {
    && (id in a.requests <==> id in b.requests)
    && (id in a.requests ==> a.requests[id] == b.requests[id])
    && (Shown(a, id) <==> Shown(b, id))
    && Progress(a, id) == Progress(b, id)
    && forall k: FileId | k.requestId == id ::
         (k in a.files <==> k in b.files) && (k in a.files ==> a.files[k] == b.files[k])
  }

  /** Both stores have the same entry, or none, under every other by-peer key. */
  predicate SameSlotsBut(a: Store, b: Store, slot: Slot) {
    a.outstanding - {slot} == b.outstanding - {slot}
  }

  /** A completion flags its own file, takes its own by-peer key and adds to its own
      request's progress. The request stays listed, its record and its other files
      stay, and so does everything of other requests. */
  lemma CompletionTouches(st: Store, f: RequestedFile)
    requires f.requestId in st.requests && f.downloaded
    ensures var (t, id, k) := (CompleteFile(st, f).0, f.requestId, FileId(f.requestId, f.path));
            && t.requests == st.requests
            && (forall i: u32 :: Shown(t, i) <==> Shown(st, i))
            && (forall i: u32 | i != id :: SameRequest(st, t, i))
            && Progress(t, id) == (Progress(st, id) + f.size) % 0x1_0000_0000_0000_0000
            && t.files == st.files[k := FileState(f.size, true)]
            && SlotOf(st.requests[id], f.path) !in t.outstanding
            && SameSlotsBut(st, t, SlotOf(st.requests[id], f.path))
  {
    var t := CompleteFile(st, f).0;
    assert forall i: u32 :: Shown(t, i) <==> Shown(st, i);
  }

  /** An addition enters its own file and its own by-peer key, nothing else. */
  lemma AdditionTouches(st: Store, f: RequestedFile)
    requires f.requestId in st.requests
    ensures var (t, id, k) := (AddFile(st, f).0, f.requestId, FileId(f.requestId, f.path));
            var slot := SlotOf(st.requests[id], f.path);
            && t.requests == st.requests && t.progress == st.progress
            && (forall i: u32 :: Shown(t, i) <==> Shown(st, i))
            && (forall i: u32 | i != id :: SameRequest(st, t, i))
            && t.files == st.files[k := FileState(f.size, f.downloaded)]
            && slot in t.outstanding && t.outstanding[slot] == Wanted(id, f.size)
            && SameSlotsBut(st, t, slot)
  {
    var t := AddFile(st, f).0;
    assert forall i: u32 :: Shown(t, i) <==> Shown(st, i);
  }

  /** A new request is recorded and listed. Another loses its place in the list only
      if it was made in the same second. */
  lemma RequestTouches(st: Store, r: DownloadRequest, i: u32)
    ensures var t := AddRequest(st, r);
            && r.requestId in t.requests && t.requests[r.requestId] == r && Shown(t, r.requestId)
            && t.progress == st.progress && t.outstanding == st.outstanding && t.files == st.files
            && (i != r.requestId && (r.timestamp in st.byTime ==> st.byTime[r.timestamp] != i) ==>
                  SameRequest(st, t, i))
  {
    var t := AddRequest(st, r);
    assert r.timestamp in t.byTime && t.byTime[r.timestamp] == r.requestId;
    if i != r.requestId && (r.timestamp in st.byTime ==> st.byTime[r.timestamp] != i) {
      forall s ensures s in st.byTime && st.byTime[s] == i <==> s in t.byTime && t.byTime[s] == i {}
    }
  }

  /** A call fails exactly on an unknown request or a completion that is not flagged
      as one, and then changes nothing. */
  lemma FailuresChangeNothing(st: Store, f: RequestedFile)
    ensures AddFile(st, f).1.Err? <==> f.requestId !in st.requests
    ensures CompleteFile(st, f).1.Err? <==> !f.downloaded || f.requestId !in st.requests
    ensures AddFile(st, f).1.Err? ==> AddFile(st, f) == (st, Err(NoRequest))
    ensures CompleteFile(st, f).1.Err? ==>
              CompleteFile(st, f) == (st, Err(if f.downloaded then NoRequest else MarkCompleted))
  {
  }

  // ------------------------------------------------ the list of all requests

  function AddAll(st: Store, rs: seq<DownloadRequest>): Store {
    if rs == [] then st else AddRequest(AddAll(st, rs[..|rs| - 1]), rs[|rs| - 1])
  }

  /** The request is found by going through the requests by timestamp. */
  predicate Shown(st: Store, id: u32) {
    id in st.requests && exists t :: t in st.byTime && st.byTime[t] == id
  }

  predicate NoneLater(rs: seq<DownloadRequest>, i: nat)
    requires i < |rs|
  {
    forall j | i < j < |rs| :: rs[j].timestamp != rs[i].timestamp
  }

  lemma {:induction false} LastOfItsSecond(st: Store, rs: seq<DownloadRequest>, i: nat, t: u64)
    requires i < |rs| && forall j, k | 0 <= j < k < |rs| :: rs[j].requestId != rs[k].requestId
    requires forall s | s in st.byTime :: st.byTime[s] != rs[i].requestId
    ensures rs[i].requestId in AddAll(st, rs).requests
    ensures (t in AddAll(st, rs).byTime && AddAll(st, rs).byTime[t] == rs[i].requestId)
            <==> (t == rs[i].timestamp && NoneLater(rs, i))
    decreases |rs|
  {
    var n := |rs| - 1;
    var init := rs[..n];
    if i < n {
      LastOfItsSecond(st, init, i, t);
      assert NoneLater(rs, i) <==> NoneLater(init, i) && rs[n].timestamp != rs[i].timestamp;
    } else {
      NotYetThere(st, init, rs[n].requestId, t);
    }
  }

  lemma {:induction false} NotYetThere(st: Store, rs: seq<DownloadRequest>, id: u32, t: u64)
    requires forall s | s in st.byTime :: st.byTime[s] != id
    requires forall r | r in rs :: r.requestId != id
    ensures t in AddAll(st, rs).byTime ==> AddAll(st, rs).byTime[t] != id
    decreases |rs|
  {
    if rs != [] {
      assert rs[|rs| - 1] in rs;
      NotYetThere(st, rs[..|rs| - 1], id, t);
    }
  }

  /** Requests with new, distinct ids: one is listed if and only if no later one was
      made in the same second. */
  lemma ShownIff(st: Store, rs: seq<DownloadRequest>, i: nat)
    requires i < |rs| && forall j, k | 0 <= j < k < |rs| :: rs[j].requestId != rs[k].requestId
    requires forall s | s in st.byTime :: st.byTime[s] != rs[i].requestId
    ensures Shown(AddAll(st, rs), rs[i].requestId) <==> NoneLater(rs, i)
  {
    LastOfItsSecond(st, rs, i, rs[i].timestamp);
    forall t | t in AddAll(st, rs).byTime && AddAll(st, rs).byTime[t] == rs[i].requestId ensures NoneLater(rs, i) {
      LastOfItsSecond(st, rs, i, t);
    }
  }

  // -------------------------------------------------------------- whole runs

  datatype Op = Request(request: DownloadRequest) | Want(file: RequestedFile) | Complete(file: RequestedFile)

  function Step(st: Store, op: Op): Store {
    match op
    case Request(r) => AddRequest(st, r)
    case Want(f) => AddFile(st, f).0
    case Complete(f) => CompleteFile(st, f).0
  }

  function Run(st: Store, ops: seq<Op>): Store
    decreases |ops|
  {
    if ops == [] then st else Run(Step(st, ops[0]), ops[1..])
  }

  /** What callers owe, checked before each call: ids not reused while files are
      outstanding, by-peer keys not shared, each file completed once. Calls that
      end in an error owe nothing. */
  predicate Permitted(st: Store, op: Op) {
    match op
    case Request(r) => Replaceable(st, r)
    case Want(f) => !f.downloaded && (f.requestId in st.requests ==> SlotFree(st, f) && NotCounted(st, f))
    case Complete(f) => f.downloaded && f.requestId in st.requests ==> SlotFree(st, f) && NotCounted(st, f)
  }

  predicate Proper(st: Store, ops: seq<Op>)
    decreases |ops|
  {
    ops == [] || (Permitted(st, ops[0]) && Proper(Step(st, ops[0]), ops[1..]))
  }

  lemma StepAgrees(st: Store, op: Op)
    requires Agree(st) && Permitted(st, op)
    ensures Agree(Step(st, op))
  {
    match op
    case Request(r) => AddRequestAgreesIff(st, r);
    case Want(f) => if f.requestId in st.requests { AddFileAgreesIff(st, f); }
    case Complete(f) => if f.downloaded && f.requestId in st.requests { CompleteAgreesIff(st, f); }
  }

  /** The call is about another request, and if it makes one then not in a second the
      list shows `id` for. */
  predicate Elsewhere(st: Store, op: Op, id: u32) {
    match op
    case Request(r) => r.requestId != id && (r.timestamp in st.byTime ==> st.byTime[r.timestamp] != id)
    case Want(f) => f.requestId != id
    case Complete(f) => f.requestId != id
  }

  predicate AllElsewhere(st: Store, ops: seq<Op>, id: u32)
    decreases |ops|
  {
    ops == [] || (Elsewhere(st, ops[0], id) && AllElsewhere(Step(st, ops[0]), ops[1..], id))
  }

  /** Whatever is done for other requests, a request keeps its record, its place in
      the list, its progress and its files. */
  lemma {:induction false} RunLeavesAlone(st: Store, ops: seq<Op>, id: u32)
    requires AllElsewhere(st, ops, id)
    ensures SameRequest(st, Run(st, ops), id)
    decreases |ops|
  {
    hide AddFile, CompleteFile, AddRequest, Shown;
    if ops != [] {
      var t := Step(st, ops[0]);
      StepLeavesAlone(st, ops[0], id);
      RunLeavesAlone(t, ops[1..], id);
    }
  }

  lemma StepLeavesAlone(st: Store, op: Op, id: u32)
    requires Elsewhere(st, op, id)
    ensures SameRequest(st, Step(st, op), id)
  {
    hide SameRequest, AddFile, CompleteFile, AddRequest;
    match op
    case Request(r) => RequestTouches(st, r, id);
    case Want(f) =>
      if f.requestId in st.requests { AdditionTouches(st, f); } else { Unchanged(st, f, id); }
    case Complete(f) =>
      if f.downloaded && f.requestId in st.requests { CompletionTouches(st, f); } else { Unchanged(st, f, id); }
  }

  lemma Unchanged(st: Store, f: RequestedFile, id: u32)
    ensures AddFile(st, f).1.Err? ==> SameRequest(st, AddFile(st, f).0, id)
    ensures CompleteFile(st, f).1.Err? ==> SameRequest(st, CompleteFile(st, f).0, id)
    ensures AddFile(st, f).1.Err? <==> f.requestId !in st.requests
    ensures CompleteFile(st, f).1.Err? <==> !f.downloaded || f.requestId !in st.requests
  {
    FailuresChangeNothing(st, f);
  }

  /** Over every proper run the five trees agree. */
  lemma {:induction false} RunAgrees(st: Store, ops: seq<Op>)
    requires Agree(st) && Proper(st, ops)
    ensures Agree(Run(st, ops))
    decreases |ops|
  {
    if ops != [] {
      StepAgrees(st, ops[0]);
      RunAgrees(Step(st, ops[0]), ops[1..]);
    }
  }

  lemma EmptyAgrees()
    ensures Agree(EMPTY)
  {
    forall id: u32 ensures ProgressAt(EMPTY, id) {
      assert DoneSizes(EMPTY.files, id) == map[];
    }
  }

  /** The files of a request that are not downloaded hold no bytes. */
  predicate NothingLeft(files: map<FileId, FileState>, id: u32) {
    forall k | k in files && k.requestId == id && !files[k].downloaded :: files[k].size == 0
  }

  lemma TotalReached(st: Store, id: u32, total: u64)
    requires ProgressAt(st, id) && Total(st, id) == total
    ensures Progress(st, id) == total <==> NothingLeft(st.files, id)
  {
    var left := LeftSizes(st.files, id);
    DoneWithinTotal(st.files, id);
    SumZero(left);
    assert forall k | k in left :: left[k] == st.files[k].size;
  }

  /** Completing a file reports the request complete exactly when the sizes of its
      downloaded files sum to its total size, in 64-bit arithmetic. */
  lemma CompletionReportedIff(st: Store, f: RequestedFile)
    requires Agree(st) && Permitted(st, Complete(f)) && f.downloaded && f.requestId in st.requests
    ensures var done := Done(Completed(st, f), f.requestId);
            CompleteFile(st, f).1 == Ok(Mod64(done) == st.requests[f.requestId].totalSize)
  {
    ProgressAllIff(st, Completed(st, f), f);
    assert ProgressAt(Completed(st, f), f.requestId);
  }

  /** When a request's files sum to its total size, completing a file reports the
      request complete exactly when the files still wanted are all empty. */
  lemma CompletionReported(st: Store, f: RequestedFile)
    requires Agree(st) && Permitted(st, Complete(f)) && f.downloaded && f.requestId in st.requests
    requires Total(Completed(st, f), f.requestId) == st.requests[f.requestId].totalSize
    ensures CompleteFile(st, f).1 == Ok(NothingLeft(Completed(st, f).files, f.requestId))
  {
    ProgressAllIff(st, Completed(st, f), f);
    assert ProgressAt(Completed(st, f), f.requestId);
    TotalReached(Completed(st, f), f.requestId, st.requests[f.requestId].totalSize);
  }

  /** Two requests to one peer in one second that name the same path share a by-peer
      key: once both files are added the first is never offered for download. */
  lemma SharedSlotLosesFile(st: Store, first: RequestedFile, second: RequestedFile)
    requires Agree(st) && first.requestId in st.requests && second.requestId in st.requests
    requires first.path == second.path && first.requestId != second.requestId
    requires SlotOf(st.requests[first.requestId], first.path) == SlotOf(st.requests[second.requestId], second.path)
    requires Permitted(st, Want(first)) && !second.downloaded
    ensures var st' := Run(st, [Want(first), Want(second)]);
            var lost := FileId(first.requestId, first.path);
            && lost in st'.files && !st'.files[lost].downloaded
            && lost.requestId in st'.requests && !IsOutstanding(st', lost)
  {
    var middle := Step(st, Want(first));
    StepAgrees(st, Want(first));
    TakenSlotLosesFile(middle, second);
    assert [Want(first), Want(second)][1..] == [Want(second)];
    assert Run(middle, [Want(second)]) == Run(Step(middle, Want(second)), []);
  }

  /** A file that is offered twice and completed twice is counted twice. */
  lemma SecondCompletionBreaks(st: Store, f: RequestedFile)
    requires Agree(st) && Permitted(st, Complete(f)) && f.downloaded && f.requestId in st.requests
    ensures Agree(Run(st, [Complete(f), Complete(f)])) <==> f.size == 0
  {
    var once := Step(st, Complete(f));
    StepAgrees(st, Complete(f));
    CompleteAgreesIff(once, f);
    assert [Complete(f), Complete(f)][1..] == [Complete(f)];
    assert Run(once, [Complete(f)]) == Run(Step(once, Complete(f)), []);
  }

  // ------------------------------------------- the two inserts of an addition

  /** The first insert of `add_requested_file`, which the peer's worker sees. */
  function SlotWritten(st: Store, f: RequestedFile): Store
    requires f.requestId in st.requests
  {
    st.(outstanding := st.outstanding[SlotOf(st.requests[f.requestId], f.path) := Wanted(f.requestId, f.size)])
  }

  /** The second. */
  function FileWritten(st: Store, f: RequestedFile): Store {
    st.(files := st.files[FileId(f.requestId, f.path) := FileState(f.size, f.downloaded)])
  }

  lemma OtherBetween(st: Store, f: RequestedFile, g: RequestedFile)
    requires Agree(st) && Permitted(st, Want(f)) && f.requestId in st.requests
    requires g.downloaded && g.requestId in st.requests && FileId(g.requestId, g.path) != FileId(f.requestId, f.path)
    requires FileId(g.requestId, g.path) in st.files && !st.files[FileId(g.requestId, g.path)].downloaded
    ensures FileWritten(Completed(SlotWritten(st, f), g), f) == Completed(Stored(st, f), g)
    ensures Permitted(Stored(st, f), Complete(g))
  {
    hide ProgressRight, OutstandingBacked;
    var slotF, slotG := SlotOf(st.requests[f.requestId], f.path), SlotOf(st.requests[g.requestId], g.path);
    assert IsOutstanding(st, FileId(g.requestId, g.path));
    assert slotF != slotG;
    var left, right := FileWritten(Completed(SlotWritten(st, f), g), f), Completed(Stored(st, f), g);
    assert left.files == right.files;
    assert left.outstanding == right.outstanding;
  }

  /** A completion that comes between the two inserts of an addition does harm if and
      only if it is of the very file being added, which is then neither outstanding nor
      flagged. */
  lemma OvertakenAddIff(st: Store, f: RequestedFile, g: RequestedFile)
    requires Agree(st) && Permitted(st, Want(f)) && f.requestId in st.requests
    requires g.downloaded && g.requestId in st.requests
    requires var k := FileId(g.requestId, g.path);
             k == FileId(f.requestId, f.path) || (k in st.files && !st.files[k].downloaded)
    ensures Agree(FileWritten(Completed(SlotWritten(st, f), g), f)) <==>
            FileId(g.requestId, g.path) != FileId(f.requestId, f.path)
  {
    var k, t := FileId(f.requestId, f.path), FileWritten(Completed(SlotWritten(st, f), g), f);
    if FileId(g.requestId, g.path) == k {
      assert k in t.files && !t.files[k].downloaded && !IsOutstanding(t, k);
    } else {
      hide Agree;
      OtherBetween(st, f, g);
      StepAgrees(st, Want(f));
      StepAgrees(Stored(st, f), Complete(g));
    }
  }
}
