/** One peer's requests as a system of tasks: the user adds requests and files, the
    stream reads what is outstanding, the peer's worker handles what the stream yields,
    and workers of other peers finish files of theirs, in any order. */
module PeerSystem {
  import opened Bytes
  import opened WishlistCodec
  import opened WishlistStore
  import opened RequestStream
  import opened StreamDeliveries
  import opened PeerWorker
  import opened PeerStream
  import Transfer
  import Wishlist

  /** `handled` is how many of the yielded files the worker is done with. */
  datatype System = System(stream: Stream, world: World, handled: nat, running: bool)

  datatype SystemStep =
    | Read(step: StreamStep)
    | AddRequest(request: DownloadRequest)
    | AddFile(file: RequestedFile)
    | Handle(closedBefore: bool, link: Transfer.Link, closedAfter: bool)
    | FinishElsewhere(file: RequestedFile)

  function Initial(tree: map<Bytes, Bytes>, w: World): System {
    System(Start(tree), w, 0, true)
  }

  predicate IsRead(step: StreamStep) {
    step.Subscribe? || step.ScanNext? || step.TakeEvent?
  }

  predicate CanStep(s: System, peer: PublicKey, step: SystemStep) {
    match step
    case Read(r) => IsRead(r) && Enabled(s.stream, r)
    case AddRequest(_) => true
    case AddFile(_) => true
    case Handle(_, _, _) => s.running && s.handled < |s.stream.yielded|
    case FinishElsewhere(f) =>
      f.requestId in s.world.store.requests && s.world.store.requests[f.requestId].peer != peer
  }

  function KeyOf(st: Store, f: RequestedFile): Bytes
    requires f.requestId in st.requests
  {
    Wishlist.SlotKey(SlotOf(st.requests[f.requestId], f.path))
  }

  /** The insert into the by-peer tree. */
  function InsertOf(st: Store, f: RequestedFile): StreamStep
    requires f.requestId in st.requests
  {
    Insert(KeyOf(st, f), PeerValue(f.requestId, f.size))
  }

  function JobOf(s: System, step: SystemStep): Job
    requires step.Handle? && s.handled < |s.stream.yielded|
  {
    Job(s.stream.yielded[s.handled], step.closedBefore, step.link, step.closedAfter)
  }

  ghost function Next(s: System, peer: PublicKey, step: SystemStep): System
    requires CanStep(s, peer, step)
  {
    var st := s.world.store;
    match step
    case Read(r) => s.(stream := Apply(s.stream, peer, r))
    case AddRequest(r) => s.(world := s.world.(store := WishlistStore.AddRequest(st, r)))
    case AddFile(f) =>
      if f.requestId !in st.requests then s
      else
        s.(world := s.world.(store := WishlistStore.AddFile(st, f).0),
           stream := Apply(s.stream, peer, InsertOf(st, f)))
    case Handle(_, _, _) =>
      var job := JobOf(s, step);
      var (world, goOn) := Turn(s.world, job);
      var stream := if Completes(s.world, job) then Apply(s.stream, peer, Remove(KeyOf(st, job.file))) else s.stream;
      System(stream, world, s.handled + 1, goOn)
    case FinishElsewhere(f) =>
      s.(world := s.world.(store := CompleteFile(st, f.(downloaded := true)).0),
         stream := Apply(s.stream, peer, Remove(KeyOf(st, f))))
  }

  /** What is owed when a step is taken. Nothing is asked of the reader, of the worker
      or of the network. */
  predicate Owes(s: System, peer: PublicKey, step: SystemStep) {
    var st := s.world.store;
    match step
    case Read(_) => true
    case AddRequest(r) => Replaceable(st, r)
    case AddFile(f) =>
      !f.downloaded && (f.requestId in st.requests ==>
        SlotFree(st, f) && NotCounted(st, f) && Careful(s.stream, peer, InsertOf(st, f)))
    case Handle(_, _, _) => true
    case FinishElsewhere(f) => f.requestId in st.requests ==> SlotFree(st, f) && NotCounted(st, f)
  }

  ghost predicate CanGo(s: System, peer: PublicKey, steps: seq<SystemStep>)
    decreases |steps|
  {
    steps == [] || (CanStep(s, peer, steps[0]) && CanGo(Next(s, peer, steps[0]), peer, steps[1..]))
  }

  ghost function AfterAll(s: System, peer: PublicKey, steps: seq<SystemStep>): System
    requires CanGo(s, peer, steps)
    decreases |steps|
  {
    if steps == [] then s else AfterAll(Next(s, peer, steps[0]), peer, steps[1..])
  }

  ghost predicate AllOwed(s: System, peer: PublicKey, steps: seq<SystemStep>)
    requires CanGo(s, peer, steps)
    decreases |steps|
  {
    steps == [] || (Owes(s, peer, steps[0]) && AllOwed(Next(s, peer, steps[0]), peer, steps[1..]))
  }

  // --------------------------------------------------------------- invariant

  /** The file is stored as wanted and its own by-peer key is `k`. */
  predicate OfferedUnder(st: Store, k: Bytes, f: RequestedFile) {
    f.requestId in st.requests && Offered(st, f) && k == KeyOf(st, f)
  }

  /** What is delivered but not handled is still wanted. */
  predicate ToHandleOffered(s: System) {
    && |s.stream.taken| == |s.stream.yielded| && s.handled <= |s.stream.yielded|
    && forall i | s.handled <= i < |s.stream.yielded| ::
         OfferedUnder(s.world.store, s.stream.taken[i], s.stream.yielded[i])
  }

  /** So is what waits in the event queue. */
  predicate QueuedOffered(s: System) {
    forall e | e in s.stream.queue && e.Inserted? && Decodes(e.key, e.value) ::
      OfferedUnder(s.world.store, e.key, FileFromPeerDb(e.key, e.value).value)
  }

  predicate PeersKeys(s: Stream, peer: PublicKey) {
    (forall k | k in s.taken :: peer <= k) && (forall e | e in s.queue :: peer <= e.key)
  }

  /** The five trees agree, the stream reads the by-peer tree, no key can be delivered
      twice, and whatever the worker has still to get is wanted. */
  ghost predicate Sound(s: System, peer: PublicKey) {
    && Agree(s.world.store) && Wishlist.PeerTree(s.stream.tree, s.world.store.outstanding)
    && AtMostOnce(s.stream, peer) && Fresh(s.stream) && PeersKeys(s.stream, peer)
    && ToHandleOffered(s) && QueuedOffered(s)
  }

  lemma InitialSound(tree: map<Bytes, Bytes>, w: World, peer: PublicKey)
    requires Agree(w.store) && Wishlist.PeerTree(tree, w.store.outstanding)
    ensures Sound(Initial(tree, w), peer)
  {
    hide Agree, Wishlist.PeerTree, Times, Owed, AtMostOnce;
    StartAtMostOnce(tree, peer);
  }

  // ------------------------------------------------------------------ reading

  lemma TreeRecordOffered(st: Store, tree: map<Bytes, Bytes>, k: Bytes)
    requires Agree(st) && Wishlist.PeerTree(tree, st.outstanding) && k in tree && Decodes(k, tree[k])
    ensures OfferedUnder(st, k, FileFromPeerDb(k, tree[k]).value)
  {
    hide Agree;
    var slot :| slot in st.outstanding && Wishlist.SlotKey(slot) == k;
    RecordOfSlot(st, slot);
  }

  lemma DeliverKeeps(s: System, t: System, k: Bytes, v: Bytes)
    requires ToHandleOffered(s) && t.world == s.world && t.handled == s.handled
    requires t.stream.taken == Take(s.stream.taken, k, v) && t.stream.yielded == Yield(s.stream.yielded, k, v)
    requires Decodes(k, v) ==> OfferedUnder(s.world.store, k, FileFromPeerDb(k, v).value)
    ensures ToHandleOffered(t)
  {
    hide OfferedUnder;
  }

  lemma ReadDelivers(s: System, peer: PublicKey, r: StreamStep)
    requires Sound(s, peer) && IsRead(r) && Enabled(s.stream, r)
    ensures var t := s.(stream := Apply(s.stream, peer, r));
            ToHandleOffered(t) && QueuedOffered(t) && PeersKeys(t.stream, peer)
  {
    hide Agree, Wishlist.PeerTree, AtMostOnce, Fresh, OfferedUnder, FileFromPeerDb;
    var t := s.(stream := Apply(s.stream, peer, r));
    if r.ScanNext? {
      var ahead := Ahead(s.stream.tree, peer, s.stream.cursor);
      if ahead != {} {
        var k := Least(ahead);
        if Decodes(k, s.stream.tree[k]) { TreeRecordOffered(s.world.store, s.stream.tree, k); }
        DeliverKeeps(s, t, k, s.stream.tree[k]);
      }
    } else if r.TakeEvent? {
      var e := s.stream.queue[0];
      assert e in s.stream.queue;
      if e.Inserted? { DeliverKeeps(s, t, e.key, e.value); }
    }
  }

  lemma ReadKeeps(s: System, peer: PublicKey, r: StreamStep)
    requires Sound(s, peer) && CanStep(s, peer, Read(r))
    ensures Sound(Next(s, peer, Read(r)), peer)
  {
    hide Agree, Wishlist.PeerTree, AtMostOnce, Fresh, ToHandleOffered, QueuedOffered, PeersKeys;
    ReadDelivers(s, peer, r);
    StepAtMostOnceIff(s.stream, peer, r);
  }

  // -------------------------------------------------------------- store steps

  lemma RequestKeepsOffered(st: Store, r: DownloadRequest, k: Bytes, f: RequestedFile)
    requires Agree(st) && Replaceable(st, r) && OfferedUnder(st, k, f)
    ensures OfferedUnder(WishlistStore.AddRequest(st, r), k, f)
  {
    hide ProgressRight, OutstandingBacked, Wishlist.SlotKey;
    assert IsOutstanding(st, FileOf(f));
  }

  lemma RequestKeeps(s: System, peer: PublicKey, r: DownloadRequest)
    requires Sound(s, peer) && Replaceable(s.world.store, r)
    ensures Sound(Next(s, peer, SystemStep.AddRequest(r)), peer)
  {
    hide Agree, Wishlist.PeerTree, AtMostOnce, Fresh, PeersKeys, OfferedUnder, FileFromPeerDb, Replaceable;
    var st, t := s.world.store, Next(s, peer, SystemStep.AddRequest(r));
    AddRequestAgreesIff(st, r);
    forall i | s.handled <= i < |s.stream.yielded|
      ensures OfferedUnder(t.world.store, s.stream.taken[i], s.stream.yielded[i])
    {
      RequestKeepsOffered(st, r, s.stream.taken[i], s.stream.yielded[i]);
    }
    forall e | e in s.stream.queue && e.Inserted? && Decodes(e.key, e.value)
      ensures OfferedUnder(t.world.store, e.key, FileFromPeerDb(e.key, e.value).value)
    {
      RequestKeepsOffered(st, r, e.key, FileFromPeerDb(e.key, e.value).value);
    }
  }

  /** A change to one file leaves what is wanted under other keys as it was. */
  lemma OthersStayOffered(st: Store, st': Store, g: RequestedFile, k: Bytes, f: RequestedFile)
    requires g.requestId in st.requests && st'.requests == st.requests
    requires forall j | j != FileOf(g) && j in st.files :: j in st'.files && st'.files[j] == st.files[j]
    requires OfferedUnder(st, k, f) && k != KeyOf(st, g)
    ensures OfferedUnder(st', k, f)
  {
    assert FileOf(f) != FileOf(g);
  }

  /** No event waits under the key, and nothing the worker has still to handle was
      delivered under it. */
  predicate NotComing(s: System, k: Bytes) {
    && (forall i | s.handled <= i < |s.stream.taken| :: s.stream.taken[i] != k)
    && (forall e | e in s.stream.queue && e.Inserted? && Decodes(e.key, e.value) :: e.key != k)
  }

  lemma StoreKeepsOffered(s: System, st': Store, g: RequestedFile)
    requires ToHandleOffered(s) && QueuedOffered(s)
    requires g.requestId in s.world.store.requests && st'.requests == s.world.store.requests
    requires forall j | j != FileOf(g) && j in s.world.store.files ::
               j in st'.files && st'.files[j] == s.world.store.files[j]
    requires NotComing(s, KeyOf(s.world.store, g))
    ensures var t := s.(world := s.world.(store := st')); ToHandleOffered(t) && QueuedOffered(t)
  {
    hide OfferedUnder, FileFromPeerDb, KeyOf;
    var st := s.world.store;
    forall i | s.handled <= i < |s.stream.yielded|
      ensures OfferedUnder(st', s.stream.taken[i], s.stream.yielded[i])
    {
      OthersStayOffered(st, st', g, s.stream.taken[i], s.stream.yielded[i]);
    }
    forall e | e in s.stream.queue && e.Inserted? && Decodes(e.key, e.value)
      ensures OfferedUnder(st', e.key, FileFromPeerDb(e.key, e.value).value)
    {
      OthersStayOffered(st, st', g, e.key, FileFromPeerDb(e.key, e.value).value);
    }
  }

  lemma CarefulNotComing(s: System, peer: PublicKey, k: Bytes, v: Bytes)
    requires Fresh(s.stream) && PeersKeys(s.stream, peer) && Careful(s.stream, peer, Insert(k, v)) && Decodes(k, v)
    ensures NotComing(s, k)
  {
    hide FileFromPeerDb;
    forall i | s.handled <= i < |s.stream.taken| ensures s.stream.taken[i] != k {
      assert s.stream.taken[i] in s.stream.taken;
    }
  }

  lemma OtherPeerNotComing(s: System, peer: PublicKey, k: Bytes)
    requires PeersKeys(s.stream, peer) && !(peer <= k)
    ensures NotComing(s, k)
  {
    forall i | s.handled <= i < |s.stream.taken| ensures s.stream.taken[i] != k {
      assert s.stream.taken[i] in s.stream.taken;
    }
  }

  // ------------------------------------------------------------ adding a file

  lemma RecordDecodes(st: Store, f: RequestedFile)
    requires f.requestId in st.requests && !f.downloaded
    ensures FileFromPeerDb(KeyOf(st, f), PeerValue(f.requestId, f.size)) == Ok(f)
  {
    var r := st.requests[f.requestId];
    FileRoundTrip(f, r.peer, r.timestamp);
    assert f.(downloaded := false) == f;
  }

  lemma AddedTree(s: System, peer: PublicKey, f: RequestedFile)
    requires Wishlist.PeerTree(s.stream.tree, s.world.store.outstanding) && f.requestId in s.world.store.requests
    ensures var t := Next(s, peer, SystemStep.AddFile(f));
            Wishlist.PeerTree(t.stream.tree, t.world.store.outstanding)
  {
    hide Wishlist.PeerTree;
    var st := s.world.store;
    var slot := SlotOf(st.requests[f.requestId], f.path);
    Wishlist.PutSlot(s.stream.tree, st.outstanding, slot, Wanted(f.requestId, f.size));
  }

  lemma AddedOffered(s: System, peer: PublicKey, f: RequestedFile)
    requires Sound(s, peer) && f.requestId in s.world.store.requests && !f.downloaded
    requires Careful(s.stream, peer, InsertOf(s.world.store, f))
    ensures var t := Next(s, peer, SystemStep.AddFile(f));
            ToHandleOffered(t) && QueuedOffered(t) && PeersKeys(t.stream, peer)
  {
    hide Agree, Wishlist.PeerTree, AtMostOnce, Fresh, Careful, FileFromPeerDb, OfferedUnder;
    var st, t := s.world.store, Next(s, peer, SystemStep.AddFile(f));
    var st' := t.world.store;
    var k, v := KeyOf(st, f), PeerValue(f.requestId, f.size);
    RecordDecodes(st, f);
    CarefulNotComing(s, peer, k, v);
    StoreKeepsOffered(s, st', f);
    assert OfferedUnder(st', k, f) by { NowOffered(st, f); }
    assert t.stream.taken == s.stream.taken && t.stream.yielded == s.stream.yielded;
    assert t.stream.queue == Notify(s.stream, peer, Inserted(k, v));
  }

  lemma NowOffered(st: Store, f: RequestedFile)
    requires f.requestId in st.requests && !f.downloaded
    ensures OfferedUnder(Stored(st, f), KeyOf(st, f), f)
  {
  }

  /** Adding a file keeps the system sound if and only if its by-peer key is not
      another request's, it is not counted already, and the insert is careful. */
  lemma AddFileSoundIff(s: System, peer: PublicKey, f: RequestedFile)
    requires Sound(s, peer) && f.requestId in s.world.store.requests && !f.downloaded
    ensures Sound(Next(s, peer, SystemStep.AddFile(f)), peer) <==> Owes(s, peer, SystemStep.AddFile(f))
  {
    hide Agree, Wishlist.PeerTree, AtMostOnce, Fresh, Careful, PeersKeys;
    hide ToHandleOffered, QueuedOffered, SlotFree, NotCounted;
    AddFileAgreesIff(s.world.store, f);
    StepAtMostOnceIff(s.stream, peer, InsertOf(s.world.store, f));
    AddedTree(s, peer, f);
    if Careful(s.stream, peer, InsertOf(s.world.store, f)) { AddedOffered(s, peer, f); }
  }

  // -------------------------------------------------------- finishing a file

  /** Marking a file that is not coming again and taking its key away. */
  lemma FinishKeeps(s: System, peer: PublicKey, f: RequestedFile)
    requires Sound(s, peer) && f.requestId in s.world.store.requests
    requires SlotFree(s.world.store, f) && NotCounted(s.world.store, f) && NotComing(s, KeyOf(s.world.store, f))
    ensures var st := s.world.store;
            var t := s.(world := s.world.(store := Completed(st, f.(downloaded := true))),
                        stream := Apply(s.stream, peer, Remove(KeyOf(st, f))));
            Sound(t, peer)
  {
    hide Agree, AtMostOnce, Fresh, FileFromPeerDb, OfferedUnder, NotComing, Wishlist.PeerTree, SlotFree, NotCounted;
    var st, g := s.world.store, f.(downloaded := true);
    var k := KeyOf(st, f);
    FinishAgrees(st, f);
    StepAtMostOnceIff(s.stream, peer, Remove(k));
    RemoveIsCareful(s.stream, peer, k);
    Wishlist.DropSlot(s.stream.tree, st.outstanding, SlotOf(st.requests[f.requestId], f.path));
    StoreKeepsOffered(s, Completed(st, g), f);
  }

  lemma FinishAgrees(st: Store, f: RequestedFile)
    requires Agree(st) && f.requestId in st.requests && SlotFree(st, f) && NotCounted(st, f)
    ensures Agree(Completed(st, f.(downloaded := true)))
  {
    hide Agree;
    CompleteAgreesIff(st, f.(downloaded := true));
  }

  lemma RemoveIsCareful(s: Stream, peer: PublicKey, k: Bytes)
    ensures Careful(s, peer, Remove(k))
  {
  }

  lemma FinishElsewhereKeeps(s: System, peer: PublicKey, f: RequestedFile)
    requires Sound(s, peer) && CanStep(s, peer, FinishElsewhere(f)) && Owes(s, peer, FinishElsewhere(f))
    ensures Sound(Next(s, peer, FinishElsewhere(f)), peer)
  {
    hide Agree, AtMostOnce, Fresh, NotComing, Wishlist.PeerTree, SlotFree, NotCounted, ToHandleOffered, QueuedOffered;
    var st := s.world.store;
    var r := st.requests[f.requestId];
    PeerPrefix(r.peer, peer, r.timestamp, f.path);
    OtherPeerNotComing(s, peer, KeyOf(st, f));
    FinishKeeps(s, peer, f);
  }

  // ------------------------------------------------------------- the worker

  /** The file in hand does not come again. */
  lemma HandledNotComing(s: System, peer: PublicKey)
    requires AtMostOnce(s.stream, peer) && PeersKeys(s.stream, peer) && ToHandleOffered(s)
    requires s.handled < |s.stream.yielded|
    ensures NotComing(s.(handled := s.handled + 1), s.stream.taken[s.handled])
  {
    hide OfferedUnder, FileFromPeerDb, ScanOwes;
    var k := s.stream.taken[s.handled];
    assert k in s.stream.taken && Times(s.stream, k) >= 1;
    assert Times(s.stream, k) + Owed(s.stream, k) <= 1;
    QueueOwesIff(s.stream.queue, k);
    forall i | s.handled + 1 <= i < |s.stream.taken| ensures s.stream.taken[i] != k {
      if s.stream.taken[i] == k { TwiceInMultiset(s.stream.taken, s.handled, i); }
    }
  }

  lemma PassedOn(s: System, peer: PublicKey)
    requires Sound(s, peer) && s.handled < |s.stream.yielded|
    ensures Sound(s.(handled := s.handled + 1), peer)
  {
    hide Agree, Wishlist.PeerTree, AtMostOnce, Fresh, OfferedUnder, FileFromPeerDb;
  }

  lemma InHand(s: System, peer: PublicKey)
    requires Sound(s, peer) && s.handled < |s.stream.yielded|
    ensures var f := s.stream.yielded[s.handled];
            && OfferedUnder(s.world.store, s.stream.taken[s.handled], f)
            && SlotFree(s.world.store, f) && NotCounted(s.world.store, f)
  {
    hide Wishlist.PeerTree, AtMostOnce, Fresh, FileFromPeerDb, ProgressRight, OutstandingBacked;
    var f := s.stream.yielded[s.handled];
    assert OfferedUnder(s.world.store, s.stream.taken[s.handled], f);
    assert IsOutstanding(s.world.store, FileOf(f));
  }

  lemma TurnStore(w: World, job: Job)
    ensures Turn(w, job).0.store ==
              if Completes(w, job) then Completed(w.store, job.file.(downloaded := true)) else w.store
  {
    hide Transfer.Fetch;
  }

  lemma SoundSame(s: System, t: System, peer: PublicKey)
    requires Sound(s, peer) && t.stream == s.stream && t.world.store == s.world.store && t.handled == s.handled
    ensures Sound(t, peer)
  {
    hide Agree, Wishlist.PeerTree, AtMostOnce, Fresh, OfferedUnder, FileFromPeerDb;
  }

  lemma HandleKeeps(s: System, peer: PublicKey, step: SystemStep)
    requires Sound(s, peer) && step.Handle? && CanStep(s, peer, step)
    ensures Sound(Next(s, peer, step), peer)
  {
    hide Agree, Wishlist.PeerTree, AtMostOnce, Fresh, Turn, Completes, NotComing, SlotFree, NotCounted, KeyOf;
    hide PeersKeys, QueuedOffered;
    var job, next, st := JobOf(s, step), s.(handled := s.handled + 1), s.world.store;
    var t := Next(s, peer, step);
    InHand(s, peer);
    TurnStore(s.world, job);
    PassedOn(s, peer);
    if Completes(s.world, job) {
      HandledNotComing(s, peer);
      FinishKeeps(next, peer, job.file);
      var done := next.(world := s.world.(store := Completed(st, job.file.(downloaded := true))),
                        stream := Apply(s.stream, peer, Remove(KeyOf(st, job.file))));
      SoundSame(done, t, peer);
    } else {
      SoundSame(next, t, peer);
    }
  }

  // -------------------------------------------------------------- whole runs

  lemma StepKeeps(s: System, peer: PublicKey, step: SystemStep)
    requires Sound(s, peer) && CanStep(s, peer, step) && Owes(s, peer, step)
    ensures Sound(Next(s, peer, step), peer)
  {
    hide Sound;
    match step
    case Read(r) => ReadKeeps(s, peer, r);
    case AddRequest(r) => RequestKeeps(s, peer, r);
    case AddFile(f) => if f.requestId in s.world.store.requests { AddFileSoundIff(s, peer, f); }
    case Handle(_, _, _) => HandleKeeps(s, peer, step);
    case FinishElsewhere(f) => FinishElsewhereKeeps(s, peer, f);
  }

  lemma {:induction false} RunKeeps(s: System, peer: PublicKey, steps: seq<SystemStep>)
    requires Sound(s, peer) && CanGo(s, peer, steps) && AllOwed(s, peer, steps)
    ensures Sound(AfterAll(s, peer, steps), peer)
    decreases |steps|
  {
    hide Sound, Next, Owes, CanStep;
    if steps != [] {
      StepKeeps(s, peer, steps[0]);
      RunKeeps(Next(s, peer, steps[0]), peer, steps[1..]);
    }
  }

  /** Main result: in every interleaving of adding requests and files, reading, handling
      and finishing elsewhere, with transfers failing as they may, progress is the size
      of the files flagged downloaded, exactly the others are outstanding, no file has
      been offered to the worker twice, and each one it has still to handle is wanted. */
  lemma InterleavedRunAgrees(tree: map<Bytes, Bytes>, w: World, peer: PublicKey, steps: seq<SystemStep>)
    requires Agree(w.store) && Wishlist.PeerTree(tree, w.store.outstanding)
    requires CanGo(Initial(tree, w), peer, steps) && AllOwed(Initial(tree, w), peer, steps)
    ensures var s := AfterAll(Initial(tree, w), peer, steps);
            && Agree(s.world.store)
            && (forall i, j | 0 <= i < j < |s.stream.taken| :: s.stream.taken[i] != s.stream.taken[j])
            && (forall i | s.handled <= i < |s.stream.yielded| :: Offered(s.world.store, s.stream.yielded[i]))
  {
    hide Agree, Wishlist.PeerTree, Fresh, QueuedOffered, FileFromPeerDb;
    InitialSound(tree, w, peer);
    RunKeeps(Initial(tree, w), peer, steps);
    var s := AfterAll(Initial(tree, w), peer, steps);
    forall i, j | 0 <= i < j < |s.stream.taken| ensures s.stream.taken[i] != s.stream.taken[j] {
      var k := s.stream.taken[i];
      assert k in s.stream.taken;
      assert Times(s.stream, k) + Owed(s.stream, k) <= 1;
      if s.stream.taken[j] == k { TwiceInMultiset(s.stream.taken, i, j); }
    }
  }

  lemma {:induction false} ReadersOweNothing(s: System, peer: PublicKey, steps: seq<SystemStep>)
    requires CanGo(s, peer, steps) && forall i | 0 <= i < |steps| :: steps[i].Read? || steps[i].Handle?
    ensures AllOwed(s, peer, steps)
    decreases |steps|
  {
    hide Next, CanStep;
    if steps != [] { ReadersOweNothing(Next(s, peer, steps[0]), peer, steps[1..]); }
  }

  /** After a restart or reconnection, with nothing added meanwhile, there is nothing to
      owe: a stream opened on what an agreed wishlist holds offers each file once and the
      accounting holds without further conditions. */
  lemma ResumedRunAgrees(tree: map<Bytes, Bytes>, w: World, peer: PublicKey, steps: seq<SystemStep>)
    requires Agree(w.store) && Wishlist.PeerTree(tree, w.store.outstanding)
    requires CanGo(Initial(tree, w), peer, steps) && forall i | 0 <= i < |steps| :: steps[i].Read? || steps[i].Handle?
    ensures var s := AfterAll(Initial(tree, w), peer, steps);
            && Agree(s.world.store)
            && (forall i, j | 0 <= i < j < |s.stream.taken| :: s.stream.taken[i] != s.stream.taken[j])
  {
    hide Agree, Wishlist.PeerTree, Next, CanStep;
    ReadersOweNothing(Initial(tree, w), peer, steps);
    InterleavedRunAgrees(tree, w, peer, steps);
  }

  // -------------------------------------------------- when the worker stops

  lemma StopsIff(s: System, peer: PublicKey, step: SystemStep)
    requires s.running && CanStep(s, peer, step)
    ensures Next(s, peer, step).running <==> (step.Handle? ==> Passes(s.world, JobOf(s, step)))
  {
    hide Transfer.Fetch, Finished, Apply;
  }

  /** A worker that has stopped handles nothing more and announces nothing more,
      whatever is added or read. */
  lemma {:induction false} StoppedStays(s: System, peer: PublicKey, steps: seq<SystemStep>)
    requires !s.running && CanGo(s, peer, steps)
    ensures var t := AfterAll(s, peer, steps);
            && !t.running && t.handled == s.handled
            && t.world.files == s.world.files && t.world.reported == s.world.reported
    decreases |steps|
  {
    hide Apply, CompleteFile;
    if steps != [] { StoppedStays(Next(s, peer, steps[0]), peer, steps[1..]); }
  }

  // ------------------------------------------- announcing a request complete

  /** The step adds nothing to the request. */
  predicate Leaves(step: SystemStep, id: u32) {
    (step.AddRequest? ==> step.request.requestId != id) && (step.AddFile? ==> step.file.requestId != id)
  }

  /** A request of this peer whose files have bytes and sum to its size. */
  ghost predicate Tracked(st: Store, peer: PublicKey, id: u32) {
    && Sized(st, id) && st.requests[id].peer == peer
    && forall k | k in st.files && k.requestId == id :: st.files[k].size > 0
  }

  ghost predicate SameFiles(a: map<FileId, FileState>, b: map<FileId, FileState>, id: u32) {
    forall k: FileId | k.requestId == id :: (k in a <==> k in b) && (k in a ==> a[k] == b[k])
  }

  lemma OtherFile(st: Store, st': Store, peer: PublicKey, id: u32)
    requires Tracked(st, peer, id) && SameFiles(st.files, st'.files, id)
    requires id in st'.requests && st'.requests[id] == st.requests[id]
    ensures Tracked(st', peer, id) && (NothingLeft(st'.files, id) <==> NothingLeft(st.files, id))
  {
    assert Sizes(st.files, id) == Sizes(st'.files, id);
  }

  lemma TurnReportsItsOwn(w: World, job: Job)
    ensures Turn(w, job).0.reported == w.reported || Turn(w, job).0.reported == w.reported + [job.file.requestId]
  {
    hide Transfer.Fetch, CompleteFile;
  }

  lemma HandOffered(s: System, peer: PublicKey, step: SystemStep)
    requires Sound(s, peer) && step.Handle? && CanStep(s, peer, step)
    ensures Offered(s.world.store, JobOf(s, step).file) && Agree(s.world.store)
  {
    hide Agree;
    InHand(s, peer);
  }

  lemma HandledOther(w: World, job: Job, peer: PublicKey, id: u32)
    requires Tracked(w.store, peer, id) && job.file.requestId != id
    ensures var t := Turn(w, job).0;
            && Tracked(t.store, peer, id) && multiset(t.reported)[id] == multiset(w.reported)[id]
            && (NothingLeft(t.store.files, id) <==> NothingLeft(w.store.files, id))
  {
    hide Total, NothingLeft, Turn, Completes;
    TurnStore(w, job);
    TurnReportsItsOwn(w, job);
    OtherFile(w.store, Turn(w, job).0.store, peer, id);
  }

  lemma HandledOwn(w: World, job: Job, peer: PublicKey)
    requires Agree(w.store) && Offered(w.store, job.file) && Tracked(w.store, peer, job.file.requestId)
    ensures var (t, id) := (Turn(w, job).0, job.file.requestId);
            && Tracked(t.store, peer, id) && !NothingLeft(w.store.files, id)
            && multiset(t.reported)[id] == multiset(w.reported)[id] + (if NothingLeft(t.store.files, id) then 1 else 0)
  {
    hide Agree, Turn, Completes, Total;
    TurnStore(w, job);
    TurnReportsIff(w, job);
    if Completes(w, job) {
      CompletedTotal(w.store, job.file, job.file.requestId);
    }
  }

  lemma StepReports(s: System, peer: PublicKey, step: SystemStep, id: u32)
    requires Sound(s, peer) && CanStep(s, peer, step) && Leaves(step, id) && Tracked(s.world.store, peer, id)
    ensures var (w, t) := (s.world, Next(s, peer, step).world);
            && Tracked(t.store, peer, id)
            && (NothingLeft(w.store.files, id) ==> NothingLeft(t.store.files, id))
            && multiset(t.reported)[id] == multiset(w.reported)[id]
                 + (if !NothingLeft(w.store.files, id) && NothingLeft(t.store.files, id) then 1 else 0)
  {
    hide Sound, NothingLeft, Total, Turn, KeyOf, Completes;
    var w, t := s.world, Next(s, peer, step).world;
    if step.Handle? {
      var job := JobOf(s, step);
      HandOffered(s, peer, step);
      if job.file.requestId == id { HandledOwn(w, job, peer); } else { HandledOther(w, job, peer, id); }
    } else {
      OtherFile(w.store, t.store, peer, id);
    }
  }

  /** In every interleaving in which nothing is added to a request, the request is
      announced complete once if its last file is marked meanwhile, and otherwise
      not at all. */
  lemma {:induction false} AnnouncedOnce(s: System, peer: PublicKey, steps: seq<SystemStep>, id: u32)
    requires Sound(s, peer) && CanGo(s, peer, steps) && AllOwed(s, peer, steps)
    requires Tracked(s.world.store, peer, id) && forall i | 0 <= i < |steps| :: Leaves(steps[i], id)
    ensures var (w, t) := (s.world, AfterAll(s, peer, steps).world);
            && (NothingLeft(w.store.files, id) ==> NothingLeft(t.store.files, id))
            && multiset(t.reported)[id] == multiset(w.reported)[id]
                 + (if !NothingLeft(w.store.files, id) && NothingLeft(t.store.files, id) then 1 else 0)
    decreases |steps|
  {
    hide Sound, NothingLeft, Next, CanStep, Owes, Tracked, Leaves;
    if steps != [] {
      StepReports(s, peer, steps[0], id);
      StepKeeps(s, peer, steps[0]);
      AnnouncedOnce(Next(s, peer, steps[0]), peer, steps[1..], id);
    }
  }

  // ------------------------------------------------------------ the usual cycle

  /** Everything so far is read and handled. */
  predicate Waiting(s: System) {
    s.running && s.handled == |s.stream.yielded| && Idle(s.stream)
  }

  lemma AddedIsQueued(s: System, peer: PublicKey, f: RequestedFile)
    requires Waiting(s) && f.requestId in s.world.store.requests && !f.downloaded
    requires s.world.store.requests[f.requestId].peer == peer
    ensures var t := Next(s, peer, SystemStep.AddFile(f));
            t.stream.queue == [Inserted(KeyOf(s.world.store, f), PeerValue(f.requestId, f.size))]
            && t.stream.subscribed && !t.stream.scanning && t.running
            && t.handled == |t.stream.yielded| && t.stream.yielded == s.stream.yielded
            && t.world == s.world.(store := Stored(s.world.store, f))
  {
    var r := s.world.store.requests[f.requestId];
    PeerPrefix(peer, peer, r.timestamp, f.path);
  }

  /** The file is in the worker's hands. */
  predicate Holding(s: System, f: RequestedFile) {
    && s.running && |s.stream.yielded| == s.handled + 1 && s.stream.yielded[s.handled] == f
    && s.stream.subscribed && !s.stream.scanning && s.stream.queue == []
  }

  lemma QueuedIsTaken(s: System, peer: PublicKey, f: RequestedFile, k: Bytes, v: Bytes)
    requires s.stream.queue == [Inserted(k, v)] && FileFromPeerDb(k, v) == Ok(f)
    requires s.stream.subscribed && !s.stream.scanning && s.running && s.handled == |s.stream.yielded|
    ensures CanStep(s, peer, Read(TakeEvent))
    ensures var t := Next(s, peer, Read(TakeEvent)); Holding(t, f) && t.world == s.world
  {
    hide FileFromPeerDb;
  }

  lemma HeldIsHandled(s: System, peer: PublicKey, f: RequestedFile, link: Transfer.Link, closed: bool)
    requires Holding(s, f) && Completes(s.world, Job(f, false, link, closed)) && !f.downloaded
    requires s.world.store.requests[f.requestId].peer == peer
    ensures var t := Next(s, peer, Handle(false, link, closed));
            && t.running && t.handled == |t.stream.yielded|
            && t.stream.subscribed && !t.stream.scanning
            && t.stream.queue == [RemovedKey(KeyOf(s.world.store, f))]
            && FileOf(f) in t.world.store.files && t.world.store.files[FileOf(f)].downloaded
  {
    hide Transfer.Fetch;
    var job := Job(f, false, link, closed);
    TurnStore(s.world, job);
    var r := s.world.store.requests[f.requestId];
    PeerPrefix(peer, peer, r.timestamp, f.path);
  }

  lemma RemovalIsPassed(s: System, peer: PublicKey, k: Bytes)
    requires s.stream.queue == [RemovedKey(k)] && s.running && s.handled == |s.stream.yielded|
    requires s.stream.subscribed && !s.stream.scanning
    ensures CanStep(s, peer, Read(TakeEvent))
    ensures var t := Next(s, peer, Read(TakeEvent)); Waiting(t) && t.world == s.world
  {
  }

  /** A waiting worker gets a file that is added; when its download succeeds the file
      is marked and the worker waits for the next. So adding and completing can go on
      in turns for ever. */
  lemma AddedIsServed(s: System, peer: PublicKey, f: RequestedFile, link: Transfer.Link, closed: bool)
    returns (end: System)
    requires Sound(s, peer) && Waiting(s) && Owes(s, peer, SystemStep.AddFile(f))
    requires f.requestId in s.world.store.requests && s.world.store.requests[f.requestId].peer == peer
    requires Transfer.Fetch(s.world.files, f.path, f.size, link).1
    ensures var steps := [SystemStep.AddFile(f), Read(TakeEvent), Handle(false, link, closed), Read(TakeEvent)];
            CanGo(s, peer, steps) && AllOwed(s, peer, steps) && end == AfterAll(s, peer, steps)
    ensures Sound(end, peer) && Waiting(end)
    ensures FileOf(f) in end.world.store.files && end.world.store.files[FileOf(f)].downloaded
  {
    hide Sound, Next, Holding, Transfer.Fetch, FileFromPeerDb, KeyOf;
    var add, take, last := SystemStep.AddFile(f), Read(TakeEvent), Handle(false, link, closed);
    var k, v := KeyOf(s.world.store, f), PeerValue(f.requestId, f.size);
    var s1 := Next(s, peer, add);
    AddedIsQueued(s, peer, f);
    RecordDecodes(s.world.store, f);
    QueuedIsTaken(s1, peer, f, k, v);
    var s2 := Next(s1, peer, take);
    assert CanStep(s2, peer, last) by { HeldIsInHand(s2, f); }
    HeldIsHandled(s2, peer, f, link, closed);
    var s3 := Next(s2, peer, last);
    RemovalIsPassed(s3, peer, KeyOf(s2.world.store, f));
    end := Next(s3, peer, take);
    StepKeeps(s, peer, add);
    StepKeeps(s1, peer, take);
    StepKeeps(s2, peer, last);
    StepKeeps(s3, peer, take);
    ThenRun(s3, peer, take, []);
    ThenRun(s2, peer, last, [take]);
    ThenRun(s1, peer, take, [last, take]);
    ThenRun(s, peer, add, [take, last, take]);
    assert [add] + [take, last, take] == [add, take, last, take];
    assert [take] + [last, take] == [take, last, take] && [last] + [take] == [last, take] && [take] + [] == [take];
  }

  lemma HeldIsInHand(s: System, f: RequestedFile)
    requires Holding(s, f)
    ensures s.running && s.handled < |s.stream.yielded|
  {
  }

  lemma ThenRun(s: System, peer: PublicKey, step: SystemStep, rest: seq<SystemStep>)
    requires CanStep(s, peer, step) && Owes(s, peer, step)
    requires CanGo(Next(s, peer, step), peer, rest) && AllOwed(Next(s, peer, step), peer, rest)
    ensures CanGo(s, peer, [step] + rest) && AllOwed(s, peer, [step] + rest)
    ensures AfterAll(s, peer, [step] + rest) == AfterAll(Next(s, peer, step), peer, rest)
  {
    hide CanStep, Owes, Next;
    assert ([step] + rest)[1..] == rest;
  }
}
