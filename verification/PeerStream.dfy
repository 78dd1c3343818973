/** The worker fed by the request stream: what has to hold of the stream for each
    wanted file to be offered once, and the accounting that follows. */
module PeerStream {
  import opened Bytes
  import opened WishlistCodec
  import opened WishlistStore
  import opened RequestStream
  import opened StreamDeliveries
  import opened PeerWorker
  import Wishlist

  function FileOf(f: RequestedFile): FileId {
    FileId(f.requestId, f.path)
  }

  /** Keys and files correspond: no two requests share a by-peer key, and no file is
      stored under two. */
  ghost predicate KeysNameFiles(held: set<(Bytes, Bytes)>) {
    forall r, q | r in held && q in held && FileFromPeerDb(r.0, r.1).Ok? && FileFromPeerDb(q.0, q.1).Ok? ::
      r.0 == q.0 <==> FileOf(FileFromPeerDb(r.0, r.1).value) == FileOf(FileFromPeerDb(q.0, q.1).value)
  }

  /** The worker's requests are what the stream yields, in order. */
  predicate FedBy(s: Stream, jobs: seq<Job>) {
    |jobs| <= |s.yielded| && forall i | 0 <= i < |jobs| :: jobs[i].file == s.yielded[i]
  }

  lemma SameKeySameFile(s: Stream, peer: PublicKey, held: set<(Bytes, Bytes)>, i: nat, j: nat)
    requires Paired(s, peer, held) && KeysNameFiles(held) && i < |s.taken| && j < |s.taken|
    ensures s.taken[i] == s.taken[j] <==> FileOf(s.yielded[i]) == FileOf(s.yielded[j])
  {
    hide FileFromPeerDb;
    assert ReadFrom(held, s.taken[i], s.yielded[i]) && ReadFrom(held, s.taken[j], s.yielded[j]);
    var r :| r in held && r.0 == s.taken[i] && FileFromPeerDb(r.0, r.1) == Ok(s.yielded[i]);
    var q :| q in held && q.0 == s.taken[j] && FileFromPeerDb(q.0, q.1) == Ok(s.yielded[j]);
  }

  /** The worker is offered no file twice if and only if the stream has delivered under
      no key twice. */
  lemma OfferedOnceIff(tree: map<Bytes, Bytes>, peer: PublicKey, steps: seq<StreamStep>, jobs: seq<Job>)
    requires CanRun(Start(tree), peer, steps) && KeysNameFiles(Held(tree, steps))
    requires var s := After(Start(tree), peer, steps); FedBy(s, jobs) && |jobs| == |s.yielded|
    ensures OfferedOnce(jobs) <==> forall k | peer <= k :: Times(After(Start(tree), peer, steps), k) <= 1
  {
    hide KeysNameFiles, Paired, Times;
    var s, held := After(Start(tree), peer, steps), Held(tree, steps);
    StreamPaired(tree, peer, steps);
    TakenDistinctIff(s, peer, held);
    forall i, j | 0 <= i < j < |jobs|
      ensures s.taken[i] == s.taken[j] <==> FileOf(jobs[i].file) == FileOf(jobs[j].file)
    {
      SameKeySameFile(s, peer, held, i, j);
    }
  }

  /** Careful inserts make the worker's requests distinct, however far it has come. */
  lemma CarefulRunOffersOnce(tree: map<Bytes, Bytes>, peer: PublicKey, steps: seq<StreamStep>, jobs: seq<Job>)
    requires CanRun(Start(tree), peer, steps) && AllCareful(Start(tree), peer, steps)
    requires KeysNameFiles(Held(tree, steps)) && FedBy(After(Start(tree), peer, steps), jobs)
    ensures OfferedOnce(jobs)
  {
    var s := After(Start(tree), peer, steps);
    var all := seq(|s.yielded|, i requires 0 <= i < |s.yielded| => Job(s.yielded[i], true, Transfer.NoStream, true));
    forall k | peer <= k ensures Times(s, k) <= 1 { CarefulRunDeliversOnce(tree, peer, steps, k); }
    OfferedOnceIff(tree, peer, steps, all);
  }

  // ------------------------------------------------------------ the records

  lemma RecordOfSlot(st: Store, slot: Slot)
    requires Agree(st) && slot in st.outstanding
    ensures var w := st.outstanding[slot];
            var f := RequestedFile(slot.path, w.size, w.requestId, false);
            && FileFromPeerDb(Wishlist.SlotKey(slot), Wishlist.SlotRecord(slot, w)) == Ok(f)
            && w.requestId in st.requests && Offered(st, f) && slot == SlotOf(st.requests[w.requestId], slot.path)
  {
    hide ProgressRight;
    var w := st.outstanding[slot];
    FileRoundTrip(RequestedFile(slot.path, w.size, w.requestId, false), slot.peer, slot.timestamp);
    assert Backed(st, slot) && IsOutstanding(st, FileId(w.requestId, slot.path));
  }
}
