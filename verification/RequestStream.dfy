/** The per-peer stream of requested files: a lazy scan of the by-peer tree followed
    by the tree's change events, while other tasks insert and remove. */
module RequestStream {
  import opened Bytes
  import opened Paths
  import opened WishlistCodec
  import opened WishlistStore
  import Wishlist

  datatype Event = Inserted(key: Bytes, value: Bytes) | RemovedKey(key: Bytes)

  /** `cursor` is the last key the scan met. `taken` and `insertedAt` are history
      variables: the key each yielded file was read from, and how many files had been
      yielded when a key was last inserted. */
  datatype Stream = Stream(
    tree: map<Bytes, Bytes>,
    subscribed: bool,
    scanning: bool,
    cursor: Option<Bytes>,
    queue: seq<Event>,
    yielded: seq<RequestedFile>,
    taken: seq<Bytes>,
    insertedAt: map<Bytes, nat>)

  datatype StreamStep = Insert(key: Bytes, value: Bytes) | Remove(key: Bytes) | Subscribe | ScanNext | TakeEvent

  /** The scan iterator exists, the subscription does not, and nothing is read yet. */
  function Start(tree: map<Bytes, Bytes>): Stream {
    Stream(tree, false, true, None, [], [], [], map[])
  }

  predicate Past(cursor: Option<Bytes>, key: Bytes) {
    cursor.None? || (LexLe(cursor.value, key) && cursor.value != key)
  }

  /** What the scan has still to meet. */
  function Ahead(tree: map<Bytes, Bytes>, peer: PublicKey, cursor: Option<Bytes>): set<Bytes> {
    set k | k in tree && peer <= k && Past(cursor, k)
  }

  /** Records that do not decode are skipped. */
  function Yield(yielded: seq<RequestedFile>, key: Bytes, value: Bytes): seq<RequestedFile> {
    var file := FileFromPeerDb(key, value);
    if file.Ok? then yielded + [file.value] else yielded
  }

  function Take(taken: seq<Bytes>, key: Bytes, value: Bytes): seq<Bytes> {
    if FileFromPeerDb(key, value).Ok? then taken + [key] else taken
  }

  /** The stream is polled only after `requests_for_peer` has returned, and reads
      events only after its scan has ended. */
  predicate Enabled(s: Stream, step: StreamStep) {
    match step
    case Insert(_, _) => true
    case Remove(_) => true
    case Subscribe => !s.subscribed
    case ScanNext => s.subscribed && s.scanning
    case TakeEvent => s.subscribed && !s.scanning && s.queue != []
  }

  function Notify(s: Stream, peer: PublicKey, e: Event): seq<Event> {
    if s.subscribed && peer <= e.key then s.queue + [e] else s.queue
  }

  function Apply(s: Stream, peer: PublicKey, step: StreamStep): Stream
    requires Enabled(s, step)
  {
    match step
    case Insert(k, v) =>
      s.(tree := s.tree[k := v], queue := Notify(s, peer, Inserted(k, v)), insertedAt := s.insertedAt[k := |s.yielded|])
    case Remove(k) => s.(tree := s.tree - {k}, queue := Notify(s, peer, RemovedKey(k)))
    case Subscribe => s.(subscribed := true)
    case ScanNext =>
      var ahead := Ahead(s.tree, peer, s.cursor);
      if ahead == {} then s.(scanning := false)
      else
        var k := Least(ahead);
        s.(cursor := Some(k), yielded := Yield(s.yielded, k, s.tree[k]), taken := Take(s.taken, k, s.tree[k]))
    case TakeEvent =>
      var e := s.queue[0];
      s.(queue := s.queue[1..],
         yielded := if e.Inserted? then Yield(s.yielded, e.key, e.value) else s.yielded,
         taken := if e.Inserted? then Take(s.taken, e.key, e.value) else s.taken)
  }

  predicate CanRun(s: Stream, peer: PublicKey, steps: seq<StreamStep>)
    decreases |steps|
  {
    steps == [] || (Enabled(s, steps[0]) && CanRun(Apply(s, peer, steps[0]), peer, steps[1..]))
  }

  function After(s: Stream, peer: PublicKey, steps: seq<StreamStep>): Stream
    requires CanRun(s, peer, steps)
    decreases |steps|
  {
    if steps == [] then s else After(Apply(s, peer, steps[0]), peer, steps[1..])
  }

  // -------------------------------------------------------- nothing is lost

  function InsertedAt(s: Stream, k: Bytes): nat {
    if k in s.insertedAt then s.insertedAt[k] else 0
  }

  predicate YieldedSince(yielded: seq<RequestedFile>, n: nat, f: RequestedFile) {
    exists i :: n <= i < |yielded| && yielded[i] == f
  }

  predicate Queued(queue: seq<Event>, key: Bytes, value: Bytes) {
    Inserted(key, value) in queue
  }

  predicate StillToScan(s: Stream, k: Bytes) {
    s.scanning && Past(s.cursor, k)
  }

  /** An outstanding record that decodes has been yielded since it was last inserted,
      lies ahead of the scan, or waits in the event queue. */
  predicate Safe(s: Stream, peer: PublicKey, k: Bytes)
    requires k in s.tree
  {
    var file := FileFromPeerDb(k, s.tree[k]);
    peer <= k && file.Ok? ==>
      || YieldedSince(s.yielded, InsertedAt(s, k), file.value)
      || StillToScan(s, k)
      || Queued(s.queue, k, s.tree[k])
  }

  predicate NothingLost(s: Stream, peer: PublicKey) {
    && (forall k | k in s.tree :: Safe(s, peer, k))
    && (forall k | k in s.insertedAt :: s.insertedAt[k] <= |s.yielded|)
    && (!s.subscribed ==> s.scanning && s.cursor.None? && s.queue == [])
  }

  lemma StillYielded(yielded: seq<RequestedFile>, k: Bytes, v: Bytes, n: nat, f: RequestedFile)
    ensures YieldedSince(yielded, n, f) ==> YieldedSince(Yield(yielded, k, v), n, f)
    ensures n <= |yielded| && FileFromPeerDb(k, v) == Ok(f) ==> YieldedSince(Yield(yielded, k, v), n, f)
  {
    var after := Yield(yielded, k, v);
    if YieldedSince(yielded, n, f) {
      var i :| n <= i < |yielded| && yielded[i] == f;
      assert after[i] == f;
    }
    if n <= |yielded| && FileFromPeerDb(k, v) == Ok(f) { assert after[|yielded|] == f; }
  }

  lemma ScanSafe(s: Stream, peer: PublicKey, k: Bytes)
    requires NothingLost(s, peer) && Enabled(s, ScanNext) && k in s.tree
    ensures Safe(Apply(s, peer, ScanNext), peer, k)
  {
    assert Safe(s, peer, k);
    var ahead := Ahead(s.tree, peer, s.cursor);
    var file := FileFromPeerDb(k, s.tree[k]);
    if ahead == {} {
      assert k !in ahead;
    } else if file.Ok? {
      var met := Least(ahead);
      StillYielded(s.yielded, met, s.tree[met], InsertedAt(s, k), file.value);
      assert k in ahead ==> LexLe(met, k);
    }
  }

  lemma TakeSafe(s: Stream, peer: PublicKey, k: Bytes)
    requires NothingLost(s, peer) && Enabled(s, TakeEvent) && k in s.tree
    ensures Safe(Apply(s, peer, TakeEvent), peer, k)
  {
    assert Safe(s, peer, k);
    var e, file := s.queue[0], FileFromPeerDb(k, s.tree[k]);
    if e.Inserted? && file.Ok? { StillYielded(s.yielded, e.key, e.value, InsertedAt(s, k), file.value); }
    assert s.queue == [e] + s.queue[1..];
  }

  lemma StepLosesNothing(s: Stream, peer: PublicKey, step: StreamStep)
    requires NothingLost(s, peer) && Enabled(s, step)
    ensures NothingLost(Apply(s, peer, step), peer)
  {
    var s' := Apply(s, peer, step);
    forall k | k in s'.tree ensures Safe(s', peer, k) {
      match step
      case Insert(key, value) =>
      case Remove(key) =>
        assert Safe(s, peer, k);
      case Subscribe => assert Safe(s, peer, k);
      case ScanNext => ScanSafe(s, peer, k);
      case TakeEvent => TakeSafe(s, peer, k);
    }
  }

  /** No request is lost, whatever is inserted and removed meanwhile. */
  lemma {:induction false} RunLosesNothing(s: Stream, peer: PublicKey, steps: seq<StreamStep>)
    requires NothingLost(s, peer) && CanRun(s, peer, steps)
    ensures NothingLost(After(s, peer, steps), peer)
    decreases |steps|
  {
    if steps != [] {
      StepLosesNothing(s, peer, steps[0]);
      RunLosesNothing(Apply(s, peer, steps[0]), peer, steps[1..]);
    }
  }

  /** A stream that has nothing left to read has yielded every outstanding file
      since its last insertion. */
  lemma IdleMeansAllYielded(tree: map<Bytes, Bytes>, peer: PublicKey, steps: seq<StreamStep>, k: Bytes)
    requires CanRun(Start(tree), peer, steps)
    ensures var s := After(Start(tree), peer, steps);
            var file := FileFromPeerDb(k, if k in s.tree then s.tree[k] else []);
            !s.scanning && s.queue == [] && k in s.tree && peer <= k && file.Ok? ==>
              YieldedSince(s.yielded, InsertedAt(s, k), file.value)
  {
    RunLosesNothing(Start(tree), peer, steps);
    var s := After(Start(tree), peer, steps);
    assert k in s.tree ==> Safe(s, peer, k);
  }

  /** In particular it has offered every file the wishlist holds as outstanding for
      the peer. */
  lemma IdleOffersOutstanding(tree: map<Bytes, Bytes>, peer: PublicKey, steps: seq<StreamStep>, m: map<Slot, Wanted>,
                              slot: Slot)
    requires CanRun(Start(tree), peer, steps)
    requires var s := After(Start(tree), peer, steps); !s.scanning && s.queue == [] && Wishlist.PeerTree(s.tree, m)
    requires slot in m && slot.peer == peer
    ensures var s := After(Start(tree), peer, steps);
            YieldedSince(s.yielded, InsertedAt(s, Wishlist.SlotKey(slot)),
                         RequestedFile(slot.path, m[slot].size, m[slot].requestId, false))
  {
    var k := Wishlist.SlotKey(slot);
    PeerPrefix(peer, peer, slot.timestamp, slot.path);
    FileRoundTrip(RequestedFile(slot.path, m[slot].size, m[slot].requestId, false), peer, slot.timestamp);
    IdleMeansAllYielded(tree, peer, steps, k);
  }

  // ---------------------------------------------------------- the reader

  predicate ReaderOnly(steps: seq<StreamStep>) {
    forall i | 0 <= i < |steps| :: steps[i].ScanNext? || steps[i].TakeEvent?
  }

  lemma AheadShrinks(tree: map<Bytes, Bytes>, peer: PublicKey, cursor: Option<Bytes>)
    requires Ahead(tree, peer, cursor) != {}
    ensures Ahead(tree, peer, Some(Least(Ahead(tree, peer, cursor)))) < Ahead(tree, peer, cursor)
  {
    var ahead := Ahead(tree, peer, cursor);
    var k := Least(ahead);
    forall x | x in Ahead(tree, peer, Some(k)) ensures x in ahead {
      if cursor.Some? {
        LexTransitive(cursor.value, k, x);
        if x == cursor.value { LexAntisymmetric(k, x); }
      }
    }
    assert k in ahead && k !in Ahead(tree, peer, Some(k));
  }

  lemma {:induction false} OneMore(s: Stream, peer: PublicKey, steps: seq<StreamStep>, step: StreamStep)
    requires CanRun(s, peer, steps) && Enabled(After(s, peer, steps), step)
    ensures CanRun(s, peer, steps + [step])
    ensures After(s, peer, steps + [step]) == Apply(After(s, peer, steps), peer, step)
    decreases |steps|
  {
    if steps == [] {
      assert steps + [step] == [step] && [step][1..] == [];
    } else {
      assert (steps + [step])[1..] == steps[1..] + [step];
      OneMore(Apply(s, peer, steps[0]), peer, steps[1..], step);
    }
  }

  function Inserts(records: seq<(Bytes, Bytes)>): seq<StreamStep> {
    seq(|records|, i requires 0 <= i < |records| => Insert(records[i].0, records[i].1))
  }

  function Events(records: seq<(Bytes, Bytes)>): seq<Event> {
    seq(|records|, i requires 0 <= i < |records| => Inserted(records[i].0, records[i].1))
  }

  function Takes(n: nat): seq<StreamStep> {
    seq(n, _ => TakeEvent)
  }

  /** The files of the records that decode, in order. */
  function Files(records: seq<(Bytes, Bytes)>): seq<RequestedFile> {
    if records == [] then []
    else
      var file := FileFromPeerDb(records[0].0, records[0].1);
      (if file.Ok? then [file.value] else []) + Files(records[1..])
  }

  lemma {:induction false} InsertsQueue(s: Stream, peer: PublicKey, records: seq<(Bytes, Bytes)>)
    requires s.subscribed && forall r | r in records :: peer <= r.0
    ensures CanRun(s, peer, Inserts(records))
    ensures var t := After(s, peer, Inserts(records));
            && t.queue == s.queue + Events(records) && t.yielded == s.yielded
            && t.subscribed && t.scanning == s.scanning
    decreases |records|
  {
    if records != [] {
      assert records[0] in records && forall r | r in records[1..] :: r in records;
      assert Inserts(records)[1..] == Inserts(records[1..]);
      var next := Apply(s, peer, Inserts(records)[0]);
      InsertsQueue(next, peer, records[1..]);
      assert Events(records) == [Events(records)[0]] + Events(records[1..]);
    }
  }

  lemma {:induction false} TakesYield(s: Stream, peer: PublicKey, records: seq<(Bytes, Bytes)>)
    requires s.subscribed && !s.scanning && s.queue == Events(records)
    ensures CanRun(s, peer, Takes(|records|))
    ensures After(s, peer, Takes(|records|)).yielded == s.yielded + Files(records)
    decreases |records|
  {
    hide FileFromPeerDb;
    if records != [] {
      assert Takes(|records|)[1..] == Takes(|records| - 1);
      assert Events(records)[1..] == Events(records[1..]);
      TakesYield(Apply(s, peer, TakeEvent), peer, records[1..]);
    }
  }

  /** What is inserted for the peer while the stream waits is yielded in the order of
      the inserts. */
  lemma InsertedInOrder(s: Stream, peer: PublicKey, records: seq<(Bytes, Bytes)>)
    requires s.subscribed && !s.scanning && s.queue == [] && forall r | r in records :: peer <= r.0
    ensures CanRun(s, peer, Inserts(records))
    ensures var t := After(s, peer, Inserts(records));
            CanRun(t, peer, Takes(|records|)) && After(t, peer, Takes(|records|)).yielded == s.yielded + Files(records)
  {
    InsertsQueue(s, peer, records);
    assert [] + Events(records) == Events(records);
    TakesYield(After(s, peer, Inserts(records)), peer, records);
  }

  class RequestsForPeer {
    const peer: PublicKey
    var state: Stream

    constructor (tree: map<Bytes, Bytes>, peer: PublicKey)
      ensures this.peer == peer && state == Apply(Start(tree), peer, Subscribe) && NothingLost(state, peer)
    {
      this.peer := peer;
      state := Start(tree).(subscribed := true);
    }

    /** Read on until there is a file to yield; `None` means the stream waits, and
        then there is nothing left to scan and no event. */
    method Next() returns (r: Option<RequestedFile>, ghost steps: seq<StreamStep>)
      requires state.subscribed
      modifies this
      ensures ReaderOnly(steps) && CanRun(old(state), peer, steps) && state == After(old(state), peer, steps)
      ensures r.Some? ==> state.yielded == old(state.yielded) + [r.value]
      ensures r.None? ==> state.yielded == old(state.yielded) && !state.scanning && state.queue == []
    {
      steps := [];
      while state.scanning || state.queue != []
        invariant ReaderOnly(steps) && CanRun(old(state), peer, steps) && state == After(old(state), peer, steps)
        invariant state.subscribed && state.yielded == old(state.yielded)
        decreases state.scanning, Ahead(state.tree, peer, state.cursor), |state.queue|
      {
        ghost var step := if state.scanning then ScanNext else TakeEvent;
        OneMore(old(state), peer, steps, step);
        steps := steps + [step];
        if state.scanning {
          var ahead := Ahead(state.tree, peer, state.cursor);
          if ahead == {} {
            state := state.(scanning := false);
          } else {
            AheadShrinks(state.tree, peer, state.cursor);
            var key := Least(ahead);
            var file := FileFromPeerDb(key, state.tree[key]);
            state := state.(
              cursor := Some(key),
              yielded := Yield(state.yielded, key, state.tree[key]),
              taken := Take(state.taken, key, state.tree[key]));
            if file.Ok? { return Some(file.value), steps; }
          }
        } else {
          var event := state.queue[0];
          state := state.(queue := state.queue[1..]);
          if event.Inserted? {
            var file := FileFromPeerDb(event.key, event.value);
            if file.Ok? {
              state := state.(yielded := state.yielded + [file.value], taken := state.taken + [event.key]);
              return Some(file.value), steps;
            }
          }
        }
      }
      return None, steps;
    }
  }

  // --------------------------------------------------- nothing is made up

  /** Every record the peer's tree has held: at the start or by insertion. */
  function Held(tree: map<Bytes, Bytes>, steps: seq<StreamStep>): set<(Bytes, Bytes)> {
    (set k | k in tree :: (k, tree[k]))
    + (set i | 0 <= i < |steps| && steps[i].Insert? :: (steps[i].key, steps[i].value))
  }

  predicate FromHeld(held: set<(Bytes, Bytes)>, peer: PublicKey, f: RequestedFile) {
    exists r :: r in held && peer <= r.0 && FileFromPeerDb(r.0, r.1) == Ok(f)
  }

  predicate Sourced(s: Stream, peer: PublicKey, held: set<(Bytes, Bytes)>) {
    && (forall k | k in s.tree :: (k, s.tree[k]) in held)
    && (forall e | e in s.queue && e.Inserted? :: (e.key, e.value) in held && peer <= e.key)
    && (forall f | f in s.yielded :: FromHeld(held, peer, f))
  }

  lemma StepSourced(s: Stream, peer: PublicKey, held: set<(Bytes, Bytes)>, step: StreamStep)
    requires Sourced(s, peer, held) && Enabled(s, step)
    requires step.Insert? ==> (step.key, step.value) in held
    ensures Sourced(Apply(s, peer, step), peer, held)
  {
    match step
    case Insert(_, _) =>
    case Remove(_) =>
    case Subscribe =>
    case ScanNext =>
      var ahead := Ahead(s.tree, peer, s.cursor);
      if ahead != {} {
        var k := Least(ahead);
      }
    case TakeEvent =>
      var e := s.queue[0];
      assert e in s.queue;
  }

  lemma {:induction false} RunSourced(s: Stream, peer: PublicKey, held: set<(Bytes, Bytes)>, steps: seq<StreamStep>)
    requires Sourced(s, peer, held) && CanRun(s, peer, steps)
    requires forall i | 0 <= i < |steps| && steps[i].Insert? :: (steps[i].key, steps[i].value) in held
    ensures Sourced(After(s, peer, steps), peer, held)
    decreases |steps|
  {
    if steps != [] {
      StepSourced(s, peer, held, steps[0]);
      forall i | 0 <= i < |steps[1..]| && steps[1..][i].Insert?
        ensures (steps[1..][i].key, steps[1..][i].value) in held
      {
        assert steps[1..][i] == steps[i + 1];
      }
      RunSourced(Apply(s, peer, steps[0]), peer, held, steps[1..]);
    }
  }

  /** Every yielded file is a record of this peer that was in the tree. */
  lemma OnlyStoredFilesYielded(tree: map<Bytes, Bytes>, peer: PublicKey, steps: seq<StreamStep>, f: RequestedFile)
    requires CanRun(Start(tree), peer, steps) && f in After(Start(tree), peer, steps).yielded
    ensures FromHeld(Held(tree, steps), peer, f)
  {
    var held := Held(tree, steps);
    forall i | 0 <= i < |steps| && steps[i].Insert? ensures (steps[i].key, steps[i].value) in held {
    }
    RunSourced(Start(tree), peer, held, steps);
  }

  // ------------------------------------------------------ scan order, repeats

  function YieldAll(tree: map<Bytes, Bytes>, keys: seq<Bytes>): seq<RequestedFile>
    requires forall k | k in keys :: k in tree
  {
    if keys == [] then []
    else
      var n := |keys| - 1;
      assert keys[n] in keys;
      Yield(YieldAll(tree, keys[..n]), keys[n], tree[keys[n]])
  }

  function TakeAll(tree: map<Bytes, Bytes>, keys: seq<Bytes>): seq<Bytes>
    requires forall k | k in keys :: k in tree
  {
    if keys == [] then []
    else
      var n := |keys| - 1;
      assert keys[n] in keys;
      Take(TakeAll(tree, keys[..n]), keys[n], tree[keys[n]])
  }

  /** The state after the scan has met the first `n` keys undisturbed. */
  function Scanned(tree: map<Bytes, Bytes>, peer: PublicKey, n: nat): Stream
    requires n <= |ScanPrefix(tree, peer)|
  {
    var keys := ScanPrefix(tree, peer);
    var cursor := if n == 0 then None else Some(keys[n - 1]);
    Stream(tree, true, true, cursor, [], YieldAll(tree, keys[..n]), TakeAll(tree, keys[..n]), map[])
  }

  lemma AheadIsRest(tree: map<Bytes, Bytes>, peer: PublicKey, n: nat)
    requires n <= |ScanPrefix(tree, peer)|
    ensures var keys := ScanPrefix(tree, peer);
            forall k :: k in Ahead(tree, peer, Scanned(tree, peer, n).cursor) <==> k in keys[n..]
  {
    var keys := ScanPrefix(tree, peer);
    var cursor := Scanned(tree, peer, n).cursor;
    forall k ensures k in Ahead(tree, peer, cursor) <==> k in keys[n..] {
      if k in keys {
        var i :| 0 <= i < |keys| && keys[i] == k;
        if i >= n { assert keys[n..][i - n] == k; }
        if 0 < n && i < n - 1 && Past(cursor, k) { LexAntisymmetric(k, keys[n - 1]); }
      }
    }
  }

  lemma ScanMeetsNext(tree: map<Bytes, Bytes>, peer: PublicKey, n: nat)
    requires n < |ScanPrefix(tree, peer)|
    ensures Apply(Scanned(tree, peer, n), peer, ScanNext) == Scanned(tree, peer, n + 1)
  {
    var keys := ScanPrefix(tree, peer);
    var ahead := Ahead(tree, peer, Scanned(tree, peer, n).cursor);
    AheadIsRest(tree, peer, n);
    assert keys[n..][0] == keys[n] && keys[n] in ahead;
    var k := Least(ahead);
    assert IsLeast(keys[n], ahead) by {
      forall x | x in ahead ensures LexLe(keys[n], x) {
        var j :| 0 <= j < |keys[n..]| && keys[n..][j] == x;
        assert keys[n + j] == x;
        LexTotal(x, x);
      }
    }
    LexAntisymmetric(k, keys[n]);
    assert keys[..n + 1][..n] == keys[..n];
  }

  function Scans(n: nat): seq<StreamStep> {
    seq(n, _ => ScanNext)
  }

  lemma ScanEnds(tree: map<Bytes, Bytes>, peer: PublicKey)
    ensures var s := Scanned(tree, peer, |ScanPrefix(tree, peer)|);
            Enabled(s, ScanNext) && Apply(s, peer, ScanNext) == s.(scanning := false)
  {
    AheadIsRest(tree, peer, |ScanPrefix(tree, peer)|);
    assert Ahead(tree, peer, Scanned(tree, peer, |ScanPrefix(tree, peer)|).cursor) == {};
  }

  lemma NoSteps(s: Stream, peer: PublicKey)
    ensures CanRun(s, peer, []) && After(s, peer, []) == s
  {
  }

  lemma ScannedScans(tree: map<Bytes, Bytes>, peer: PublicKey, n: nat)
    requires n <= |ScanPrefix(tree, peer)|
    ensures Enabled(Scanned(tree, peer, n), ScanNext)
  {
  }

  lemma {:induction false} UndisturbedFrom(tree: map<Bytes, Bytes>, peer: PublicKey, n: nat)
    requires n <= |ScanPrefix(tree, peer)|
    ensures var keys := ScanPrefix(tree, peer);
            var steps := Scans(|keys| - n + 1);
            CanRun(Scanned(tree, peer, n), peer, steps)
            && After(Scanned(tree, peer, n), peer, steps) == Scanned(tree, peer, |keys|).(scanning := false)
    decreases |ScanPrefix(tree, peer)| - n
  {
    var keys := ScanPrefix(tree, peer);
    hide Scanned, Apply, CanRun, After, Enabled, Ahead;
    var s, rest := Scanned(tree, peer, n), Scans(|keys| - n);
    assert Scans(|keys| - n + 1) == [ScanNext] + rest;
    if n == |keys| {
      ScanEnds(tree, peer);
      assert rest == [];
      NoSteps(s.(scanning := false), peer);
    } else {
      ScanMeetsNext(tree, peer, n);
      UndisturbedFrom(tree, peer, n + 1);
    }
    ScannedScans(tree, peer, n);
    FirstThen(s, peer, ScanNext, rest);
  }

  /** With no writer at work the stream first yields exactly the outstanding files,
      in key order: oldest request first. */
  lemma UndisturbedScan(tree: map<Bytes, Bytes>, peer: PublicKey)
    ensures var keys := ScanPrefix(tree, peer);
            var steps := [Subscribe] + Scans(|keys| + 1);
            CanRun(Start(tree), peer, steps)
            && After(Start(tree), peer, steps).yielded == YieldAll(tree, keys)
            && !After(Start(tree), peer, steps).scanning
  {
    var keys := ScanPrefix(tree, peer);
    var steps := [Subscribe] + Scans(|keys| + 1);
    assert steps[1..] == Scans(|keys| + 1) && keys[..0] == [] && keys[..|keys|] == keys;
    assert Apply(Start(tree), peer, Subscribe) == Scanned(tree, peer, 0);
    UndisturbedFrom(tree, peer, 0);
  }

  lemma {:induction false} AllDecode(tree: map<Bytes, Bytes>, keys: seq<Bytes>)
    requires forall k | k in keys :: k in tree && FileFromPeerDb(k, tree[k]).Ok?
    ensures |YieldAll(tree, keys)| == |keys|
    ensures forall i | 0 <= i < |keys| ::
              keys[i] in tree && FileFromPeerDb(keys[i], tree[keys[i]]) == Ok(YieldAll(tree, keys)[i])
  {
    if keys != [] {
      var n := |keys| - 1;
      assert keys[n] in keys;
      AllDecode(tree, keys[..n]);
    }
  }

  lemma ScannedSlot(tree: map<Bytes, Bytes>, peer: PublicKey, m: map<Slot, Wanted>, key: Bytes) returns (slot: Slot)
    requires Wishlist.PeerTree(tree, m) && key in tree && peer <= key
    ensures slot in m && slot.peer == peer && Wishlist.SlotKey(slot) == key
    ensures FileFromPeerDb(key, tree[key]) == Ok(RequestedFile(slot.path, m[slot].size, m[slot].requestId, false))
  {
    slot :| slot in m && Wishlist.SlotKey(slot) == key;
    PeerPrefix(slot.peer, peer, slot.timestamp, slot.path);
    FileRoundTrip(RequestedFile(slot.path, m[slot].size, m[slot].requestId, false), slot.peer, slot.timestamp);
  }

  /** Of the files the scan yields, an earlier one was requested earlier, or in the
      same second and sorts first by path. */
  lemma OldestYieldedFirst(tree: map<Bytes, Bytes>, peer: PublicKey, m: map<Slot, Wanted>, i: nat, j: nat)
    returns (a: Slot, b: Slot)
    requires Wishlist.PeerTree(tree, m) && i < j < |ScanPrefix(tree, peer)|
    ensures var files := YieldAll(tree, ScanPrefix(tree, peer));
            && |files| == |ScanPrefix(tree, peer)|
            && a in m && a.peer == peer && files[i] == RequestedFile(a.path, m[a].size, m[a].requestId, false)
            && b in m && b.peer == peer && files[j] == RequestedFile(b.path, m[b].size, m[b].requestId, false)
    ensures a.timestamp < b.timestamp || (a.timestamp == b.timestamp && LexLe(a.path, b.path) && a.path != b.path)
  {
    hide Wishlist.PeerTree;
    var keys := ScanPrefix(tree, peer);
    forall k | k in keys ensures k in tree && FileFromPeerDb(k, tree[k]).Ok? {
      var _ := ScannedSlot(tree, peer, m, k);
    }
    AllDecode(tree, keys);
    assert keys[i] in keys && keys[j] in keys;
    a := ScannedSlot(tree, peer, m, keys[i]);
    b := ScannedSlot(tree, peer, m, keys[j]);
    OldestFirst(peer, a.timestamp, b.timestamp, a.path, b.path);
  }

  lemma FirstThen(s: Stream, peer: PublicKey, step: StreamStep, rest: seq<StreamStep>)
    requires Enabled(s, step) && CanRun(Apply(s, peer, step), peer, rest)
    ensures CanRun(s, peer, [step] + rest)
    ensures After(s, peer, [step] + rest) == After(Apply(s, peer, step), peer, rest)
  {
    assert ([step] + rest)[1..] == rest;
  }
}
