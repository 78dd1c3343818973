/** How often the request stream delivers a record: for any state of any run exactly
    as often as it has done so and still owes to. */
module StreamDeliveries {
  import opened Bytes
  import opened Paths
  import opened WishlistCodec
  import opened RequestStream

  predicate Decodes(key: Bytes, value: Bytes) {
    FileFromPeerDb(key, value).Ok?
  }

  /** The scan has yet to meet a record that decodes under this key. */
  predicate ScanOwes(s: Stream, k: Bytes) {
    s.scanning && Past(s.cursor, k) && k in s.tree && Decodes(k, s.tree[k])
  }

  /** Queued insertions of a record that decodes under this key. */
  function QueueOwes(queue: seq<Event>, k: Bytes): nat {
    if queue == [] then 0
    else
      var e := queue[0];
      (if e.Inserted? && e.key == k && Decodes(k, e.value) then 1 else 0) + QueueOwes(queue[1..], k)
  }

  /** Deliveries under a key that are still to come if nobody interferes. */
  function Owed(s: Stream, k: Bytes): nat {
    (if ScanOwes(s, k) then 1 else 0) + QueueOwes(s.queue, k)
  }

  /** Deliveries under a key so far. */
  function Times(s: Stream, k: Bytes): nat {
    multiset(s.taken)[k]
  }

  predicate NoInsert(steps: seq<StreamStep>, k: Bytes) {
    forall i | 0 <= i < |steps| && steps[i].Insert? :: steps[i].key != k
  }

  predicate NoRemove(steps: seq<StreamStep>, k: Bytes) {
    forall i | 0 <= i < |steps| && steps[i].Remove? :: steps[i].key != k
  }

  // ---------------------------------------------------------------- one step

  lemma {:induction false} QueueOwesMore(queue: seq<Event>, e: Event, k: Bytes)
    ensures QueueOwes(queue + [e], k)
         == QueueOwes(queue, k) + if e.Inserted? && e.key == k && Decodes(k, e.value) then 1 else 0
  {
    if queue == [] {
      assert queue + [e] == [e] && [e][1..] == [];
    } else {
      assert (queue + [e])[1..] == queue[1..] + [e];
      QueueOwesMore(queue[1..], e, k);
    }
  }

  lemma {:induction false} QueueOwesIff(queue: seq<Event>, k: Bytes)
    ensures QueueOwes(queue, k) > 0 <==> exists e :: e in queue && e.Inserted? && e.key == k && Decodes(k, e.value)
  {
    if queue != [] { QueueOwesIff(queue[1..], k); }
  }

  /** Scanning one record delivers it and takes it off what the scan owes; no other
      key is affected. */
  lemma ScanStep(s: Stream, peer: PublicKey, k: Bytes)
    requires Enabled(s, ScanNext) && peer <= k
    ensures var t := Apply(s, peer, ScanNext);
            Times(t, k) + Owed(t, k) == Times(s, k) + Owed(s, k)
  {
    hide FileFromPeerDb;
    var ahead := Ahead(s.tree, peer, s.cursor);
    if ahead == {} {
      assert k !in ahead;
    } else {
      var met := Least(ahead);
      AheadShrinks(s.tree, peer, s.cursor);
      assert k in Ahead(s.tree, peer, Some(met)) <==> k in ahead && k != met;
      assert k in ahead <==> k in s.tree && Past(s.cursor, k);
      assert k in Ahead(s.tree, peer, Some(met)) <==> k in s.tree && Past(Some(met), k);
    }
  }

  lemma EventStep(s: Stream, peer: PublicKey, k: Bytes)
    requires Enabled(s, TakeEvent)
    ensures var t := Apply(s, peer, TakeEvent);
            Times(t, k) + Owed(t, k) == Times(s, k) + Owed(s, k)
  {
    hide FileFromPeerDb;
  }

  /** Writers other than an insert under the key deliver nothing and add nothing to
      what is owed under it. */
  lemma WriterStep(s: Stream, peer: PublicKey, step: StreamStep, k: Bytes)
    requires step.Insert? || step.Remove?
    requires step.Insert? ==> step.key != k
    ensures var t := Apply(s, peer, step);
            && Times(t, k) == Times(s, k) && Owed(t, k) <= Owed(s, k)
            && (step.key != k ==> Owed(t, k) == Owed(s, k))
  {
    hide FileFromPeerDb;
    QueueOwesMore(s.queue, if step.Insert? then Inserted(step.key, step.value) else RemovedKey(step.key), k);
  }

  lemma StepBalance(s: Stream, peer: PublicKey, step: StreamStep, k: Bytes)
    requires Enabled(s, step) && peer <= k && (step.Insert? ==> step.key != k)
    ensures var t := Apply(s, peer, step);
            && Times(t, k) + Owed(t, k) <= Times(s, k) + Owed(s, k)
            && (!(step.Remove? && step.key == k) ==> Times(t, k) + Owed(t, k) == Times(s, k) + Owed(s, k))
  {
    hide Times, Owed;
    match step
    case Insert(_, _) => WriterStep(s, peer, step, k);
    case Remove(_) => WriterStep(s, peer, step, k);
    case Subscribe => SubscribeStep(s, peer, k);
    case ScanNext => ScanStep(s, peer, k);
    case TakeEvent => EventStep(s, peer, k);
  }

  lemma SubscribeStep(s: Stream, peer: PublicKey, k: Bytes)
    requires Enabled(s, Subscribe)
    ensures var t := Apply(s, peer, Subscribe); Times(t, k) == Times(s, k) && Owed(t, k) == Owed(s, k)
  {
  }

  // -------------------------------------------------------------- whole runs

  /** Without another insert under the key, deliveries so far and deliveries owed
      never grow together, and stay the same unless the key is removed. */
  lemma {:induction false} RunBalance(s: Stream, peer: PublicKey, steps: seq<StreamStep>, k: Bytes)
    requires CanRun(s, peer, steps) && peer <= k && NoInsert(steps, k)
    ensures var t := After(s, peer, steps);
            && Times(t, k) + Owed(t, k) <= Times(s, k) + Owed(s, k)
            && (NoRemove(steps, k) ==> Times(t, k) + Owed(t, k) == Times(s, k) + Owed(s, k))
    decreases |steps|
  {
    hide Times, Owed, Apply, Enabled;
    if steps != [] {
      StepBalance(s, peer, steps[0], k);
      RunBalance(Apply(s, peer, steps[0]), peer, steps[1..], k);
    }
  }

  predicate Idle(s: Stream) {
    s.subscribed && !s.scanning && s.queue == []
  }

  lemma IdleOwesNothing(s: Stream, k: Bytes)
    requires Idle(s)
    ensures Owed(s, k) == 0
  {
  }

  /** The reader alone reads everything there is. */
  lemma {:induction false} ReadAll(s: Stream, peer: PublicKey) returns (more: seq<StreamStep>)
    requires s.subscribed
    ensures CanRun(s, peer, more) && ReaderOnly(more) && Idle(After(s, peer, more))
    decreases s.scanning, Ahead(s.tree, peer, s.cursor), |s.queue|
  {
    if !s.scanning && s.queue == [] { return []; }
    var step := if s.scanning then ScanNext else TakeEvent;
    if s.scanning && Ahead(s.tree, peer, s.cursor) != {} { AheadShrinks(s.tree, peer, s.cursor); }
    var rest := ReadAll(Apply(s, peer, step), peer);
    FirstThen(s, peer, step, rest);
    more := [step] + rest;
  }

  lemma Finish(s: Stream, peer: PublicKey) returns (more: seq<StreamStep>)
    ensures CanRun(s, peer, more) && Idle(After(s, peer, more))
    ensures forall i | 0 <= i < |more| :: !more[i].Insert? && !more[i].Remove?
  {
    if s.subscribed {
      more := ReadAll(s, peer);
    } else {
      var rest := ReadAll(Apply(s, peer, Subscribe), peer);
      FirstThen(s, peer, Subscribe, rest);
      more := [Subscribe] + rest;
    }
  }

  /** Some continuation without an insert under the key has delivered under it at
      least `n` times. */
  ghost predicate CanReach(s: Stream, peer: PublicKey, k: Bytes, n: nat) {
    exists more: seq<StreamStep> :: CanRun(s, peer, more) && NoInsert(more, k) && Times(After(s, peer, more), k) >= n
  }

  /** From any state the deliveries under a key can reach exactly those made plus
      those owed, and no more. */
  lemma ReachIff(s: Stream, peer: PublicKey, k: Bytes, n: nat)
    requires peer <= k
    ensures CanReach(s, peer, k, n) <==> n <= Times(s, k) + Owed(s, k)
  {
    hide Times, Owed;
    if more: seq<StreamStep> :| CanRun(s, peer, more) && NoInsert(more, k) && Times(After(s, peer, more), k) >= n {
      RunBalance(s, peer, more, k);
    }
    var more := Finish(s, peer);
    RunBalance(s, peer, more, k);
    IdleOwesNothing(After(s, peer, more), k);
    assert CanRun(s, peer, more) && NoInsert(more, k);
  }

  /** What a writer could check before inserting under a key: the scan is under way
      and still to come to it, or an earlier insert under it has not been read. */
  predicate SecondComing(s: Stream, k: Bytes) {
    || (s.subscribed && s.scanning && Past(s.cursor, k))
    || exists e :: e in s.queue && e.Inserted? && e.key == k && Decodes(k, e.value)
  }

  lemma OwedAfterInsert(s: Stream, peer: PublicKey, k: Bytes, v: Bytes)
    requires NothingLost(s, peer) && peer <= k && Decodes(k, v)
    ensures var t := Apply(s, peer, Insert(k, v));
            Times(t, k) == Times(s, k) && Owed(t, k) >= 0 && (Owed(t, k) >= 2 <==> SecondComing(s, k))
    ensures StillToScan(s, k) || s.subscribed ==> Owed(Apply(s, peer, Insert(k, v)), k) >= 1
  {
    hide FileFromPeerDb;
    QueueOwesMore(s.queue, Inserted(k, v), k);
    QueueOwesIff(s.queue, k);
  }

  /** Main result: take any state of any run and insert a record of this peer that
      decodes. Some continuation without another insert under its key delivers under
      it twice if and only if, before the insert, the scan was under way and still to
      come to the key, or an earlier insert under it had not been read. */
  lemma DeliveredTwiceIff(tree: map<Bytes, Bytes>, peer: PublicKey, steps: seq<StreamStep>, k: Bytes, v: Bytes)
    requires CanRun(Start(tree), peer, steps) && peer <= k && Decodes(k, v)
    ensures var s := After(Start(tree), peer, steps);
            CanReach(Apply(s, peer, Insert(k, v)), peer, k, Times(s, k) + 2) <==> SecondComing(s, k)
  {
    hide Times, Owed, Apply, Decodes;
    var s := After(Start(tree), peer, steps);
    RunLosesNothing(Start(tree), peer, steps);
    OwedAfterInsert(s, peer, k, v);
    ReachIff(Apply(s, peer, Insert(k, v)), peer, k, Times(s, k) + 2);
  }

  /** And if the key is left alone until the stream has nothing left to read, it has
      then been delivered exactly once if and only if neither was the case. */
  lemma DeliveredOnceIff(tree: map<Bytes, Bytes>, peer: PublicKey, steps: seq<StreamStep>, k: Bytes, v: Bytes,
                         more: seq<StreamStep>)
    requires CanRun(Start(tree), peer, steps) && peer <= k && Decodes(k, v)
    requires var t := Apply(After(Start(tree), peer, steps), peer, Insert(k, v));
             CanRun(t, peer, more) && NoInsert(more, k) && NoRemove(more, k) && Idle(After(t, peer, more))
    ensures var s := After(Start(tree), peer, steps);
            var end := After(Apply(s, peer, Insert(k, v)), peer, more);
            Times(end, k) > Times(s, k) && (Times(end, k) == Times(s, k) + 1 <==> !SecondComing(s, k))
  {
    hide Times, Owed, Decodes, SecondComing;
    var s := After(Start(tree), peer, steps);
    var t := Apply(s, peer, Insert(k, v));
    RunLosesNothing(Start(tree), peer, steps);
    OwedAfterInsert(s, peer, k, v);
    RunBalance(t, peer, more, k);
    IdleOwesNothing(After(t, peer, more), k);
  }

  /** An instance: a file inserted ahead of the scan is met by it and is an event as
      well. */
  lemma InsertedAheadComesTwice(peer: PublicKey, k: Bytes, v: Bytes)
    requires peer <= k && Decodes(k, v)
    ensures var s := Apply(Start(map[]), peer, Subscribe); CanReach(Apply(s, peer, Insert(k, v)), peer, k, 2)
  {
    var s := Apply(Start(map[]), peer, Subscribe);
    FirstThen(Start(map[]), peer, Subscribe, []);
    assert [Subscribe] + [] == [Subscribe];
    DeliveredTwiceIff(map[], peer, [Subscribe], k, v);
  }

  // ---------------------------------------------------- every file only once

  /** No key of the peer has been or can be delivered more than once. */
  ghost predicate AtMostOnce(s: Stream, peer: PublicKey) {
    forall k | peer <= k :: Times(s, k) + Owed(s, k) <= 1
  }

  /** An insert that may follow: nothing has been delivered or is owed under its key,
      and the scan, if subscribed to, has passed it. Before the subscription any may. */
  predicate Careful(s: Stream, peer: PublicKey, step: StreamStep) {
    step.Insert? && peer <= step.key && Decodes(step.key, step.value) && s.subscribed ==>
      Times(s, step.key) == 0 && !SecondComing(s, step.key)
  }

  predicate AllCareful(s: Stream, peer: PublicKey, steps: seq<StreamStep>)
    requires CanRun(s, peer, steps)
    decreases |steps|
  {
    steps == [] || (Careful(s, peer, steps[0]) && AllCareful(Apply(s, peer, steps[0]), peer, steps[1..]))
  }

  /** What an insert under a key makes of it. */
  lemma InsertBalance(s: Stream, peer: PublicKey, k: Bytes, v: Bytes)
    requires peer <= k
    ensures var t := Apply(s, peer, Insert(k, v));
            && Times(t, k) == Times(s, k)
            && Owed(t, k) == (if StillToScan(s, k) && Decodes(k, v) then 1 else 0) + QueueOwes(s.queue, k)
                           + (if s.subscribed && Decodes(k, v) then 1 else 0)
  {
    hide FileFromPeerDb;
    QueueOwesMore(s.queue, Inserted(k, v), k);
  }

  /** Before the subscription nothing has been read. */
  predicate Fresh(s: Stream) {
    !s.subscribed ==> s.scanning && s.cursor.None? && s.queue == [] && s.taken == []
  }

  /** A step leaves every key at one delivery at most if and only if it is careful. */
  lemma StepAtMostOnceIff(s: Stream, peer: PublicKey, step: StreamStep)
    requires AtMostOnce(s, peer) && Fresh(s) && Enabled(s, step)
    ensures AtMostOnce(Apply(s, peer, step), peer) <==> Careful(s, peer, step)
    ensures Fresh(Apply(s, peer, step))
  {
    var t := Apply(s, peer, step);
    forall k | peer <= k && !(step.Insert? && step.key == k) ensures Times(t, k) + Owed(t, k) <= 1 {
      StepBalance(s, peer, step, k);
    }
    if step.Insert? && peer <= step.key {
      var k := step.key;
      InsertBalance(s, peer, k, step.value);
      QueueOwesIff(s.queue, k);
      assert Times(s, k) + Owed(s, k) <= 1;
      assert Careful(s, peer, step) <==> Times(t, k) + Owed(t, k) <= 1;
    }
  }

  lemma StartAtMostOnce(tree: map<Bytes, Bytes>, peer: PublicKey)
    ensures AtMostOnce(Start(tree), peer) && Fresh(Start(tree))
  {
  }

  /** At no point of the run can any key of the peer be delivered twice. */
  ghost predicate AlwaysOnce(s: Stream, peer: PublicKey, steps: seq<StreamStep>)
    requires CanRun(s, peer, steps)
    decreases |steps|
  {
    && (forall k | peer <= k :: !CanReach(s, peer, k, 2))
    && (steps == [] || AlwaysOnce(Apply(s, peer, steps[0]), peer, steps[1..]))
  }

  lemma OnceMeans(s: Stream, peer: PublicKey)
    ensures AtMostOnce(s, peer) <==> forall k | peer <= k :: !CanReach(s, peer, k, 2)
  {
    hide Times, Owed, CanReach;
    forall k | peer <= k ensures CanReach(s, peer, k, 2) <==> 2 <= Times(s, k) + Owed(s, k) { ReachIff(s, peer, k, 2); }
  }

  lemma {:induction false} AlwaysOnceIff(s: Stream, peer: PublicKey, steps: seq<StreamStep>)
    requires AtMostOnce(s, peer) && Fresh(s) && CanRun(s, peer, steps)
    ensures AlwaysOnce(s, peer, steps) <==> AllCareful(s, peer, steps)
    ensures AllCareful(s, peer, steps) ==> AtMostOnce(After(s, peer, steps), peer)
    decreases |steps|
  {
    hide AtMostOnce, Careful, Apply, Enabled, Fresh, CanReach;
    OnceMeans(s, peer);
    if steps != [] {
      var t := Apply(s, peer, steps[0]);
      StepAtMostOnceIff(s, peer, steps[0]);
      OnceMeans(t, peer);
      if Careful(s, peer, steps[0]) { AlwaysOnceIff(t, peer, steps[1..]); }
    }
  }

  /** In a whole run, no key can at any point be delivered twice if and only if every
      insert is careful. */
  lemma RunDeliversOnceIff(tree: map<Bytes, Bytes>, peer: PublicKey, steps: seq<StreamStep>)
    requires CanRun(Start(tree), peer, steps)
    ensures AlwaysOnce(Start(tree), peer, steps) <==> AllCareful(Start(tree), peer, steps)
  {
    StartAtMostOnce(tree, peer);
    AlwaysOnceIff(Start(tree), peer, steps);
  }

  /** A run in which every insert is careful never delivers under a key twice; in
      particular one without inserts does not. */
  lemma CarefulRunDeliversOnce(tree: map<Bytes, Bytes>, peer: PublicKey, steps: seq<StreamStep>, k: Bytes)
    requires CanRun(Start(tree), peer, steps) && AllCareful(Start(tree), peer, steps) && peer <= k
    ensures Times(After(Start(tree), peer, steps), k) <= 1
  {
    StartAtMostOnce(tree, peer);
    AlwaysOnceIff(Start(tree), peer, steps);
  }

  lemma {:induction false} NoInsertsAreCareful(s: Stream, peer: PublicKey, steps: seq<StreamStep>)
    requires CanRun(s, peer, steps) && forall i | 0 <= i < |steps| :: !steps[i].Insert?
    ensures AllCareful(s, peer, steps)
    decreases |steps|
  {
    if steps != [] { NoInsertsAreCareful(Apply(s, peer, steps[0]), peer, steps[1..]); }
  }

  // ------------------------------------------------- which file for which key

  predicate ReadFrom(held: set<(Bytes, Bytes)>, key: Bytes, f: RequestedFile) {
    exists r :: r in held && r.0 == key && FileFromPeerDb(r.0, r.1) == Ok(f)
  }

  /** Each yielded file was read under the key taken with it. */
  predicate Paired(s: Stream, peer: PublicKey, held: set<(Bytes, Bytes)>) {
    && |s.taken| == |s.yielded|
    && forall i | 0 <= i < |s.taken| :: peer <= s.taken[i] && ReadFrom(held, s.taken[i], s.yielded[i])
  }

  lemma StepPaired(s: Stream, peer: PublicKey, held: set<(Bytes, Bytes)>, step: StreamStep)
    requires Sourced(s, peer, held) && Paired(s, peer, held) && Enabled(s, step)
    ensures Paired(Apply(s, peer, step), peer, held)
  {
    hide FileFromPeerDb;
    var t := Apply(s, peer, step);
    if step.ScanNext? {
      var ahead := Ahead(s.tree, peer, s.cursor);
    } else if step.TakeEvent? {
      var e := s.queue[0];
      assert e in s.queue;
    }
  }

  lemma {:induction false} RunPaired(s: Stream, peer: PublicKey, held: set<(Bytes, Bytes)>, steps: seq<StreamStep>)
    requires Sourced(s, peer, held) && Paired(s, peer, held) && CanRun(s, peer, steps)
    requires forall i | 0 <= i < |steps| && steps[i].Insert? :: (steps[i].key, steps[i].value) in held
    ensures Paired(After(s, peer, steps), peer, held)
    decreases |steps|
  {
    hide Paired, Sourced, Apply, Enabled;
    if steps != [] {
      StepSourced(s, peer, held, steps[0]);
      StepPaired(s, peer, held, steps[0]);
      forall i | 0 <= i < |steps[1..]| && steps[1..][i].Insert?
        ensures (steps[1..][i].key, steps[1..][i].value) in held
      {
        assert steps[1..][i] == steps[i + 1];
      }
      RunPaired(Apply(s, peer, steps[0]), peer, held, steps[1..]);
    }
  }

  lemma StreamPaired(tree: map<Bytes, Bytes>, peer: PublicKey, steps: seq<StreamStep>)
    requires CanRun(Start(tree), peer, steps)
    ensures Paired(After(Start(tree), peer, steps), peer, Held(tree, steps))
  {
    var held := Held(tree, steps);
    forall i | 0 <= i < |steps| && steps[i].Insert? ensures (steps[i].key, steps[i].value) in held {
    }
    RunPaired(Start(tree), peer, held, steps);
  }

  lemma TwiceInMultiset<T>(s: seq<T>, i: nat, j: nat)
    requires i < j < |s| && s[i] == s[j]
    ensures multiset(s)[s[i]] >= 2
  {
    assert s == s[..j] + s[j..];
    assert s[..j][i] == s[i] && s[j..][0] == s[j];
    assert s[i] in s[..j] && s[i] in s[j..];
  }

  lemma {:induction false} OnceInMultiset<T>(s: seq<T>, x: T)
    requires forall i, j | 0 <= i < j < |s| :: s[i] != s[j]
    ensures multiset(s)[x] <= 1
  {
    if s != [] {
      var n := |s| - 1;
      OnceInMultiset(s[..n], x);
      assert s == s[..n] + [s[n]];
      if s[n] == x { assert x !in s[..n]; }
    }
  }

  /** No key twice is the same as all keys taken being different. */
  lemma TakenDistinctIff(s: Stream, peer: PublicKey, held: set<(Bytes, Bytes)>)
    requires Paired(s, peer, held)
    ensures (forall k | peer <= k :: Times(s, k) <= 1) <==>
            (forall i, j | 0 <= i < j < |s.taken| :: s.taken[i] != s.taken[j])
  {
    if forall i, j | 0 <= i < j < |s.taken| :: s.taken[i] != s.taken[j] {
      forall k | peer <= k ensures Times(s, k) <= 1 { OnceInMultiset(s.taken, k); }
    } else {
      var i, j :| 0 <= i < j < |s.taken| && s.taken[i] == s.taken[j];
      TwiceInMultiset(s.taken, i, j);
      assert peer <= s.taken[i] && Times(s, s.taken[i]) >= 2;
    }
  }
}
