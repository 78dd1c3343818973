/** The worker that goes through one peer's requests: download, then mark complete. */
module PeerWorker {
  import opened Bytes
  import opened Paths
  import opened WishlistCodec
  import opened WishlistStore
  import opened Wishlist
  import opened Transfer

  /** One request from the stream and what the connection does meanwhile. */
  datatype Job = Job(file: RequestedFile, closedBefore: bool, link: Link, closedAfter: bool)

  /** `reported` are the requests announced as complete. */
  datatype World = World(store: Store, files: Files, reported: seq<u32>)

  // -------------------------------------------------------- the specification

  ghost function Finished(w: World, file: RequestedFile): World {
    var (store, r) := CompleteFile(w.store, file.(downloaded := true));
    w.(store := store, reported := if r == Ok(true) then w.reported + [file.requestId] else w.reported)
  }

  /** The world after one request, and whether the loop goes on. */
  ghost function Turn(w: World, job: Job): (World, bool) {
    if job.closedBefore || job.file.requestId !in w.store.requests then (w, false)
    else
      var (files, ok) := Fetch(w.files, job.file.path, job.file.size, job.link);
      if ok then (Finished(w.(files := files), job.file), true)
      else (w.(files := files), !job.closedAfter)
  }

  ghost function Process(w: World, jobs: seq<Job>): World
    decreases |jobs|
  {
    if jobs == [] then w
    else
      var (next, goOn) := Turn(w, jobs[0]);
      if goOn then Process(next, jobs[1..]) else next
  }

  // --------------------------------------------------------------- the method

  method ProcessRequests(wishlist: WishList, dir: DownloadDir, jobs: seq<Job>) returns (reported: seq<u32>)
    requires wishlist.Valid()
    modifies wishlist, dir
    ensures wishlist.Valid()
    ensures World(wishlist.store, dir.files, reported) == Process(World(old(wishlist.store), old(dir.files), []), jobs)
  {
    hide WishList.Valid, Fetch, CompleteFile;
    reported := [];
    ghost var whole := Process(World(wishlist.store, dir.files, []), jobs);
    var i := 0;
    while i < |jobs|
      invariant i <= |jobs| && wishlist.Valid()
      invariant whole == Process(World(wishlist.store, dir.files, reported), jobs[i..])
    {
      assert jobs[i..][0] == jobs[i] && jobs[i..][1..] == jobs[i + 1..];
      var file := jobs[i].file;
      if jobs[i].closedBefore { break; }
      var request := wishlist.GetRequest(file.requestId);
      if request.Err? { break; }
      var ok := dir.Download(file.path, file.size, jobs[i].link);
      if ok {
        var complete := wishlist.FileCompleted(file.(downloaded := true));
        if complete == Ok(true) { reported := reported + [file.requestId]; }
      } else if jobs[i].closedAfter {
        break;
      }
      i := i + 1;
    }
  }

  // ---------------------------------------------- what is marked is on disk

  /** `remote` is what the peer shares, by index path. */
  predicate RemoteIndex(remote: map<Bytes, Bytes>) {
    forall p | p in remote :: WellFormed(p)
  }

  /** Every local file is a prefix of the remote one. */
  predicate Prefixes(files: Files, remote: map<Bytes, Bytes>) {
    forall p | p in remote :: Contents(files, Components(p)) <= remote[p]
  }

  predicate OnDisk(files: Files, remote: map<Bytes, Bytes>, p: Bytes)
    requires p in remote
  {
    Contents(files, Components(p)) == remote[p]
  }

  /** Each file of this peer that is flagged downloaded is on disk byte for byte. */
  predicate MarkedAreWhole(w: World, remote: map<Bytes, Bytes>, peer: PublicKey) {
    forall k | k in w.store.files && w.store.files[k].downloaded && k.path in remote
               && k.requestId in w.store.requests && w.store.requests[k.requestId].peer == peer ::
      OnDisk(w.files, remote, k.path)
  }

  /** No local file shrinks. */
  predicate NothingShrinks(before: Files, after: Files) {
    forall name | name in before :: name in after && before[name] <= after[name]
  }

  /** A request of the indexed size whose data comes from the peer's file. */
  predicate Genuine(files: Files, remote: map<Bytes, Bytes>, job: Job) {
    var p := job.file.path;
    && p in remote && |remote[p]| == job.file.size
    && (job.link.Streaming? ==>
          FromRemote(remote[p], Contents(files, Components(p)), job.file.size, job.link.events))
  }

  ghost predicate AllGenuine(w: World, remote: map<Bytes, Bytes>, jobs: seq<Job>)
    decreases |jobs|
  {
    jobs == [] || (Genuine(w.files, remote, jobs[0]) && AllGenuine(Turn(w, jobs[0]).0, remote, jobs[1..]))
  }

  /** No block accepted by the job's download is lost. */
  predicate JobSettles(files: Files, job: Job) {
    job.link.Streaming? ==> Settled(Contents(files, Components(job.file.path)), job.file.size, job.link.events)
  }

  ghost predicate AllSettle(w: World, jobs: seq<Job>)
    decreases |jobs|
  {
    jobs == [] || (JobSettles(w.files, jobs[0]) && AllSettle(Turn(w, jobs[0]).0, jobs[1..]))
  }

  lemma FetchAt(files: Files, path: Bytes, size: nat, link: Link)
    requires WellFormed(path)
    ensures var (after, ok) := Fetch(files, path, size, link);
            var local := Contents(files, Components(path));
            && (forall name | name != Components(path) ::
                  (name in after <==> name in files) && (name in files ==> after[name] == files[name]))
            && Contents(after, Components(path)) ==
                (if link.Streaming? then Attempt(local, size, link.events).0 else local)
            && (Components(path) in files ==> Components(path) in after)
            && (ok ==> if link.Streaming? then Succeeds(local, size, link.events)
                       else AlreadyDownloaded(StartOffset(|local|, size), size))
  {
    WellFormedIsSafe(path);
    assert Split(path)[0] in Split(path);
    assert path != [];
  }

  lemma FetchExtends(files: Files, remote: map<Bytes, Bytes>, job: Job)
    requires RemoteIndex(remote) && Prefixes(files, remote) && Genuine(files, remote, job)
    ensures var (after, ok) := Fetch(files, job.file.path, job.file.size, job.link);
            && Prefixes(after, remote) && NothingShrinks(files, after)
            && (ok ==> (OnDisk(after, remote, job.file.path) <==> JobSettles(files, job)))
  {
    var p := job.file.path;
    var (after, ok) := Fetch(files, p, job.file.size, job.link);
    var name, local := Components(p), Contents(files, Components(p));
    FetchAt(files, p, job.file.size, job.link);
    hide Fetch, Attempt, Succeeds, Settled, FromRemote;
    assert local <= remote[p];
    if job.link.Streaming? { AttemptKeepsPrefix(remote[p], local, job.link.events); }
    assert local <= Contents(after, name) <= remote[p];
    forall q | q in remote ensures Contents(after, Components(q)) <= remote[q] {
      if Components(q) == name { ComponentsInjective(p, q); }
    }
  }

  /** A successful download leaves its file on disk in full if and only if no block it
      accepted was lost; it is flagged as downloaded either way. */
  lemma MarkedIsWholeIff(w: World, remote: map<Bytes, Bytes>, job: Job)
    requires RemoteIndex(remote) && Prefixes(w.files, remote) && Genuine(w.files, remote, job)
    requires !job.closedBefore && job.file.requestId in w.store.requests
    requires Fetch(w.files, job.file.path, job.file.size, job.link).1
    ensures var next := Turn(w, job).0;
            var k := FileId(job.file.requestId, job.file.path);
            && k in next.store.files && next.store.files[k].downloaded
            && (OnDisk(next.files, remote, job.file.path) <==> JobSettles(w.files, job))
  {
    hide Fetch, OnDisk, JobSettles, Prefixes;
    FetchExtends(w.files, remote, job);
  }

  lemma GrownStaysWhole(before: Files, after: Files, remote: map<Bytes, Bytes>, p: Bytes)
    requires p in remote && NothingShrinks(before, after) && Prefixes(after, remote) && OnDisk(before, remote, p)
    ensures OnDisk(after, remote, p)
  {
  }

  lemma TurnKeeps(w: World, remote: map<Bytes, Bytes>, peer: PublicKey, job: Job)
    requires RemoteIndex(remote) && Prefixes(w.files, remote) && Genuine(w.files, remote, job)
    ensures var next := Turn(w, job).0;
            && Prefixes(next.files, remote) && NothingShrinks(w.files, next.files)
            && (MarkedAreWhole(w, remote, peer) && JobSettles(w.files, job) ==> MarkedAreWhole(next, remote, peer))
  {
    hide Fetch, Prefixes, NothingShrinks, OnDisk, JobSettles;
    FetchExtends(w.files, remote, job);
    var next := Turn(w, job).0;
    SameShrinksNothing(w.files);
    if !(MarkedAreWhole(w, remote, peer) && JobSettles(w.files, job)) { return; }
    forall k | k in next.store.files && next.store.files[k].downloaded && k.path in remote
               && k.requestId in next.store.requests && next.store.requests[k.requestId].peer == peer
      ensures OnDisk(next.files, remote, k.path)
    {
      if k in w.store.files && w.store.files[k].downloaded {
        assert OnDisk(w.files, remote, k.path);
        GrownStaysWhole(w.files, next.files, remote, k.path);
      }
    }
  }

  lemma SameShrinksNothing(files: Files)
    ensures NothingShrinks(files, files)
  {
  }

  lemma ShrinksNothingTransitive(a: Files, b: Files, c: Files)
    requires NothingShrinks(a, b) && NothingShrinks(b, c)
    ensures NothingShrinks(a, c)
  {
  }

  /** Over any run of the worker, with transfers cut anywhere and files offered any
      number of times: local files stay prefixes of the remote ones and none shrinks,
      and if no accepted block is lost, whatever the wishlist flags as downloaded is
      there in full. */
  lemma {:induction false} ProcessKeeps(w: World, remote: map<Bytes, Bytes>, peer: PublicKey, jobs: seq<Job>)
    requires RemoteIndex(remote) && Prefixes(w.files, remote) && AllGenuine(w, remote, jobs)
    ensures var after := Process(w, jobs);
            && Prefixes(after.files, remote) && NothingShrinks(w.files, after.files)
            && (MarkedAreWhole(w, remote, peer) && AllSettle(w, jobs) ==> MarkedAreWhole(after, remote, peer))
    decreases |jobs|
  {
    hide Turn, Prefixes, MarkedAreWhole, NothingShrinks, Genuine, JobSettles;
    if jobs == [] {
      SameShrinksNothing(w.files);
    } else {
      TurnKeeps(w, remote, peer, jobs[0]);
      var (next, goOn) := Turn(w, jobs[0]);
      if goOn {
        ProcessKeeps(next, remote, peer, jobs[1..]);
        ShrinksNothingTransitive(w.files, next.files, Process(next, jobs[1..]).files);
      }
    }
  }

  // --------------------------------------------- the accounting stays right

  /** The file is stored as wanted, with this size: what the stream yields of it. */
  predicate Offered(st: Store, file: RequestedFile) {
    var k := FileId(file.requestId, file.path);
    k in st.files && st.files[k] == FileState(file.size, false)
  }

  /** No file is offered twice. */
  predicate OfferedOnce(jobs: seq<Job>) {
    forall i, j | 0 <= i < j < |jobs| ::
      FileId(jobs[i].file.requestId, jobs[i].file.path) != FileId(jobs[j].file.requestId, jobs[j].file.path)
  }

  /** A wanted file is outstanding under its own key, so completing it is in order. */
  lemma OfferedIsPermitted(st: Store, file: RequestedFile)
    requires Agree(st) && Offered(st, file)
    ensures file.requestId in st.requests && Permitted(st, Complete(file.(downloaded := true)))
  {
    var k := FileId(file.requestId, file.path);
    assert k in st.files && !st.files[k].downloaded;
    assert IsOutstanding(st, k);
  }

  // -------------------------------------------- when a request is announced

  /** The turn gets as far as marking its file. */
  ghost predicate Completes(w: World, job: Job) {
    && !job.closedBefore && job.file.requestId in w.store.requests
    && Fetch(w.files, job.file.path, job.file.size, job.link).1
  }

  /** The sizes of a request's files sum to what the request says. */
  ghost predicate Sized(st: Store, id: u32) {
    id in st.requests && Total(st, id) == st.requests[id].totalSize
  }

  lemma CompletedTotal(st: Store, file: RequestedFile, id: u32)
    requires file.requestId in st.requests && Offered(st, file)
    ensures Total(Completed(st, file.(downloaded := true)), id) == Total(st, id)
  {
    var k := FileId(file.requestId, file.path);
    assert Sizes(st.files[k := FileState(file.size, true)], id) == Sizes(st.files, id);
  }

  /** A turn announces its file's request complete if and only if it marks the file and
      then nothing with bytes is left of the request. It announces nothing else. */
  lemma TurnReportsIff(w: World, job: Job)
    requires Agree(w.store) && Offered(w.store, job.file) && Sized(w.store, job.file.requestId)
    ensures var next := Turn(w, job).0;
            next.reported == if Completes(w, job) && NothingLeft(next.store.files, job.file.requestId)
                             then w.reported + [job.file.requestId] else w.reported
  {
    hide Agree, Fetch, Total, NothingLeft;
    var f := job.file.(downloaded := true);
    if Completes(w, job) {
      OfferedIsPermitted(w.store, job.file);
      CompletedTotal(w.store, job.file, f.requestId);
      CompletionReported(w.store, f);
    }
  }

  /** An empty file that is marked announces its request if and only if nothing with
      bytes was left already, so such a request is announced again for each of them. */
  lemma EmptyFileAnnouncesIff(w: World, job: Job)
    requires Agree(w.store) && Offered(w.store, job.file) && Sized(w.store, job.file.requestId)
    requires Completes(w, job) && job.file.size == 0
    ensures var id := job.file.requestId;
            Turn(w, job).0.reported == w.reported + [id] <==> NothingLeft(w.store.files, id)
  {
    hide Agree, Total;
    TurnReportsIff(w, job);
  }

  /** A turn that does not mark its file leaves the wishlist as it was and announces
      nothing. */
  lemma UnfinishedTurn(w: World, job: Job)
    requires !Completes(w, job)
    ensures Turn(w, job).0.store == w.store && Turn(w, job).0.reported == w.reported
  {
    hide Fetch;
  }

  // ------------------------------------------------------- how far it goes

  /** The job does not end the loop: its request is known, and the connection is open
      before it and still open if its download fails. */
  ghost predicate Passes(w: World, job: Job) {
    && !job.closedBefore && job.file.requestId in w.store.requests
    && (Completes(w, job) || !job.closedAfter)
  }

  ghost predicate AllPass(w: World, jobs: seq<Job>)
    decreases |jobs|
  {
    jobs == [] || (Passes(w, jobs[0]) && AllPass(Turn(w, jobs[0]).0, jobs[1..]))
  }

  /** The worker takes up the next job as long as none has ended the loop. */
  lemma {:induction false} TakesNext(w: World, jobs: seq<Job>, job: Job)
    requires AllPass(w, jobs)
    ensures Process(w, jobs + [job]) == Turn(Process(w, jobs), job).0
    decreases |jobs|
  {
    hide Fetch, CompleteFile;
    if jobs == [] {
      assert ([] + [job])[1..] == [];
    } else {
      assert (jobs + [job])[1..] == jobs[1..] + [job];
      TakesNext(Turn(w, jobs[0]).0, jobs[1..], job);
    }
  }

  /** What comes after a job that ends the loop is not touched. */
  lemma {:induction false} StopsAt(w: World, jobs: seq<Job>, n: nat)
    requires n < |jobs| && AllPass(w, jobs[..n]) && !Passes(Process(w, jobs[..n]), jobs[n])
    ensures Process(w, jobs) == Process(w, jobs[..n + 1])
    decreases |jobs|
  {
    hide Fetch, CompleteFile;
    if n > 0 {
      assert jobs[..n][1..] == jobs[1..][..n - 1] && jobs[..n + 1][1..] == jobs[1..][..n];
      StopsAt(Turn(w, jobs[0]).0, jobs[1..], n - 1);
    } else {
      assert jobs[..0] == [];
    }
  }
}
