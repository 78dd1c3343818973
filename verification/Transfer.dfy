/** Resumable file transfer: the uploader's read loop, the downloader's append loop,
    and what any sequence of attempts does to the local file. */
module Transfer {
  import opened Bytes
  import opened Paths

  const UPLOAD_BLOCK_SIZE: nat := 64 * 1024

  datatype RpcError = BadOffset | PathNotFound | WriteFailed

  datatype Sent = Finished | Aborted(error: RpcError)

  // ------------------------------------------------------------- the uploader

  function Min(a: nat, b: nat): nat {
    if a <= b then a else b
  }

  /** The bytes a read request asks for. Seeking past the end reads nothing. */
  function Portion(contents: Bytes, start: nat, end: Option<nat>): Bytes
    requires end.Some? ==> start <= end.value
  {
    var rest := contents[Min(start, |contents|)..];
    if end.Some? then rest[..Min(end.value - start, |rest|)] else rest
  }

  datatype Grant = Granted(portion: Bytes) | Refused(error: RpcError)

  /** `contents` is `None` when the path does not resolve or cannot be opened. */
  function GetFilePortion(contents: Option<Bytes>, start: Option<nat>, end: Option<nat>): Grant {
    var from := if start.Some? then start.value else 0;
    if end.Some? && from > end.value then Refused(BadOffset)
    else if contents.None? then Refused(PathNotFound)
    else Granted(Portion(contents.value, from, end))
  }

  /** A read is granted the file from its start offset up to its end offset, as far as
      the file goes; it is refused when these are the wrong way round, and then, or else
      when the file is missing. */
  lemma GrantIs(contents: Option<Bytes>, start: Option<nat>, end: Option<nat>)
    ensures var (grant, from) := (GetFilePortion(contents, start, end), if start.Some? then start.value else 0);
            && (grant == Refused(BadOffset) <==> end.Some? && end.value < from)
            && (grant == Refused(PathNotFound) <==> contents.None? && !(end.Some? && end.value < from))
            && (grant.Granted? ==>
                  && contents.Some?
                  && grant.portion <= contents.value[Min(from, |contents.value|)..]
                  && (|grant.portion| + from == |contents.value|
                      || (end.Some? && |grant.portion| + from == end.value <= |contents.value|)
                      || (from > |contents.value| && grant.portion == [])))
            && (grant.Granted? && end.Some? ==> |grant.portion| <= end.value - from)
  {
  }

  type pos = n: nat | n > 0 witness 1

  /** What one turn of the upload loop meets before the end of the file: a read that
      gives at least one byte and a write that succeeds, a write that fails after
      part of the block is out, or a read that fails. */
  datatype Turn = Sends(n: pos) | WriteFails(n: pos, out: nat) | ReadFails

  function Block(portion: Bytes, n: pos): Bytes {
    portion[..Min(Min(n, UPLOAD_BLOCK_SIZE), |portion|)]
  }

  function PartOut(portion: Bytes, t: Turn): Bytes
    requires t.WriteFails?
  {
    var block := Block(portion, t.n);
    block[..Min(t.out, |block|)]
  }

  /** The bytes sent. A failed read ends the stream like the end of the file does. */
  function Upload(portion: Bytes, turns: seq<Turn>): (Bytes, Sent)
    decreases |turns|
  {
    if portion == [] || turns == [] || turns[0].ReadFails? then ([], Finished)
    else if turns[0].WriteFails? then (PartOut(portion, turns[0]), Aborted(WriteFailed))
    else
      var block := Block(portion, turns[0].n);
      var rest := Upload(portion[|block|..], turns[1..]);
      (block + rest.0, rest.1)
  }

  /** An error answer is a single zero byte. */
  method DoRead(contents: Option<Bytes>, start: Option<nat>, end: Option<nat>, turns: seq<Turn>)
    returns (output: Bytes, r: Sent)
    ensures var grant := GetFilePortion(contents, start, end);
            (output, r) == if grant.Granted? then Upload(grant.portion, turns) else ([0], Aborted(grant.error))
  {
    hide Upload, GetFilePortion;
    var grant := GetFilePortion(contents, start, end);
    if grant.Refused? { return [0], Aborted(grant.error); }
    output := [];
    var file, i := grant.portion, 0;
    ghost var whole := Upload(grant.portion, turns);
    assert turns[0..] == turns;
    while file != []
      invariant i <= |turns|
      invariant whole.0 == output + Upload(file, turns[i..]).0
      invariant whole.1 == Upload(file, turns[i..]).1
      decreases |turns| - i
    {
      UploadTurn(output, file, turns, i);
      if i == |turns| || turns[i].ReadFails? { break; }
      var buf := Block(file, turns[i].n);
      if turns[i].WriteFails? { return output + PartOut(file, turns[i]), Aborted(WriteFailed); }
      file := file[|buf|..];
      output := output + buf;
      i := i + 1;
    }
    if file == [] { UploadTurn(output, file, turns, i); }
    return output, Finished;
  }

  lemma UploadTurn(output: Bytes, file: Bytes, turns: seq<Turn>, i: nat)
    requires i <= |turns|
    ensures file == [] || i == |turns| || turns[i].ReadFails? ==>
              Upload(file, turns[i..]) == ([], Finished) && output + Upload(file, turns[i..]).0 == output
    ensures file != [] && i < |turns| && turns[i].WriteFails? ==>
              Upload(file, turns[i..]) == (PartOut(file, turns[i]), Aborted(WriteFailed))
    ensures file != [] && i < |turns| && turns[i].Sends? ==>
              var block := Block(file, turns[i].n);
              var rest := Upload(file[|block|..], turns[i + 1..]);
              output + Upload(file, turns[i..]).0 == (output + block) + rest.0 && Upload(file, turns[i..]).1 == rest.1
  {
    assert output + [] == output;
    if i < |turns| {
      assert turns[i..][0] == turns[i] && turns[i..][1..] == turns[i + 1..];
      if file != [] && turns[i].Sends? {
        var block := Block(file, turns[i].n);
        var rest := Upload(file[|block|..], turns[i + 1..]);
        assert output + (block + rest.0) == (output + block) + rest.0;
      }
    }
  }

  /** The uploader sends a prefix of the portion, in order and without repetition. */
  lemma {:induction false} UploadIsPrefix(portion: Bytes, turns: seq<Turn>)
    ensures Upload(portion, turns).0 <= portion
    decreases |turns|
  {
    if portion != [] && turns != [] && turns[0].Sends? {
      var n := |Block(portion, turns[0].n)|;
      UploadIsPrefix(portion[n..], turns[1..]);
      assert portion == portion[..n] + portion[n..];
    }
  }

  /** Without failures the whole portion is sent, however little a read gives. */
  lemma {:induction false} UploadWhole(portion: Bytes, turns: seq<Turn>)
    requires forall t | t in turns :: t.Sends?
    requires |turns| >= |portion|
    ensures Upload(portion, turns) == (portion, Finished)
    decreases |turns|
  {
    if portion != [] {
      assert turns[0] in turns;
      var n := |Block(portion, turns[0].n)|;
      UploadWhole(portion[n..], turns[1..]);
      assert portion == portion[..n] + portion[n..];
    }
  }

  /** No turn sends more than a block of 64 KiB. */
  lemma {:induction false} UploadPace(portion: Bytes, turns: seq<Turn>)
    ensures |Upload(portion, turns).0| <= 65536 * |turns|
    decreases |turns|
  {
    if portion != [] && turns != [] && turns[0].Sends? {
      UploadPace(portion[|Block(portion, turns[0].n)|..], turns[1..]);
    }
  }

  /** Of a block whose write fails, as much goes out as the write says. */
  lemma FailedWriteSends(portion: Bytes, n: pos, out: nat, rest: seq<Turn>)
    requires portion != []
    ensures var sent := Upload(portion, [WriteFails(n, out)] + rest).0;
            sent <= portion && |sent| == Min(out, Min(Min(n, 65536), |portion|))
  {
    assert ([WriteFails(n, out)] + rest)[0] == WriteFails(n, out);
  }

  /** The output breaks off with an error exactly if a write fails before the portion
      is sent and no read has failed. */
  lemma {:induction false} UploadAbortsIff(portion: Bytes, turns: seq<Turn>)
    ensures Upload(portion, turns).1.Aborted? <==>
              exists n :: 0 <= n < |turns| && turns[n].WriteFails? && (forall i | 0 <= i < n :: turns[i].Sends?)
                          && |Upload(portion, turns[..n]).0| < |portion|
    decreases |turns|
  {
    if portion == [] || turns == [] { return; }
    assert turns[..0] == [];
    if turns[0].Sends? {
      var left, more := portion[|Block(portion, turns[0].n)|..], turns[1..];
      UploadAbortsIff(left, more);
      forall n | 0 <= n < |more|
        ensures |Upload(portion, turns[..n + 1]).0| == |portion| - |left| + |Upload(left, more[..n]).0|
      {
        assert turns[..n + 1][1..] == more[..n];
      }
      if n :| 0 <= n < |more| && more[n].WriteFails? && (forall i | 0 <= i < n :: more[i].Sends?)
              && |Upload(left, more[..n]).0| < |left| {
        assert turns[n + 1].WriteFails?;
        assert forall i | 0 <= i < n + 1 :: turns[i].Sends? by {
          forall i | 0 < i < n + 1 ensures turns[i].Sends? { assert more[i - 1].Sends?; }
        }
      }
      if n :| 0 <= n < |turns| && turns[n].WriteFails? && (forall i | 0 <= i < n :: turns[i].Sends?)
              && |Upload(portion, turns[..n]).0| < |portion| {
        assert more[n - 1].WriteFails?;
      }
    } else if turns[0].WriteFails? {
      assert |Upload(portion, turns[..0]).0| < |portion|;
    }
  }

  // ----------------------------------------------------------- the downloader

  /** What the receiving loop meets. `writeOk` says whether the file accepts the
      block. An accepted block is written behind the call: `lands` says how much of it
      gets there, and if not all does, only the next write can report it. `emit` says
      that this is when progress is reported, which is when the bytes are counted. */
  datatype Event = Data(bytes: Bytes, writeOk: bool, lands: nat, emit: bool) | End | Lost

  predicate Settles(e: Event)
    requires e.Data?
  {
    e.lands >= |e.bytes|
  }

  function Landed(e: Event): Bytes
    requires e.Data?
  {
    e.bytes[..Min(e.lands, |e.bytes|)]
  }

  /** Resume where the local file ends, never beyond the expected size. */
  function StartOffset(existing: nat, size: nat): Option<nat> {
    if existing > size then Some(size)
    else if existing == 0 then None
    else Some(existing)
  }

  /** `start_offset >= Some(size)`: no offset is less than any. */
  predicate AlreadyDownloaded(start: Option<nat>, size: nat) {
    start.Some? && start.value >= size
  }

  /** The bytes that reach the file: all data up to the first failed write, be it
      refused or lost afterwards, or the end. */
  function Appended(events: seq<Event>): Bytes {
    if events == [] || !events[0].Data? || !events[0].writeOk then []
    else if !Settles(events[0]) then Landed(events[0])
    else events[0].bytes + Appended(events[1..])
  }

  /** The bytes counted, `pending` of them not yet: a failed write ends the loop
      without counting what was not yet reported. `lost` is an earlier failure that
      the next write reports. */
  function Counted(events: seq<Event>, pending: nat, lost: bool): nat {
    if events == [] || !events[0].Data? then pending
    else if lost || !events[0].writeOk then 0
    else
      var n := pending + |events[0].bytes|;
      var lostNow := !Settles(events[0]);
      if events[0].emit then n + Counted(events[1..], 0, lostNow) else Counted(events[1..], n, lostNow)
  }

  /** Every accepted block reaches the file. */
  predicate AllLand(events: seq<Event>) {
    events == [] || !events[0].Data? || !events[0].writeOk || (Settles(events[0]) && AllLand(events[1..]))
  }

  /** The local file and the count of bytes after an attempt. */
  function Attempt(local: Bytes, size: nat, events: seq<Event>): (Bytes, nat) {
    var start := StartOffset(|local|, size);
    var had := if start.Some? then start.value else 0;
    if AlreadyDownloaded(start, size) then (local, had)
    else (local + Appended(events), had + Counted(events, 0, false))
  }

  /** The count reaches the expected size. */
  predicate Succeeds(local: Bytes, size: nat, events: seq<Event>) {
    Attempt(local, size, events).1 >= size
  }

  /** No block of the attempt is lost. */
  predicate Settled(local: Bytes, size: nat, events: seq<Event>) {
    AlreadyDownloaded(StartOffset(|local|, size), size) || AllLand(events)
  }

  // -------------------------------------------------- the download directory

  /** How an attempt begins: the target is refused (a link, a directory, an error),
      the stream cannot be opened, or events arrive. */
  datatype Link = TargetRefused | NoStream | Streaming(events: seq<Event>)

  type Files = map<seq<Name>, Bytes>

  /** A file that does not exist yet is created empty. */
  function Contents(files: Files, name: seq<Name>): Bytes {
    if name in files then files[name] else []
  }

  /** One call of `download`: the directory after it, and whether it succeeded. */
  ghost function Fetch(files: Files, path: Bytes, size: nat, link: Link): (Files, bool) {
    var name := SafeRelative(path);
    if name.None? || name.value == [] || link.TargetRefused? then (files, false)
    else
      var local := Contents(files, name.value);
      if AlreadyDownloaded(StartOffset(|local|, size), size) then (files[name.value := local], true)
      else if link.NoStream? then (files[name.value := local], false)
      else (files[name.value := Attempt(local, size, link.events).0], Succeeds(local, size, link.events))
  }

  /** A call leaves every other file alone and only adds to its own, which is created
      if it was missing. The file lies inside the directory. An unacceptable path or
      target fails and touches nothing; a file with all the bytes, or more, succeeds as
      it is, whatever the connection does. */
  lemma FetchTouches(files: Files, path: Bytes, size: nat, link: Link)
    ensures var ((after, ok), name) := (Fetch(files, path, size, link), Kept(Split(path)));
            var local := Contents(files, name);
            if SafeRelative(path).None? || name == [] || link.TargetRefused? then after == files && !ok
            else
              && after.Keys == files.Keys + {name} && (forall other | other in files && other != name ::
                                                         after[other] == files[other])
              && (forall n | n in name :: GoodName(n))
              && local <= after[name]
              && (local != [] && |local| >= size ==> ok && after[name] == local)
              && ((local == [] || |local| < size) && link.NoStream? ==> !ok && after[name] == local)
  {
    hide Split, Kept;
    SafeIff(path);
    if SafeRelative(path).Some? { SafeNames(path); }
  }

  lemma SafeNames(path: Bytes)
    requires SafeRelative(path).Some?
    ensures forall n | n in SafeRelative(path).value :: GoodName(n)
  {
  }

  /** The bytes of a stream in which every write succeeds are all counted. */
  lemma {:induction false} CleanCount(events: seq<Event>, pending: nat)
    requires forall i | 0 <= i < |events| && events[i].Data? :: events[i].writeOk && Settles(events[i])
    ensures Counted(events, pending, false) == pending + |AllData(events)|
    decreases |events|
  {
    hide Settles;
    if events != [] && events[0].Data? {
      var e, rest := events[0], events[1..];
      assert forall i | 0 <= i < |rest| :: rest[i] == events[i + 1];
      CleanCount(rest, if e.emit then 0 else pending + |e.bytes|);
    }
  }

  /** A refused write leaves the count where it was last reported. */
  lemma {:induction false} FailedCount(events: seq<Event>, n: nat, r: nat, pending: nat)
    requires r <= n < |events| && events[n].Data? && !events[n].writeOk
    requires AllTaken(events[..n]) && (r > 0 ==> events[r - 1].emit) && NoneEmitted(events[r..n])
    ensures Counted(events, pending, false) == (if r > 0 then pending else 0) + |AllData(events[..r])|
    decreases |events|
  {
    hide Settles, Counted, AllData;
    NoData();
    if n == 0 {
      assert events[..r] == [];
      CountRefused(events, pending);
    } else {
      var rest, next := events[1..], if events[0].emit then 0 else pending + |events[0].bytes|;
      assert rest[..n - 1] == events[..n][1..] && events[..n][0] == events[0];
      CountOne(events, pending);
      if r > 0 {
        assert events[..r][0] == events[0] && events[..r][1..] == rest[..r - 1] && rest[r - 1..n - 1] == events[r..n];
        DataOne(events[..r]);
        FailedCount(rest, n - 1, r - 1, next);
      } else {
        assert !events[0..n][0].emit && rest[0..n - 1] == events[0..n][1..];
        FailedCount(rest, n - 1, 0, next);
        assert rest[..0] == [] && events[..0] == [];
      }
    }
  }

  /** Every block is accepted and reaches the file. */
  predicate AllTaken(events: seq<Event>) {
    forall i | 0 <= i < |events| :: events[i].Data? && events[i].writeOk && Settles(events[i])
  }

  predicate NoneEmitted(events: seq<Event>) {
    forall i | 0 <= i < |events| :: events[i].Data? ==> !events[i].emit
  }

  lemma NoData()
    ensures AllData([]) == []
  {
  }

  lemma DataOne(events: seq<Event>)
    requires events != [] && events[0].Data?
    ensures |AllData(events)| == |events[0].bytes| + |AllData(events[1..])|
  {
  }

  lemma CountRefused(events: seq<Event>, pending: nat)
    requires events != [] && events[0].Data? && !events[0].writeOk
    ensures Counted(events, pending, false) == 0
  {
  }

  lemma CountOne(events: seq<Event>, pending: nat)
    requires events != [] && events[0].Data? && events[0].writeOk && Settles(events[0])
    ensures var n := pending + |events[0].bytes|;
            Counted(events, pending, false) ==
              if events[0].emit then n + Counted(events[1..], 0, false) else Counted(events[1..], n, false)
  {
  }

  class DownloadDir {
    var files: Files

    constructor ()
      ensures files == map[]
    {
      files := map[];
    }

    /** Open for appending, creating the file if there is none. */
    method Open(name: seq<Name>)
      modifies this
      ensures files == old(files)[name := Contents(old(files), name)]
    {
      if name !in files { files := files[name := []]; }
    }

    /** Write a block. A failure of the block before is reported now; a failure of
        this one comes out as `lost`. */
    method Write(name: seq<Name>, block: Event, wasLost: bool) returns (ok: bool, lost: bool)
      requires block.Data? && name in files
      modifies this
      ensures ok <==> !wasLost && block.writeOk
      ensures lost <==> ok && !Settles(block)
      ensures files == old(files)[name := old(files)[name] + if ok then Landed(block) else []]
    {
      ok := !wasLost && block.writeOk;
      lost := ok && !Settles(block);
      if ok { files := files[name := files[name] + Landed(block)]; }
      assert files[name] + [] == files[name];
    }

    /** The receiving loop. It only appends. */
    method Receive(name: seq<Name>, size: nat, had: nat, events: seq<Event>) returns (bytesRead: nat)
      requires name in files
      modifies this
      ensures files == old(files)[name := old(files)[name] + Appended(events)]
      ensures bytesRead == had + Counted(events, 0, false)
    {
      bytesRead := had;
      var sinceLastUpdate: nat, i, lost := 0, 0, false;
      ghost var before := files[name];
      while true
        invariant i <= |events| && name in files
        invariant files == old(files)[name := files[name]]
        invariant before + Appended(events) == files[name] + if lost then [] else Appended(events[i..])
        invariant had + Counted(events, 0, false) == bytesRead + Counted(events[i..], sinceLastUpdate, lost)
        decreases |events| - i
      {
        if i == |events| || !events[i].Data? {
          bytesRead := bytesRead + sinceLastUpdate;
          break;
        }
        ghost var rest := events[i..];
        assert rest[0] == events[i] && rest[1..] == events[i + 1..];
        var event, wasLost := events[i], lost;
        i := i + 1;
        sinceLastUpdate := sinceLastUpdate + |event.bytes|;
        var written;
        written, lost := Write(name, event, wasLost);
        assert before + Appended(events) == files[name] + if written && !lost then Appended(events[i..]) else [];
        if !written { break; }
        if event.emit {
          bytesRead := bytesRead + sinceLastUpdate;
          sinceLastUpdate := 0;
        }
      }
      assert files[name] + [] == files[name];
    }

    method Download(path: Bytes, size: nat, link: Link) returns (ok: bool)
      modifies this
      ensures (files, ok) == Fetch(old(files), path, size, link)
    {
      var name := SafeRemoteRelativePath(path);
      if name.None? || name.value == [] || link.TargetRefused? { return false; }
      ghost var local := Contents(files, name.value);
      Open(name.value);
      var start := StartOffset(|files[name.value]|, size);
      var bytesRead := if start.Some? then start.value else 0;
      if !AlreadyDownloaded(start, size) {
        if link.NoStream? { return false; }
        bytesRead := Receive(name.value, size, bytesRead, link.events);
        ghost var after := local + Appended(link.events);
        assert old(files)[name.value := local][name.value := after] == old(files)[name.value := after];
      }
      ok := bytesRead >= size;
    }
  }

  // ------------------------------------------------------------ one attempt

  function AllData(events: seq<Event>): Bytes {
    if events == [] || !events[0].Data? then [] else events[0].bytes + AllData(events[1..])
  }

  /** The received data is what the uploader sends for the requested offset, cut
      anywhere and into any blocks. */
  predicate FromRemote(remote: Bytes, local: Bytes, size: nat, events: seq<Event>) {
    var start := StartOffset(|local|, size);
    AllData(events) <= Portion(remote, if start.Some? then start.value else 0, None)
  }

  /** Data received from the uploader, cut anywhere, is such data. */
  lemma ReceivedFromUploader(remote: Bytes, local: Bytes, size: nat, turns: seq<Turn>, events: seq<Event>)
    requires var grant := GetFilePortion(Some(remote), StartOffset(|local|, size), None);
             grant.Granted? && AllData(events) <= Upload(grant.portion, turns).0
    ensures FromRemote(remote, local, size, events)
  {
    UploadIsPrefix(GetFilePortion(Some(remote), StartOffset(|local|, size), None).portion, turns);
  }

  lemma {:induction false} AppendedIsPrefix(events: seq<Event>)
    ensures Appended(events) <= AllData(events)
  {
    if events != [] && events[0].Data? && events[0].writeOk { AppendedIsPrefix(events[1..]); }
  }

  lemma {:induction false} CountedAtMost(events: seq<Event>, pending: nat)
    requires AllLand(events)
    ensures Counted(events, pending, false) <= pending + |Appended(events)|
  {
    if events != [] && events[0].Data? && events[0].writeOk {
      var n := pending + |events[0].bytes|;
      CountedAtMost(events[1..], if events[0].emit then 0 else n);
    }
  }

  lemma {:induction false} LossIsShort(events: seq<Event>)
    requires !AllLand(events)
    ensures |Appended(events)| < |AllData(events)|
  {
    if Settles(events[0]) { LossIsShort(events[1..]); }
  }

  /** An attempt extends a prefix of the remote file to a longer one. If no accepted
      block is lost it counts no byte that is not in the file, and a success leaves the
      whole file; if one is lost a success, which is then reported all the same, leaves
      less. */
  lemma AttemptKeepsPrefix(remote: Bytes, local: Bytes, events: seq<Event>)
    requires local <= remote && FromRemote(remote, local, |remote|, events)
    ensures var (after, bytesRead) := Attempt(local, |remote|, events);
            && local <= after <= remote
            && (Settled(local, |remote|, events) ==> bytesRead <= |after|)
            && (Succeeds(local, |remote|, events) ==> (after == remote <==> Settled(local, |remote|, events)))
  {
    AppendedIsPrefix(events);
    if AllLand(events) { CountedAtMost(events, 0); } else { LossIsShort(events); }
  }

  /** Everything arrived, and every write succeeded and landed. */
  predicate Uncut(remote: Bytes, local: Bytes, events: seq<Event>) {
    && AllData(events) == Portion(remote, |local|, None)
    && forall e | e in events && e.Data? :: e.writeOk && Settles(e)
  }

  lemma {:induction false} UncutCounts(events: seq<Event>, pending: nat)
    requires forall e | e in events && e.Data? :: e.writeOk && Settles(e)
    ensures Counted(events, pending, false) == pending + |AllData(events)| && AllLand(events)
  {
    if events != [] && events[0].Data? {
      assert events[0] in events;
      var n := pending + |events[0].bytes|;
      UncutCounts(events[1..], if events[0].emit then 0 else n);
    }
  }

  /** An attempt that is not cut short succeeds. */
  lemma UncutSucceeds(remote: Bytes, local: Bytes, events: seq<Event>)
    requires local <= remote && Uncut(remote, local, events)
    ensures Succeeds(local, |remote|, events) && Settled(local, |remote|, events)
  {
    UncutCounts(events, 0);
  }

  /** Whatever file is there to begin with, a successful attempt leaves it equal to
      the remote file if and only if it was a prefix of it, since existing bytes are
      trusted by length alone, and no accepted block was lost. */
  lemma SuccessIsEqualIff(remote: Bytes, local: Bytes, events: seq<Event>)
    requires FromRemote(remote, local, |remote|, events) && Succeeds(local, |remote|, events)
    ensures Attempt(local, |remote|, events).0 == remote <==> local <= remote && Settled(local, |remote|, events)
  {
    if local <= remote {
      AttemptKeepsPrefix(remote, local, events);
    } else {
      assert local <= Attempt(local, |remote|, events).0;
    }
  }

  // ----------------------------------------------------------- many attempts

  /** Each attempt receives from the remote file at the offset it asks for. */
  predicate AllFromRemote(remote: Bytes, local: Bytes, attempts: seq<seq<Event>>)
    decreases |attempts|
  {
    attempts == [] || (FromRemote(remote, local, |remote|, attempts[0])
                       && AllFromRemote(remote, Attempt(local, |remote|, attempts[0]).0, attempts[1..]))
  }

  function After(remote: Bytes, local: Bytes, attempts: seq<seq<Event>>): Bytes
    decreases |attempts|
  {
    if attempts == [] then local else After(remote, Attempt(local, |remote|, attempts[0]).0, attempts[1..])
  }

  /** Over any sequence of attempts, cut at any byte, the local file is a prefix of
      the remote one and never shrinks. */
  lemma {:induction false} AttemptsKeepPrefix(remote: Bytes, local: Bytes, attempts: seq<seq<Event>>)
    requires local <= remote && AllFromRemote(remote, local, attempts)
    ensures local <= After(remote, local, attempts) <= remote
    decreases |attempts|
  {
    if attempts != [] {
      AttemptKeepsPrefix(remote, local, attempts[0]);
      AttemptsKeepPrefix(remote, Attempt(local, |remote|, attempts[0]).0, attempts[1..]);
    }
  }

  /** Once one attempt of a run has succeeded without losing a block, the local file
      equals the remote one from then on. */
  lemma {:induction false} SuccessIsFinal(remote: Bytes, local: Bytes, attempts: seq<seq<Event>>, i: nat)
    requires local <= remote && AllFromRemote(remote, local, attempts) && i < |attempts|
    requires Succeeds(After(remote, local, attempts[..i]), |remote|, attempts[i])
    requires Settled(After(remote, local, attempts[..i]), |remote|, attempts[i])
    ensures After(remote, local, attempts) == remote
    decreases |attempts|
  {
    var next := Attempt(local, |remote|, attempts[0]).0;
    AttemptKeepsPrefix(remote, local, attempts[0]);
    if i == 0 {
      assert attempts[..0] == [];
      AttemptsKeepPrefix(remote, next, attempts[1..]);
    } else {
      assert attempts[..i][1..] == attempts[1..][..i - 1] && attempts[..i][0] == attempts[0];
      SuccessIsFinal(remote, next, attempts[1..], i - 1);
    }
  }

  /** A run whose last attempt is not cut short ends with the whole file. */
  lemma UncutRunConverges(remote: Bytes, local: Bytes, attempts: seq<seq<Event>>)
    requires local <= remote && AllFromRemote(remote, local, attempts) && attempts != []
    requires var n := |attempts| - 1; Uncut(remote, After(remote, local, attempts[..n]), attempts[n])
    ensures After(remote, local, attempts) == remote
  {
    var n := |attempts| - 1;
    InitialPartFromRemote(remote, local, attempts, n);
    AttemptsKeepPrefix(remote, local, attempts[..n]);
    UncutSucceeds(remote, After(remote, local, attempts[..n]), attempts[n]);
    SuccessIsFinal(remote, local, attempts, n);
  }

  lemma {:induction false} InitialPartFromRemote(remote: Bytes, local: Bytes, attempts: seq<seq<Event>>, n: nat)
    requires AllFromRemote(remote, local, attempts) && n <= |attempts|
    ensures AllFromRemote(remote, local, attempts[..n])
    decreases n
  {
    if n > 0 {
      assert attempts[..n][1..] == attempts[1..][..n - 1];
      InitialPartFromRemote(remote, Attempt(local, |remote|, attempts[0]).0, attempts[1..], n - 1);
    }
  }

  /** If a block of an earlier attempt lands only after this one has read the length of
      the file, its bytes are fetched again, and a success leaves the remote contents
      if and only if there was no such block. */
  lemma LateBlockIff(remote: Bytes, local: Bytes, late: Bytes, events: seq<Event>)
    requires local <= remote && |local| < |remote| && FromRemote(remote, local, |remote|, events)
    requires Succeeds(local, |remote|, events) && Settled(local, |remote|, events)
    ensures local + late + Appended(events) == remote <==> late == []
  {
    SuccessIsLong(local, |remote|, events);
    AttemptKeepsPrefix(remote, local, events);
    assert |local + late + Appended(events)| == |local + Appended(events)| + |late|;
    if late == [] { assert local + late + Appended(events) == local + Appended(events); }
  }

  // ------------------------------------------------- two peers, one local file

  /** An attempt for one of two peers' files that go to the same local path. */
  datatype PeerAttempt = PeerAttempt(first: bool, events: seq<Event>)

  function Own(a: Bytes, b: Bytes, first: bool): Bytes {
    if first then a else b
  }

  function SharedNext(a: Bytes, b: Bytes, local: Bytes, t: PeerAttempt): Bytes {
    Attempt(local, |Own(a, b, t.first)|, t.events).0
  }

  function SharedAfter(a: Bytes, b: Bytes, local: Bytes, turns: seq<PeerAttempt>): Bytes
    decreases |turns|
  {
    if turns == [] then local else SharedAfter(a, b, SharedNext(a, b, local, turns[0]), turns[1..])
  }

  /** Each attempt receives from the file of its own peer. */
  predicate SharedGenuine(a: Bytes, b: Bytes, local: Bytes, turns: seq<PeerAttempt>)
    decreases |turns|
  {
    turns == [] ||
    (var own := Own(a, b, turns[0].first);
     && FromRemote(own, local, |own|, turns[0].events)
     && SharedGenuine(a, b, SharedNext(a, b, local, turns[0]), turns[1..]))
  }

  /** The two files hold the same bytes in a range, which may be empty. */
  predicate SameRange(mine: Bytes, theirs: Bytes, from: nat, to: nat) {
    from == to || (from < to <= |mine| && to <= |theirs| && mine[from..to] == theirs[from..to])
  }

  /** Every range fetched from the other peer is the same in both files. */
  predicate Harmless(a: Bytes, b: Bytes, first: bool, local: Bytes, turns: seq<PeerAttempt>)
    decreases |turns|
  {
    turns == [] ||
    (var next := SharedNext(a, b, local, turns[0]);
     (turns[0].first != first ==> SameRange(Own(a, b, first), Own(a, b, !first), |local|, |next|))
     && Harmless(a, b, first, next, turns[1..]))
  }

  lemma OwnExtends(mine: Bytes, local: Bytes, events: seq<Event>)
    requires FromRemote(mine, local, |mine|, events)
    ensures var next := Attempt(local, |mine|, events).0;
            local <= next && (next <= mine <==> local <= mine)
  {
    var next := Attempt(local, |mine|, events).0;
    assert local <= next;
    if local <= mine { AttemptKeepsPrefix(mine, local, events); }
  }

  lemma OtherExtends(mine: Bytes, theirs: Bytes, local: Bytes, events: seq<Event>)
    requires FromRemote(theirs, local, |theirs|, events)
    ensures var next := Attempt(local, |theirs|, events).0;
            local <= next && (next <= mine <==> local <= mine && SameRange(mine, theirs, |local|, |next|))
  {
    var next := Attempt(local, |theirs|, events).0;
    assert local <= next;
    if next != local {
      AppendedIsPrefix(events);
      assert next == local + Appended(events) && Appended(events) <= theirs[|local|..];
      assert next[|local|..] == theirs[|local|..|next|];
      assert next == local + theirs[|local|..|next|];
      if next <= mine { assert mine[..|next|] == next && mine[|local|..|next|] == next[|local|..]; }
      if local <= mine && SameRange(mine, theirs, |local|, |next|) {
        assert mine[..|next|] == mine[..|local|] + mine[|local|..|next|];
      }
    }
  }

  /** The local file is a prefix of a peer's file exactly as long as nothing that
      differs has come from the other. */
  lemma {:induction false} SharedPrefixIff(a: Bytes, b: Bytes, first: bool, local: Bytes, turns: seq<PeerAttempt>)
    requires SharedGenuine(a, b, local, turns)
    ensures local <= SharedAfter(a, b, local, turns)
    ensures SharedAfter(a, b, local, turns) <= Own(a, b, first) <==>
            local <= Own(a, b, first) && Harmless(a, b, first, local, turns)
    decreases |turns|
  {
    hide Attempt, FromRemote, SameRange;
    if turns != [] {
      var mine, theirs, events := Own(a, b, first), Own(a, b, !first), turns[0].events;
      if turns[0].first == first {
        OwnExtends(mine, local, events);
      } else {
        OtherExtends(mine, theirs, local, events);
      }
      SharedPrefixIff(a, b, first, SharedNext(a, b, local, turns[0]), turns[1..]);
    }
  }

  lemma SuccessIsLong(local: Bytes, size: nat, events: seq<Event>)
    requires Succeeds(local, size, events) && Settled(local, size, events)
    ensures |Attempt(local, size, events).0| >= size
  {
    if AllLand(events) { CountedAtMost(events, 0); }
  }

  lemma {:induction false} SharedSplit(a: Bytes, b: Bytes, local: Bytes, turns: seq<PeerAttempt>, i: nat)
    requires SharedGenuine(a, b, local, turns) && i <= |turns|
    ensures SharedGenuine(a, b, SharedAfter(a, b, local, turns[..i]), turns[i..])
    ensures SharedAfter(a, b, local, turns) == SharedAfter(a, b, SharedAfter(a, b, local, turns[..i]), turns[i..])
    decreases i
  {
    if i == 0 {
      assert turns[..0] == [] && turns[0..] == turns;
    } else {
      assert turns[..i][1..] == turns[1..][..i - 1] && turns[1..][i - 1..] == turns[i..];
      SharedSplit(a, b, SharedNext(a, b, local, turns[0]), turns[1..], i - 1);
    }
  }

  /** Two peers' files go to one local path and their attempts alternate in any way.
      A file one of whose attempts has succeeded is there in full at the end if and
      only if what was there at first was a prefix of it and every range fetched from
      the other peer, before or after, is the same in both files. */
  lemma SharedPathWholeIff(a: Bytes, b: Bytes, local: Bytes, turns: seq<PeerAttempt>, i: nat)
    requires SharedGenuine(a, b, local, turns) && i < |turns|
    requires var own, was := Own(a, b, turns[i].first), SharedAfter(a, b, local, turns[..i]);
             Succeeds(was, |own|, turns[i].events) && Settled(was, |own|, turns[i].events)
    ensures var first := turns[i].first;
            SharedAfter(a, b, local, turns) == Own(a, b, first) <==>
            local <= Own(a, b, first) && Harmless(a, b, first, local, turns)
  {
    hide Attempt, FromRemote, SameRange, Succeeds, Settled, Harmless;
    var first := turns[i].first;
    var own, was, rest := Own(a, b, first), SharedAfter(a, b, local, turns[..i]), turns[i..];
    SharedSplit(a, b, local, turns, i);
    assert rest[0] == turns[i] && rest[1..] == turns[i + 1..];
    SuccessIsLong(was, |own|, turns[i].events);
    SharedPrefixIff(a, b, first, SharedNext(a, b, was, turns[i]), rest[1..]);
    SharedPrefixIff(a, b, first, local, turns);
  }
}
