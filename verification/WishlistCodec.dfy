/** The fixed-width keys and values under which requests and files are stored. */
module WishlistCodec {
  import opened Bytes

  type PublicKey = s: Bytes | |s| == 32 witness seq(32, _ => 0)

  datatype DownloadRequest = DownloadRequest(
    path: Bytes, totalSize: u64, requestId: u32, timestamp: u64, peer: PublicKey, isDir: bool)

  datatype RequestedFile = RequestedFile(path: Bytes, size: u64, requestId: u32, downloaded: bool)

  datatype DbError = NoRequest | BadLength | CorruptDb | MarkCompleted

  datatype Result<+T> = Ok(value: T) | Err(error: DbError)

  type KeyValue = (Bytes, Bytes)

  function U32(s: Bytes): u32
    requires |s| == 4
  {
    ToFromBE(s);
    Powers();
    FromBE(s)
  }

  function U64(s: Bytes): u64
    requires |s| == 8
  {
    ToFromBE(s);
    Powers();
    FromBE(s)
  }

  function Flag(b: bool): byte {
    if b then 1 else 0
  }

  // ---------------------------------------------------------------- requests

  function RequestKey(id: u32): Bytes {
    ToBE(id, 4)
  }

  function RequestValue(r: DownloadRequest): Bytes {
    ToBE(r.timestamp, 8) + ToBE(r.totalSize, 8) + r.peer + [Flag(r.isDir)] + r.path
  }

  function TimeKey(timestamp: u64): Bytes {
    ToBE(timestamp, 8)
  }

  /** The records by request id and by timestamp. */
  function RequestToDb(r: DownloadRequest): (KeyValue, KeyValue) {
    ((RequestKey(r.requestId), RequestValue(r)), (TimeKey(r.timestamp), RequestKey(r.requestId)))
  }

  function RequestFromDb(key: Bytes, value: Bytes): Result<DownloadRequest> {
    if |key| != 4 || |value| < 49 then Err(BadLength)
    else Ok(DownloadRequest(value[49..], U64(value[8..16]), U32(key), U64(value[..8]), value[16..48], value[48] == 1))
  }

  lemma U32RoundTrip(n: u32)
    ensures U32(ToBE(n, 4)) == n
  {
    FromToBE(n, 4);
    Powers();
  }

  lemma U64RoundTrip(n: u64)
    ensures U64(ToBE(n, 8)) == n
  {
    FromToBE(n, 8);
    Powers();
  }

  /** Where the fields of a request are in its record. */
  lemma RequestLayout(r: DownloadRequest)
    ensures var v := RequestValue(r);
            && |v| == 49 + |r.path| && FromBE(v[..8]) == r.timestamp && FromBE(v[8..16]) == r.totalSize
            && v[16..48] == r.peer && v[48] == (if r.isDir then 1 else 0) && v[49..] == r.path
    ensures |RequestKey(r.requestId)| == 4 && FromBE(RequestKey(r.requestId)) == r.requestId
    ensures |TimeKey(r.timestamp)| == 8 && FromBE(TimeKey(r.timestamp)) == r.timestamp
  {
    U64RoundTrip(r.timestamp);
    U64RoundTrip(r.totalSize);
    U32RoundTrip(r.requestId);
    var v := RequestValue(r);
    assert v[..8] == ToBE(r.timestamp, 8) && v[8..16] == ToBE(r.totalSize, 8);
  }

  /** Where the fields of a file are in its two records. */
  lemma FileLayout(f: RequestedFile, peer: PublicKey, timestamp: u64)
    ensures var (byPeer, byRequest) := FileToDb(f, peer, timestamp);
            && |byPeer.0| == 40 + |f.path| && byPeer.0[..32] == peer
            && FromBE(byPeer.0[32..40]) == timestamp && byPeer.0[40..] == f.path
            && |byPeer.1| == 12 && FromBE(byPeer.1[..4]) == f.requestId && FromBE(byPeer.1[4..]) == f.size
            && |byRequest.0| == 4 + |f.path| && FromBE(byRequest.0[..4]) == f.requestId && byRequest.0[4..] == f.path
            && |byRequest.1| == 9 && FromBE(byRequest.1[..8]) == f.size
            && byRequest.1[8] == if f.downloaded then 1 else 0
  {
    U64RoundTrip(timestamp);
    U64RoundTrip(f.size);
    U32RoundTrip(f.requestId);
    var (byPeer, byRequest) := FileToDb(f, peer, timestamp);
    assert byPeer.0[32..40] == ToBE(timestamp, 8);
    assert byPeer.1[..4] == ToBE(f.requestId, 4) && byPeer.1[4..] == ToBE(f.size, 8);
    assert byRequest.0[..4] == ToBE(f.requestId, 4) && byRequest.1[..8] == ToBE(f.size, 8);
  }

  lemma RequestRoundTrip(r: DownloadRequest)
    ensures var kv := RequestToDb(r).0; RequestFromDb(kv.0, kv.1) == Ok(r)
  {
    var v := RequestValue(r);
    assert v[..8] == ToBE(r.timestamp, 8);
    assert v[8..16] == ToBE(r.totalSize, 8);
    assert v[16..48] == r.peer;
    assert v[49..] == r.path;
    U32RoundTrip(r.requestId);
    U64RoundTrip(r.timestamp);
    U64RoundTrip(r.totalSize);
  }

  /** Reading back a stored record and storing it again gives the same bytes,
      except that any directory flag other than 1 becomes 0. */
  lemma RequestBytesRoundTrip(key: Bytes, value: Bytes)
    ensures RequestFromDb(key, value).Ok? <==> |key| == 4 && |value| >= 49
    ensures RequestFromDb(key, value).Ok? ==>
              (RequestToDb(RequestFromDb(key, value).value).0 == (key, value) <==> value[48] <= 1)
  {
    if |key| == 4 && |value| >= 49 {
      var again := RequestValue(RequestFromDb(key, value).value);
      ToFromBE(key);
      ToFromBE(value[..8]);
      ToFromBE(value[8..16]);
      assert value == value[..8] + value[8..16] + value[16..48] + [value[48]] + value[49..];
      assert again == value[..8] + value[8..16] + value[16..48] + [again[48]] + value[49..];
      assert again[48] == Flag(value[48] == 1);
    }
  }

  // ------------------------------------------------------------------- files

  function PeerKey(peer: PublicKey, timestamp: u64, path: Bytes): Bytes {
    peer + ToBE(timestamp, 8) + path
  }

  function PeerValue(id: u32, size: u64): Bytes {
    ToBE(id, 4) + ToBE(size, 8)
  }

  function FileKey(id: u32, path: Bytes): Bytes {
    ToBE(id, 4) + path
  }

  function FileValue(size: u64, downloaded: bool): Bytes {
    ToBE(size, 8) + [Flag(downloaded)]
  }

  /** The records by peer and by request id. */
  function FileToDb(f: RequestedFile, peer: PublicKey, timestamp: u64): (KeyValue, KeyValue) {
    ((PeerKey(peer, timestamp, f.path), PeerValue(f.requestId, f.size)),
     (FileKey(f.requestId, f.path), FileValue(f.size, f.downloaded)))
  }

  function FileFromPeerDb(key: Bytes, value: Bytes): Result<RequestedFile> {
    if |key| < 40 || |value| < 12 then Err(BadLength)
    else Ok(RequestedFile(key[40..], U64(value[4..12]), U32(value[..4]), false))
  }

  function FileFromRequestDb(key: Bytes, value: Bytes): Result<RequestedFile> {
    if |key| < 4 || |value| < 9 then Err(BadLength)
    else Ok(RequestedFile(key[4..], U64(value[..8]), U32(key[..4]), value[8] == 1))
  }

  /** Both records give the file back; the by-peer record stands for an outstanding
      file and does not keep the downloaded flag. */
  lemma FileRoundTrip(f: RequestedFile, peer: PublicKey, timestamp: u64)
    ensures var (byPeer, byRequest) := FileToDb(f, peer, timestamp);
            && FileFromPeerDb(byPeer.0, byPeer.1) == Ok(f.(downloaded := false))
            && FileFromRequestDb(byRequest.0, byRequest.1) == Ok(f)
  {
    var (byPeer, byRequest) := FileToDb(f, peer, timestamp);
    assert byPeer.0[40..] == f.path && byPeer.1[..4] == ToBE(f.requestId, 4) && byPeer.1[4..12] == ToBE(f.size, 8);
    assert byRequest.0[4..] == f.path && byRequest.0[..4] == ToBE(f.requestId, 4);
    assert byRequest.1[..8] == ToBE(f.size, 8);
    U32RoundTrip(f.requestId);
    U64RoundTrip(f.size);
  }

  /** Which stored bytes are reproduced: those without trailing bytes in the value
      and, by request id, with a flag of 0 or 1. The by-peer key is always
      reproduced from its own peer and timestamp. */
  lemma PeerBytesRoundTrip(key: Bytes, value: Bytes)
    ensures FileFromPeerDb(key, value).Ok? <==> |key| >= 40 && |value| >= 12
    ensures FileFromPeerDb(key, value).Ok? ==>
              var kv := FileToDb(FileFromPeerDb(key, value).value, key[..32], U64(key[32..40])).0;
              kv.0 == key && (kv.1 == value <==> |value| == 12)
  {
    if |key| >= 40 && |value| >= 12 {
      ToFromBE(key[32..40]);
      ToFromBE(value[..4]);
      ToFromBE(value[4..12]);
      assert key == key[..32] + key[32..40] + key[40..];
      assert value[..12] == value[..4] + value[4..12];
      assert |value| == 12 ==> value == value[..12];
    }
  }

  lemma FileBytesRoundTrip(key: Bytes, value: Bytes, peer: PublicKey, timestamp: u64)
    ensures FileFromRequestDb(key, value).Ok? <==> |key| >= 4 && |value| >= 9
    ensures FileFromRequestDb(key, value).Ok? ==>
              var kv := FileToDb(FileFromRequestDb(key, value).value, peer, timestamp).1;
              kv.0 == key && (kv.1 == value <==> |value| == 9 && value[8] <= 1)
  {
    if |key| >= 4 && |value| >= 9 {
      ToFromBE(key[..4]);
      ToFromBE(value[..8]);
      var again := FileToDb(FileFromRequestDb(key, value).value, peer, timestamp).1.1;
      assert again == value[..8] + [Flag(value[8] == 1)];
      assert again[8] == Flag(value[8] == 1);
      assert |value| == 9 ==> value == value[..8] + [value[8]];
    }
  }

  // -------------------------------------------------- keys, scans and order

  lemma RequestKeysDistinct(a: u32, b: u32)
    ensures RequestKey(a) == RequestKey(b) <==> a == b
  {
    U32RoundTrip(a);
    U32RoundTrip(b);
  }

  lemma TimeKeysDistinct(a: u64, b: u64)
    ensures TimeKey(a) == TimeKey(b) <==> a == b
  {
    U64RoundTrip(a);
    U64RoundTrip(b);
  }

  /** A prefix scan on a peer key meets exactly that peer's records. */
  lemma PeerPrefix(peer: PublicKey, scanned: PublicKey, timestamp: u64, path: Bytes)
    ensures scanned <= PeerKey(peer, timestamp, path) <==> scanned == peer
  {
    assert PeerKey(peer, timestamp, path)[..32] == peer;
  }

  /** A prefix scan on a request id meets exactly that request's records. */
  lemma RequestPrefix(id: u32, scanned: u32, path: Bytes)
    ensures RequestKey(scanned) <= FileKey(id, path) <==> scanned == id
  {
    assert FileKey(id, path)[..4] == RequestKey(id);
    RequestKeysDistinct(id, scanned);
  }

  lemma {:induction false} LexPair(s: Bytes, t: Bytes, a: Bytes, b: Bytes)
    requires |s| == |t|
    ensures LexLe(s + a, t + b) <==> if s == t then LexLe(a, b) else LexLe(s, t)
  {
    if s == [] {
      assert s + a == a && t + b == b;
    } else {
      assert (s + a)[1..] == s[1..] + a && (t + b)[1..] == t[1..] + b;
      LexPair(s[1..], t[1..], a, b);
      assert s == [s[0]] + s[1..] && t == [t[0]] + t[1..];
    }
  }

  /** Within one peer, key order is age first, then path. */
  lemma OldestFirst(peer: PublicKey, s: u64, t: u64, a: Bytes, b: Bytes)
    ensures LexLe(PeerKey(peer, s, a), PeerKey(peer, t, b)) <==> s < t || (s == t && LexLe(a, b))
  {
    var x, y := ToBE(s, 8), ToBE(t, 8);
    assert PeerKey(peer, s, a) == peer + (x + a) && PeerKey(peer, t, b) == peer + (y + b);
    LexCommonPrefix(peer, x + a, y + b);
    LexPair(x, y, a, b);
    BigEndianOrder(x, y);
    U64RoundTrip(s);
    U64RoundTrip(t);
  }

  lemma PeerKeysDistinct(peer: PublicKey, s: u64, a: Bytes, other: PublicKey, t: u64, b: Bytes)
    ensures PeerKey(peer, s, a) == PeerKey(other, t, b) <==> peer == other && s == t && a == b
  {
    var k, l := PeerKey(peer, s, a), PeerKey(other, t, b);
    assert k[..32] == peer && k[32..40] == ToBE(s, 8) && k[40..] == a;
    assert l[..32] == other && l[32..40] == ToBE(t, 8) && l[40..] == b;
    U64RoundTrip(s);
    U64RoundTrip(t);
  }

  lemma FileKeysDistinct(id: u32, a: Bytes, other: u32, b: Bytes)
    ensures FileKey(id, a) == FileKey(other, b) <==> id == other && a == b
  {
    var k, l := FileKey(id, a), FileKey(other, b);
    assert k[..4] == ToBE(id, 4) && k[4..] == a;
    assert l[..4] == ToBE(other, 4) && l[4..] == b;
    RequestKeysDistinct(id, other);
  }
}
