/** Length-prefixed messages: the writers, the buffering decoder of the client and
    the exact-read decoder of the peer side. Payloads are byte strings. */
module Framing {
  import opened Bytes

  const MAX_MESSAGE: nat := 1024 * 1024

  // ----------------------------------------------------------------- writers

  /** `create_length_prefixed_message`: the length is cut to 32 bits. */
  function Frame(message: Bytes): (r: Bytes)
    ensures |r| == 4 + |message|
  {
    ToBE(|message| % 0x1_0000_0000, 4) + message
  }

  function Frames(messages: seq<Bytes>): Bytes {
    if messages == [] then [] else Frame(messages[0]) + Frames(messages[1..])
  }

  /** The loop that writes the messages of a listing one after the other. A message
      whose length does not fit in 32 bits ends it with an error. */
  method WriteMessages(messages: seq<Bytes>) returns (output: Bytes, written: nat)
    ensures written <= |messages| && output == Frames(messages[..written])
    ensures AllFit(messages, written)
    ensures written < |messages| ==> |messages[written]| >= 0x1_0000_0000
  {
    output, written := [], 0;
    while written < |messages|
      invariant written <= |messages| && output == Frames(messages[..written])
      invariant AllFit(messages, written)
    {
      if |messages[written]| >= 0x1_0000_0000 { return; }
      OneMoreWritten(messages, written);
      output := WriteMessage(output, messages[written]);
      written := written + 1;
    }
  }

  predicate AllFit(messages: seq<Bytes>, n: nat)
    requires n <= |messages|
  {
    forall i | 0 <= i < n :: |messages[i]| < 0x1_0000_0000
  }

  method WriteMessage(before: Bytes, buf: Bytes) returns (output: Bytes)
    requires |buf| < 0x1_0000_0000
    ensures output == before + Frame(buf)
  {
    output := before + ToBE(|buf|, 4);
    output := output + buf;
  }

  lemma OneMoreWritten(messages: seq<Bytes>, n: nat)
    requires n < |messages|
    ensures Frames(messages[..n + 1]) == Frames(messages[..n]) + Frame(messages[n])
  {
    assert messages[..n + 1] == messages[..n] + [messages[n]];
    FramesSnoc(messages[..n], messages[n]);
  }

  lemma {:induction false} FramesSnoc(a: seq<Bytes>, m: Bytes)
    ensures Frames(a + [m]) == Frames(a) + Frame(m)
  {
    if a == [] {
      assert (a + [m])[1..] == [];
    } else {
      assert (a + [m])[1..] == a[1..] + [m];
      FramesSnoc(a[1..], m);
    }
  }

  // ------------------------------------------------- what a stream contains

  /** The length announced at the front of `s`. */
  function Announced(s: Bytes): nat
    requires |s| >= 4
  {
    FromBE(s[..4])
  }

  predicate HasFrame(s: Bytes) {
    |s| >= 4 && |s| >= 4 + Announced(s)
  }

  /** The completely received messages of a byte stream, in order. */
  function Decode(s: Bytes): seq<Bytes>
    decreases |s|
  {
    if HasFrame(s) then [s[4..4 + Announced(s)]] + Decode(s[4 + Announced(s)..]) else []
  }

  /** What is left when no further message is complete. */
  function Rest(s: Bytes): Bytes
    decreases |s|
  {
    if HasFrame(s) then Rest(s[4 + Announced(s)..]) else s
  }

  function First(s: Bytes): Bytes
    requires HasFrame(s)
  {
    s[4..4 + Announced(s)]
  }

  function AfterFirst(s: Bytes): Bytes
    requires HasFrame(s)
  {
    s[4 + Announced(s)..]
  }

  /** More bytes never change the messages already complete. */
  lemma FirstStays(s: Bytes, t: Bytes)
    requires HasFrame(s)
    ensures HasFrame(s + t) && First(s + t) == First(s) && AfterFirst(s + t) == AfterFirst(s) + t
  {
    assert (s + t)[..4] == s[..4];
  }

  // ------------------------------------------------------ the client decoder

  datatype Poll = Item(message: Bytes) | TransportError | Incomplete | Pending | End

  /** What the HTTP body yields next: a chunk, nothing yet, or an error; it ends
      when no more is scheduled. */
  datatype Source = Chunk(data: Bytes) | NotReady | Broken

  /** The bytes received before the first transport error. */
  function Received(source: seq<Source>): Bytes {
    if source == [] || source[0].Broken? then []
    else (if source[0].Chunk? then source[0].data else []) + Received(source[1..])
  }

  class LengthPrefixedStream {
    var inner: seq<Source>
    var buffer: Bytes

    constructor (inner: seq<Source>)
      ensures this.inner == inner && buffer == []
    {
      this.inner := inner;
      buffer := [];
    }

    /** Everything not yet handed out that is or will be received. */
    ghost function Ahead(): Bytes
      reads this
    {
      buffer + Received(inner)
    }

    /** One poll of `poll_next`. */
    method PollNext() returns (r: Poll)
      modifies this
      ensures r.Item? ==> Decode(old(Ahead())) == [r.message] + Decode(Ahead()) && Rest(Ahead()) == Rest(old(Ahead()))
      ensures !r.Item? ==> Ahead() == old(Ahead()) || r.TransportError?
      ensures r.End? || r.Incomplete? || r.TransportError? ==> Decode(old(Ahead())) == []
      ensures r.End? ==> inner == [] && old(Ahead()) == []
      ensures r.Incomplete? ==> inner == [] && old(Ahead()) != []
      ensures if r.TransportError? then Broken in old(inner) else Broken in inner <==> Broken in old(inner)
      ensures r.Pending? ==> |inner| < |old(inner)|
      ensures r.Item? ==> |Ahead()| < |old(Ahead())| && |inner| <= |old(inner)|
    {
      while true
        invariant Ahead() == old(Ahead())
        invariant |inner| <= |old(inner)|
        invariant Broken in inner <==> Broken in old(inner)
        decreases |inner|
      {
        if |buffer| >= 4 {
          var msgLen := FromBE(buffer[..4]);
          if |buffer| >= 4 + msgLen {
            FirstStays(buffer, Received(inner));
            var rest := buffer[4..];
            assert rest[..msgLen] == First(buffer) && rest[msgLen..] == AfterFirst(buffer);
            var msg := rest[..msgLen];
            buffer := rest[msgLen..];
            return Item(msg);
          }
        }
        if inner == [] {
          assert Ahead() == buffer;
          return if buffer == [] then End else Incomplete;
        }
        var next := inner[0];
        assert next.Broken? ==> Ahead() == buffer;
        inner := inner[1..];
        match next {
          case Chunk(data) => buffer := buffer + data;
          case NotReady => return Pending;
          case Broken => return TransportError;
        }
      }
    }
  }

  datatype Ending = Ended | Truncated | Failed

  /** Poll until the stream ends or first yields an error of its own. The messages
      handed out are exactly those completely received, whatever the chunks. */
  method Drain(stream: LengthPrefixedStream) returns (items: seq<Bytes>, ending: Ending)
    modifies stream
    ensures items == Decode(old(stream.Ahead()))
    ensures ending == Failed <==> Broken in old(stream.inner)
    ensures ending == Ended ==> Rest(old(stream.Ahead())) == []
    ensures ending == Truncated ==> Rest(old(stream.Ahead())) != []
  {
    items := [];
    while true
      invariant Decode(old(stream.Ahead())) == items + Decode(stream.Ahead())
      invariant Rest(stream.Ahead()) == Rest(old(stream.Ahead()))
      invariant Broken in stream.inner <==> Broken in old(stream.inner)
      decreases |stream.Ahead()| + |stream.inner|
    {
      ghost var before := stream.Ahead();
      var r := stream.PollNext();
      match r {
        case Item(message) => items := items + [message];
        case Pending =>
        case End =>
          assert Rest(before) == before && stream.inner == [];
          return items, Ended;
        case Incomplete =>
          assert Rest(before) == before;
          return items, Truncated;
        case TransportError => return items, Failed;
      }
    }
  }

  // ------------------------------------------------------ the peer's decoder

  datatype ReadEnding = Stopped | TooLarge | Unreadable

  /** What `process_length_prefix` accepts of a stream: whole messages up to the
      first one that announces more than 1 MiB or does not deserialize. */
  ghost function Accepted(s: Bytes, readable: Bytes -> bool): seq<Bytes>
    decreases |s|
  {
    if HasFrame(s) && Announced(s) <= MAX_MESSAGE && readable(First(s))
    then [First(s)] + Accepted(AfterFirst(s), readable) else []
  }

  /** The exact-read loop on the bytes a stream delivers before it ends or fails. */
  method ProcessLengthPrefix(recv: Bytes, readable: Bytes -> bool)
    returns (items: seq<Bytes>, ending: ReadEnding, ghost left: Bytes)
    ensures items == Accepted(recv, readable)
    ensures recv == Frames(items) + left
    ensures forall m | m in items :: |m| <= 1024 * 1024 && readable(m)
    ensures ending == TooLarge <==> |left| >= 4 && FromBE(left[..4]) > 1024 * 1024
    ensures ending == Stopped <==>
              |left| < 4 || (FromBE(left[..4]) <= 1024 * 1024 && |left| < 4 + FromBE(left[..4]))
    ensures ending == Stopped ==> items == Decode(recv)
    ensures ending == Unreadable ==> HasFrame(left) && !readable(First(left))
  {
    hide Accepted, Decode, Frames;
    items, left := [], recv;
    var rest := recv;
    StartReading(recv);
    while |rest| >= 4
      invariant left == rest && recv == Frames(items) + rest
      invariant forall m | m in items :: |m| <= 1024 * 1024 && readable(m)
      invariant Accepted(recv, readable) == items + Accepted(rest, readable)
      invariant Decode(recv) == items + Decode(rest)
      decreases |rest|
    {
      TakenFrame(rest, items, readable);
      var length := FromBE(rest[..4]);
      if length > MAX_MESSAGE { return items, TooLarge, rest; }
      if |rest| - 4 < length { return items, Stopped, rest; }
      var msgBuf := rest[4..4 + length];
      if !readable(msgBuf) { return items, Unreadable, rest; }
      items, rest := items + [msgBuf], rest[4 + length..];
      left := rest;
    }
    NoFrame(rest, items, readable);
    return items, Stopped, rest;
  }

  lemma StartReading(recv: Bytes)
    ensures Frames([]) + recv == recv
  {
  }

  lemma NoFrame(s: Bytes, items: seq<Bytes>, readable: Bytes -> bool)
    ensures !HasFrame(s) ==> items + Accepted(s, readable) == items && items + Decode(s) == items
  {
  }

  /** Reading one message moves its frame to the messages read. */
  lemma TakenFrame(s: Bytes, items: seq<Bytes>, readable: Bytes -> bool)
    requires |s| >= 4
    ensures HasFrame(s) ==>
              && Frames(items) + s == Frames(items + [First(s)]) + AfterFirst(s)
              && items + Decode(s) == items + [First(s)] + Decode(AfterFirst(s))
    ensures HasFrame(s) && Announced(s) <= MAX_MESSAGE && readable(First(s)) ==>
              items + Accepted(s, readable) == items + [First(s)] + Accepted(AfterFirst(s), readable)
    ensures HasFrame(s) && (Announced(s) > MAX_MESSAGE || !readable(First(s))) ==>
              items + Accepted(s, readable) == items
    ensures !HasFrame(s) ==> items + Accepted(s, readable) == items && items + Decode(s) == items
  {
    hide Frames, Decode, Accepted;
    if HasFrame(s) {
      SplitFrame(s);
      FramesSnoc(items, First(s));
      Associates(Frames(items), Frame(First(s)), AfterFirst(s));
      DecodeTaken(s, items);
      AcceptTaken(s, items, readable);
    } else {
      NoFrame(s, items, readable);
    }
  }

  lemma Associates(a: Bytes, b: Bytes, c: Bytes)
    ensures a + (b + c) == a + b + c
  {
  }

  lemma DecodeTaken(s: Bytes, items: seq<Bytes>)
    requires HasFrame(s)
    ensures items + Decode(s) == items + [First(s)] + Decode(AfterFirst(s))
  {
    assert Decode(s) == [First(s)] + Decode(AfterFirst(s));
  }

  lemma AcceptTaken(s: Bytes, items: seq<Bytes>, readable: Bytes -> bool)
    requires HasFrame(s)
    ensures items + Accepted(s, readable) ==
              if Announced(s) <= MAX_MESSAGE && readable(First(s))
              then items + [First(s)] + Accepted(AfterFirst(s), readable) else items
  {
    if Announced(s) <= MAX_MESSAGE && readable(First(s)) {
      assert Accepted(s, readable) == [First(s)] + Accepted(AfterFirst(s), readable);
    }
  }

  lemma SplitFrame(s: Bytes)
    requires HasFrame(s)
    ensures s == Frame(First(s)) + AfterFirst(s)
  {
    ToFromBE(s[..4]);
    Powers();
  }

  // --------------------------------------------------------------- theorems

  lemma FrameDecodes(message: Bytes, more: Bytes)
    requires |message| < 0x1_0000_0000
    ensures var s := Frame(message) + more;
            HasFrame(s) && First(s) == message && AfterFirst(s) == more
  {
    var s := Frame(message) + more;
    FromToBE(|message|, 4);
    Powers();
    assert s[..4] == ToBE(|message|, 4);
    assert s[4..] == message + more;
  }

  /** A framed message reads back exactly when its length fits in 32 bits. */
  lemma FrameRoundTripIff(message: Bytes)
    ensures Decode(Frame(message)) == [message] <==> |message| < 0x1_0000_0000
  {
    var s := Frame(message);
    assert s + [] == s;
    if |message| < 0x1_0000_0000 {
      FrameDecodes(message, []);
    } else {
      FromToBE(|message| % 0x1_0000_0000, 4);
      Powers();
      assert s[..4] == ToBE(|message| % 0x1_0000_0000, 4);
      assert Announced(s) < |message|;
      assert Decode(s)[0] == First(s) && |First(s)| == Announced(s);
    }
  }

  /** The messages that fit completely in the first `n` bytes of their frames. */
  function CompleteWithin(messages: seq<Bytes>, n: nat): seq<Bytes> {
    if messages == [] || |Frame(messages[0])| > n then []
    else [messages[0]] + CompleteWithin(messages[1..], n - |Frame(messages[0])|)
  }

  lemma {:induction false} PrefixDecodes(messages: seq<Bytes>, n: nat)
    requires forall m | m in messages :: |m| < 0x1_0000_0000
    requires n <= |Frames(messages)|
    ensures Decode(Frames(messages)[..n]) == CompleteWithin(messages, n)
  {
    if messages != [] {
      var m, rest := messages[0], messages[1..];
      var f := Frame(m);
      var s := Frames(messages)[..n];
      assert m in messages && forall x | x in rest :: x in messages;
      if |f| <= n {
        PrefixDecodes(rest, n - |f|);
        assert s == f + Frames(rest)[..n - |f|];
        FrameDecodes(m, Frames(rest)[..n - |f|]);
      } else {
        FrameDecodes(m, Frames(rest));
        if |s| >= 4 { assert s[..4] == Frames(messages)[..4]; }
      }
    }
  }

  /** The peer's decoder reads framed messages up to the first that is longer than
      1 MiB or not readable, and all of them if there is none. */
  lemma {:induction false} AcceptedUpTo(messages: seq<Bytes>, readable: Bytes -> bool, n: nat)
    requires n <= |messages| && forall m | m in messages :: |m| < 0x1_0000_0000
    requires forall i | 0 <= i < n :: |messages[i]| <= 1_048_576 && readable(messages[i])
    requires n < |messages| ==> |messages[n]| > 1_048_576 || !readable(messages[n])
    ensures Accepted(Frames(messages), readable) == messages[..n]
  {
    if messages != [] {
      var m, rest := messages[0], messages[1..];
      assert m in messages && forall x | x in rest :: x in messages;
      FrameDecodes(m, Frames(rest));
      if n > 0 {
        AcceptedUpTo(rest, readable, n - 1);
        assert messages[..n] == [m] + rest[..n - 1];
      }
    }
  }

  function Concat(chunks: seq<Bytes>): Bytes {
    if chunks == [] then [] else chunks[0] + Concat(chunks[1..])
  }

  /** Chunks with any number of waits between them. */
  predicate Delivers(source: seq<Source>, bytes: Bytes) {
    Broken !in source && Received(source) == bytes
  }

  /** The client decoder, over any chunking of any byte prefix of the frames, hands
      out exactly the completely received messages; it then ends cleanly exactly
      at a message boundary. */
  method ClientReceives(messages: seq<Bytes>, n: nat, source: seq<Source>) returns (items: seq<Bytes>, ending: Ending)
    requires forall m | m in messages :: |m| < 0x1_0000_0000
    requires n <= |Frames(messages)| && Delivers(source, Frames(messages)[..n])
    ensures items == CompleteWithin(messages, n)
    ensures ending == Ended <==> Frames(items) == Frames(messages)[..n]
    ensures ending != Failed
  {
    var stream := new LengthPrefixedStream(source);
    assert stream.Ahead() == Frames(messages)[..n];
    PrefixDecodes(messages, n);
    items, ending := Drain(stream);
    DecodeRest(Frames(messages)[..n], messages, n);
  }

  lemma {:induction false} CompleteIsPrefix(messages: seq<Bytes>, n: nat)
    requires n <= |Frames(messages)|
    ensures Frames(CompleteWithin(messages, n)) <= Frames(messages)[..n]
    ensures forall m | m in CompleteWithin(messages, n) :: m in messages
  {
    if messages != [] && |Frame(messages[0])| <= n {
      var f := Frame(messages[0]);
      CompleteIsPrefix(messages[1..], n - |f|);
      var c := CompleteWithin(messages, n);
      assert c[1..] == CompleteWithin(messages[1..], n - |f|);
      assert Frames(messages)[..n] == f + Frames(messages[1..])[..n - |f|];
    }
  }

  lemma OneFrame(message: Bytes, more: Bytes)
    requires |message| < 0x1_0000_0000
    ensures Decode(Frame(message) + more) == [message] + Decode(more)
    ensures Rest(Frame(message) + more) == Rest(more)
  {
    FrameDecodes(message, more);
  }

  lemma FramesThen(messages: seq<Bytes>, t: Bytes)
    requires messages != []
    ensures Frames(messages) + t == Frame(messages[0]) + (Frames(messages[1..]) + t)
  {
  }

  lemma {:induction false} DecodesAll(messages: seq<Bytes>, t: Bytes)
    requires forall m | m in messages :: |m| < 0x1_0000_0000
    ensures Decode(Frames(messages) + t) == messages + Decode(t)
  {
    if messages == [] {
      assert Frames(messages) + t == t;
    } else {
      var m, rest := messages[0], messages[1..];
      var s, d := Frames(rest) + t, Decode(t);
      calc {
        Decode(Frames(messages) + t);
      == { FramesThen(messages, t); }
        Decode(Frame(m) + s);
      == { OneFrame(m, s); }
        [m] + Decode(s);
      == { DecodesAll(rest, t); }
        [m] + (rest + d);
      == { assert messages == [m] + rest; }
        messages + d;
      }
    }
  }

  lemma {:induction false} LeavesRest(messages: seq<Bytes>, t: Bytes)
    requires forall m | m in messages :: |m| < 0x1_0000_0000
    ensures Rest(Frames(messages) + t) == Rest(t)
  {
    if messages == [] {
      assert Frames(messages) + t == t;
    } else {
      LeavesRest(messages[1..], t);
      FramesThen(messages, t);
      OneFrame(messages[0], Frames(messages[1..]) + t);
    }
  }

  lemma {:induction false} NothingDecoded(s: Bytes)
    requires Decode(s) == []
    ensures Rest(s) == s
  {
  }

  lemma DecodeRest(s: Bytes, messages: seq<Bytes>, n: nat)
    requires forall m | m in messages :: |m| < 0x1_0000_0000
    requires n <= |Frames(messages)| && s == Frames(messages)[..n]
    ensures Rest(s) == [] <==> Frames(CompleteWithin(messages, n)) == s
  {
    var c := CompleteWithin(messages, n);
    CompleteIsPrefix(messages, n);
    var t := s[|Frames(c)|..];
    assert s == Frames(c) + t;
    assert forall m | m in c :: |m| < 0x1_0000_0000;
    DecodesAll(c, t);
    LeavesRest(c, t);
    PrefixDecodes(messages, n);
    assert Decode(t) == [] by {
      assert |Decode(s)| == |c| + |Decode(t)|;
    }
    NothingDecoded(t);
  }

  lemma {:induction false} AcceptedIsDecoded(s: Bytes, readable: Bytes -> bool)
    requires forall m | m in Decode(s) :: |m| <= MAX_MESSAGE && readable(m)
    ensures Accepted(s, readable) == Decode(s)
    decreases |s|
  {
    if HasFrame(s) {
      assert Decode(s) == [First(s)] + Decode(AfterFirst(s));
      assert First(s) in Decode(s) && forall m | m in Decode(AfterFirst(s)) :: m in Decode(s);
      AcceptedIsDecoded(AfterFirst(s), readable);
    }
  }

  /** Both decoders yield the same messages on any byte prefix of frames whose
      messages deserialize and are at most 1 MiB. */
  lemma DecodersAgree(messages: seq<Bytes>, n: nat, readable: Bytes -> bool)
    requires forall m | m in messages :: |m| <= MAX_MESSAGE && readable(m)
    requires n <= |Frames(messages)|
    ensures Accepted(Frames(messages)[..n], readable) == CompleteWithin(messages, n) == Decode(Frames(messages)[..n])
  {
    PrefixDecodes(messages, n);
    CompleteIsPrefix(messages, n);
    AcceptedIsDecoded(Frames(messages)[..n], readable);
  }
}
