/** The known-port hole punch: two sides running `hole_punch_peer` against each
    other over a network that loses, duplicates and reorders packets. */
module HolePunch {
  const MAX_ATTEMPTS: nat := 50

  datatype Packet = Init | Ack

  datatype Outcome = Running | Succeeded | MaxAttempts | SendFailed | TimedOut

  /** The local variables of one side. */
  datatype Side = Side(packet: Packet, wait: bool, sentAck: bool, receivedAck: bool, attempts: nat, outcome: Outcome)

  const START := Side(Init, false, false, false, 0, Running)

  /** What one round of the `select!` (or the enclosing timeout) comes up with. A
      packet heard carries one byte; `Noise` is an unrelated sender or a lagging
      channel. */
  datatype Event = Sent | SendError | Heard(data: nat) | Noise | Deadline

  function Step(side: Side, ev: Event): Side {
    match ev
    case Deadline => side.(outcome := TimedOut)
    case SendError => side.(outcome := SendFailed)
    case Sent =>
      if side.packet == Init then
        var attempts := side.attempts + 1;
        if attempts >= MAX_ATTEMPTS then side.(attempts := attempts, outcome := MaxAttempts)
        else side.(attempts := attempts, wait := true)
      else if side.receivedAck then side.(sentAck := true, outcome := Succeeded)
      else side.(sentAck := true, wait := true)
    case Noise => side.(wait := false)
    case Heard(data) =>
      if data == 0 then side.(packet := Ack, wait := false)
      else if data == 1 then
        if side.sentAck then side.(packet := Ack, receivedAck := true, outcome := Succeeded)
        else side.(packet := Ack, receivedAck := true, wait := false)
      else side.(wait := false)
  }

  /** One side's whole run; events after it has ended are not looked at. */
  function RunSide(side: Side, events: seq<Event>): Side
    decreases |events|
  {
    if events == [] || side.outcome != Running then side else RunSide(Step(side, events[0]), events[1..])
  }

  // -------------------------------------------------- when one side succeeds

  /** Before any error or deadline an acknowledgement's sending is seen to complete
      and one is heard, unless that has happened already. */
  predicate CompletesBy(sentAck: bool, receivedAck: bool, events: seq<Event>) {
    && (forall e | e in events :: !e.Deadline? && !e.SendError?)
    && (sentAck || Sent in events)
    && (receivedAck || Heard(1) in events)
  }

  predicate Completes(sentAck: bool, receivedAck: bool, events: seq<Event>) {
    exists n :: 0 <= n <= |events| && CompletesBy(sentAck, receivedAck, events[..n])
  }

  lemma CompletesLater(sentAck: bool, receivedAck: bool, e: Event, rest: seq<Event>)
    requires !(sentAck && receivedAck) && !e.Deadline? && !e.SendError?
    ensures Completes(sentAck, receivedAck, [e] + rest) <==>
              Completes(sentAck || e.Sent?, receivedAck || e == Heard(1), rest)
  {
    var sent, received := sentAck || e.Sent?, receivedAck || e == Heard(1);
    var events := [e] + rest;
    if n :| 0 <= n <= |events| && CompletesBy(sentAck, receivedAck, events[..n]) {
      assert n > 0 && events[..n] == [e] + rest[..n - 1];
      assert CompletesBy(sent, received, rest[..n - 1]);
    }
    if n :| 0 <= n <= |rest| && CompletesBy(sent, received, rest[..n]) {
      assert events[..n + 1] == [e] + rest[..n];
      assert CompletesBy(sentAck, receivedAck, events[..n + 1]);
    }
  }

  lemma CompletesNow(sentAck: bool, receivedAck: bool, events: seq<Event>)
    ensures sentAck && receivedAck ==> Completes(sentAck, receivedAck, events)
    ensures !(sentAck && receivedAck) && (events == [] || events[0].Deadline? || events[0].SendError?) ==>
              !Completes(sentAck, receivedAck, events)
  {
    assert events[..0] == [];
    if n :| 0 <= n <= |events| && CompletesBy(sentAck, receivedAck, events[..n]) {
      if n > 0 { assert events[..n][0] == events[0] && events[0] in events[..n]; }
    }
    assert sentAck && receivedAck ==> CompletesBy(sentAck, receivedAck, events[..0]);
  }

  /** A side that has heard something returns Ok exactly then. */
  lemma {:induction false} AwakeSucceedsIff(side: Side, events: seq<Event>)
    requires side.outcome == Running && side.packet == Ack && !(side.sentAck && side.receivedAck)
    ensures RunSide(side, events).outcome == Succeeded <==> Completes(side.sentAck, side.receivedAck, events)
    decreases |events|
  {
    CompletesNow(side.sentAck, side.receivedAck, events);
    if events != [] && !events[0].Deadline? && !events[0].SendError? {
      var e, rest, next := events[0], events[1..], Step(side, events[0]);
      assert events == [e] + rest;
      CompletesLater(side.sentAck, side.receivedAck, e, rest);
      if next.outcome == Running {
        AwakeSucceedsIff(next, rest);
      } else {
        CompletesNow(next.sentAck, next.receivedAck, rest);
      }
    }
  }

  function Sends(events: seq<Event>): nat {
    if events == [] then 0 else (if events[0].Sent? then 1 else 0) + Sends(events[1..])
  }

  predicate IsPacket(e: Event) {
    e == Heard(0) || e == Heard(1)
  }

  /** Round `m` is the first to hear a packet, in time: no error, no deadline and
      fewer than the permitted number of INITs before it. */
  predicate WakesAt(attempts: nat, events: seq<Event>, m: nat) {
    && m < |events| && IsPacket(events[m])
    && (forall i | 0 <= i < m :: !IsPacket(events[i]) && !events[i].Deadline? && !events[i].SendError?)
    && attempts + Sends(events[..m]) < MAX_ATTEMPTS
  }

  /** Round `m` hears the first packet, and from there on the exchange completes. */
  predicate OkFrom(attempts: nat, events: seq<Event>, m: nat) {
    WakesAt(attempts, events, m) && Completes(false, events[m] == Heard(1), events[m + 1..])
  }

  /** A packet is heard in time, and from there on the exchange completes. */
  predicate ReturnsOk(attempts: nat, events: seq<Event>) {
    exists m :: 0 <= m < |events| && OkFrom(attempts, events, m)
  }

  lemma WakesShift(attempts: nat, e: Event, rest: seq<Event>, m: nat)
    requires !IsPacket(e) && !e.Deadline? && !e.SendError?
    ensures WakesAt(attempts, [e] + rest, m + 1) <==> WakesAt(attempts + Sends([e]), rest, m)
  {
    var events := [e] + rest;
    assert [e][1..] == [];
    if m < |rest| {
      assert events[..m + 1] == [e] + rest[..m] && events[..m + 1][1..] == rest[..m];
      assert forall i | 0 <= i < m :: rest[i] == events[i + 1];
      assert (forall i | 0 <= i < m :: !IsPacket(rest[i]) && !rest[i].Deadline? && !rest[i].SendError?)
        <==> (forall i | 0 <= i < m + 1 :: !IsPacket(events[i]) && !events[i].Deadline? && !events[i].SendError?) by {
        forall i | 0 < i < m + 1 ensures events[i] == rest[i - 1] {}
      }
    }
  }

  lemma OkShift(attempts: nat, after: nat, e: Event, rest: seq<Event>, m: nat)
    requires !IsPacket(e) && !e.Deadline? && !e.SendError? && after == attempts + Sends([e]) && m < |rest|
    ensures OkFrom(attempts, [e] + rest, m + 1) <==> OkFrom(after, rest, m)
  {
    hide Completes;
    var events := [e] + rest;
    WakesShift(attempts, e, rest, m);
    assert events[m + 1] == rest[m] && events[m + 2..] == rest[m + 1..];
  }

  lemma WakesLater(attempts: nat, after: nat, e: Event, rest: seq<Event>)
    requires !IsPacket(e) && !e.Deadline? && !e.SendError? && after == attempts + Sends([e])
    ensures ReturnsOk(attempts, [e] + rest) <==> ReturnsOk(after, rest)
  {
    hide OkFrom;
    var events := [e] + rest;
    NotAtFirst(attempts, events);
    if m :| 0 <= m < |events| && OkFrom(attempts, events, m) {
      OkShift(attempts, after, e, rest, m - 1);
    }
    if m :| 0 <= m < |rest| && OkFrom(after, rest, m) {
      OkShift(attempts, after, e, rest, m);
    }
  }

  lemma NotAtFirst(attempts: nat, events: seq<Event>)
    requires events != [] && !IsPacket(events[0])
    ensures !OkFrom(attempts, events, 0)
  {
  }

  lemma WakesNow(attempts: nat, events: seq<Event>)
    requires events != [] && IsPacket(events[0]) && attempts < MAX_ATTEMPTS
    ensures ReturnsOk(attempts, events) <==> Completes(false, events[0] == Heard(1), events[1..])
  {
    assert events[..0] == [];
    assert WakesAt(attempts, events, 0);
    assert Completes(false, events[0] == Heard(1), events[1..]) ==> OkFrom(attempts, events, 0);
    if m :| 0 <= m < |events| && OkFrom(attempts, events, m) {
      assert m == 0;
    }
  }

  lemma NeverOk(attempts: nat, events: seq<Event>)
    requires attempts >= MAX_ATTEMPTS || events == [] || events[0].Deadline? || events[0].SendError?
    ensures !ReturnsOk(attempts, events)
  {
  }

  /** A side that has heard nothing yet returns Ok exactly then. */
  lemma {:induction false} AsleepSucceedsIff(side: Side, events: seq<Event>)
    requires side.outcome == Running && side.packet == Init && !side.sentAck && !side.receivedAck
    requires side.attempts < MAX_ATTEMPTS
    ensures RunSide(side, events).outcome == Succeeded <==> ReturnsOk(side.attempts, events)
    decreases |events|
  {
    hide OkFrom, ReturnsOk, Completes;
    if events != [] && !events[0].Deadline? && !events[0].SendError? {
      var e, rest, next := events[0], events[1..], Step(side, events[0]);
      assert events == [e] + rest;
      if IsPacket(e) {
        WakesNow(side.attempts, events);
        AwakeSucceedsIff(next, rest);
      } else {
        assert [e][1..] == [] && Sends([e]) == if e.Sent? then 1 else 0;
        WakesLater(side.attempts, next.attempts, e, rest);
        if next.outcome == Running { AsleepSucceedsIff(next, rest); } else { NeverOk(next.attempts, rest); }
      }
    } else {
      NeverOk(side.attempts, events);
    }
  }

  /** The loop of `hole_punch_peer` on the rounds its environment decides, with the
      packets whose sending it saw completed. The 120 second limit ends it when no
      further round is decided. */
  method HolePunchPeer(events: seq<Event>) returns (outcome: Outcome, sent: seq<Packet>)
    ensures var end := RunSide(START, events);
            outcome == if end.outcome == Running then TimedOut else end.outcome
    ensures outcome == Succeeded <==> ReturnsOk(0, events)
    ensures outcome == Succeeded ==> Ack in sent && Heard(1) in events
    ensures outcome == MaxAttempts ==> Ack !in sent && |sent| == MAX_ATTEMPTS
  {
    AsleepSucceedsIff(START, events);
    sent := [];
    var packet, wait, sentAck, receivedAck, attempts := Init, false, false, false, 0;
    for i := 0 to |events|
      invariant RunSide(START, events) ==
                  RunSide(Side(packet, wait, sentAck, receivedAck, attempts, Running), events[i..])
      invariant attempts < MAX_ATTEMPTS
      invariant sentAck ==> Ack in sent
      invariant receivedAck ==> Heard(1) in events
      invariant packet == Init ==> Ack !in sent && |sent| == attempts
    {
      assert events[i..][0] == events[i] && events[i..][1..] == events[i + 1..];
      match events[i] {
        case Deadline => return TimedOut, sent;
        case SendError => return SendFailed, sent;
        case Sent =>
          sent := sent + [packet];
          if packet == Init {
            attempts := attempts + 1;
            if attempts >= MAX_ATTEMPTS { return MaxAttempts, sent; }
          } else {
            sentAck := true;
            if receivedAck { return Succeeded, sent; }
          }
          wait := true;
        case Heard(data) =>
          if data == 0 {
            packet := Ack;
          } else if data == 1 {
            packet := Ack;
            receivedAck := true;
            if sentAck { return Succeeded, sent; }
          }
          wait := false;
        case Noise =>
          wait := false;
      }
    }
    return TimedOut, sent;
  }

  /** A decided outcome is final; a running side follows the next round, and a send
      error or the deadline ends it. */
  lemma {:induction false} NextRound(side: Side, events: seq<Event>, e: Event)
    ensures var (end, more) := (RunSide(side, events), RunSide(side, events + [e]));
            && (end.outcome != Running ==> more == end)
            && (end.outcome == Running && e == Deadline ==> more.outcome == TimedOut)
            && (end.outcome == Running && e == SendError ==> more.outcome == SendFailed)
            && (end.outcome == Running && e == Noise ==> more.outcome == Running && more.packet == end.packet)
            && (end.outcome == Running && e == Heard(0) ==> more.outcome == Running && more.packet == Ack)
            && (end.outcome == Running && more.outcome == Running ==> (more.wait <==> e == Sent))
    decreases |events|
  {
    if events == [] {
      assert (events + [e])[1..] == [];
    } else if side.outcome == Running {
      assert (events + [e])[1..] == events[1..] + [e];
      NextRound(Step(side, events[0]), events[1..], e);
    }
  }

  /** A side that is never answered gives up with the fiftieth packet it sends. */
  lemma {:induction false} GivesUpIff(side: Side, events: seq<Event>)
    requires side.outcome == Running && side.packet == Init && side.attempts < 50
    requires forall e | e in events :: !IsPacket(e) && !e.Deadline? && !e.SendError?
    ensures var end := RunSide(side, events);
            && (end.outcome == MaxAttempts <==> side.attempts + Sends(events) >= 50)
            && (end.outcome == Running <==> side.attempts + Sends(events) < 50)
    decreases |events|
  {
    if events != [] {
      assert events[0] in events && forall e | e in events[1..] :: e in events;
      var next := Step(side, events[0]);
      if next.outcome == Running { GivesUpIff(next, events[1..]); }
    }
  }

  // ------------------------------------------------------- the two parties

  /** `sent` is what a side has ever put on the network: any of it may arrive any
      number of times, in any order, or never. `heard` is what has arrived. */
  datatype Party = Party(side: Side, sent: set<Packet>, heard: set<Packet>)

  datatype Net = Net(left: Party, right: Party)

  const FRESH := Net(Party(START, {}, {}), Party(START, {}, {}))

  /** One side's round. If another branch wins, the packet being sent may still go
      out (`leak`), at once or later. */
  datatype Turn = Turn(onLeft: bool, ev: Event, leak: bool)

  predicate PartyEnabled(me: Party, other: Party, t: Turn) {
    && me.side.outcome == Running
    && (t.ev.Heard? && t.ev.data == 0 ==> Init in other.sent)
    && (t.ev.Heard? && t.ev.data == 1 ==> Ack in other.sent)
  }

  function PartyStep(me: Party, t: Turn): Party {
    Party(
      Step(me.side, t.ev),
      if t.ev.Sent? || t.leak then me.sent + {me.side.packet} else me.sent,
      if t.ev == Heard(0) then me.heard + {Init} else if t.ev == Heard(1) then me.heard + {Ack} else me.heard)
  }

  predicate Enabled(n: Net, t: Turn) {
    if t.onLeft then PartyEnabled(n.left, n.right, t) else PartyEnabled(n.right, n.left, t)
  }

  function Apply(n: Net, t: Turn): Net {
    if t.onLeft then Net(PartyStep(n.left, t), n.right) else Net(n.left, PartyStep(n.right, t))
  }

  predicate CanRun(n: Net, run: seq<Turn>)
    decreases |run|
  {
    run == [] || (Enabled(n, run[0]) && CanRun(Apply(n, run[0]), run[1..]))
  }

  function After(n: Net, run: seq<Turn>): Net
    decreases |run|
  {
    if run == [] then n else After(Apply(n, run[0]), run[1..])
  }

  /** What is always true of one party. */
  predicate PartyOk(me: Party) {
    var side := me.side;
    && (side.packet == Ack <==> me.heard != {})
    && (side.receivedAck <==> Ack in me.heard)
    && (side.sentAck ==> Ack in me.sent)
    && (Ack in me.sent ==> me.heard != {})
    && (side.outcome == Succeeded ==> side.sentAck && side.receivedAck)
    && (side.outcome == MaxAttempts ==> me.heard == {})
    && (side.outcome == Running ==> !(side.sentAck && side.receivedAck))
    && side.attempts <= MAX_ATTEMPTS
  }

  predicate Inv(n: Net) {
    PartyOk(n.left) && PartyOk(n.right) && n.left.heard <= n.right.sent && n.right.heard <= n.left.sent
  }

  /** A running side has attempts left. */
  predicate Bounded(n: Net) {
    && (n.left.side.outcome == Running ==> n.left.side.attempts < MAX_ATTEMPTS)
    && (n.right.side.outcome == Running ==> n.right.side.attempts < MAX_ATTEMPTS)
  }

  lemma StepInv(n: Net, t: Turn)
    requires Inv(n) && Bounded(n) && Enabled(n, t)
    ensures Inv(Apply(n, t)) && Bounded(Apply(n, t))
  {
    if t.onLeft { assert n.left.heard <= n.right.sent; } else { assert n.right.heard <= n.left.sent; }
  }

  lemma {:induction false} RunInv(n: Net, run: seq<Turn>)
    requires Inv(n) && Bounded(n) && CanRun(n, run)
    ensures Inv(After(n, run)) && Bounded(After(n, run))
    decreases |run|
  {
    if run != [] {
      StepInv(n, run[0]);
      RunInv(Apply(n, run[0]), run[1..]);
    }
  }

  /** Main result: in every run, once the left side has returned Ok each side has
      received a packet from the other, and the right side is past sending INIT and
      has not failed with `MaxAttempts`. */
  lemma SuccessMeansBothHeard(run: seq<Turn>)
    requires CanRun(FRESH, run)
    ensures var n := After(FRESH, run);
            n.left.side.outcome == Succeeded ==>
              && Ack in n.left.heard && n.right.heard != {}
              && n.right.side.packet == Ack && n.right.side.outcome != MaxAttempts
    ensures var n := After(FRESH, run);
            n.right.side.outcome == Succeeded ==>
              && Ack in n.right.heard && n.left.heard != {}
              && n.left.side.packet == Ack && n.left.side.outcome != MaxAttempts
  {
    RunInv(FRESH, run);
  }

  function SideOf(n: Net, left: bool): Party {
    if left then n.left else n.right
  }

  /** A side that has heard anything never sends INIT again: its attempts stand
      still and it cannot come to fail with `MaxAttempts`. */
  lemma {:induction false} AckSideStaysAck(n: Net, run: seq<Turn>, left: bool)
    requires CanRun(n, run)
    requires SideOf(n, left).side.packet == Ack && SideOf(n, left).side.outcome != MaxAttempts
    ensures var was, now := SideOf(n, left), SideOf(After(n, run), left);
            && now.side.packet == Ack && now.side.attempts == was.side.attempts
            && now.side.outcome != MaxAttempts
            && (Init in now.sent ==> Init in was.sent)
    decreases |run|
  {
    if run != [] { AckSideStaysAck(Apply(n, run[0]), run[1..], left); }
  }

  /** The rounds of one side of a run. */
  function EventsOf(run: seq<Turn>, left: bool): seq<Event> {
    if run == [] then []
    else (if run[0].onLeft == left then [run[0].ev] else []) + EventsOf(run[1..], left)
  }

  lemma {:induction false} SideRuns(n: Net, run: seq<Turn>, left: bool)
    requires CanRun(n, run)
    ensures SideOf(After(n, run), left).side == RunSide(SideOf(n, left).side, EventsOf(run, left))
    decreases |run|
  {
    if run != [] {
      var me, rest := SideOf(n, left), EventsOf(run[1..], left);
      SideRuns(Apply(n, run[0]), run[1..], left);
      if run[0].onLeft == left {
        var events := [run[0].ev] + rest;
        assert EventsOf(run, left) == events && events[1..] == rest;
        assert SideOf(Apply(n, run[0]), left).side == Step(me.side, run[0].ev);
        assert RunSide(me.side, events) == RunSide(Step(me.side, run[0].ev), rest);
      } else {
        assert EventsOf(run, left) == rest && SideOf(Apply(n, run[0]), left) == me;
      }
    }
  }

  /** In every run each side has returned Ok exactly when its own rounds say so. */
  lemma BothSucceedIff(run: seq<Turn>)
    requires CanRun(FRESH, run)
    ensures var n := After(FRESH, run);
            && (n.left.side.outcome == Succeeded <==> ReturnsOk(0, EventsOf(run, true)))
            && (n.right.side.outcome == Succeeded <==> ReturnsOk(0, EventsOf(run, false)))
  {
    SideRuns(FRESH, run, true);
    SideRuns(FRESH, run, false);
    AsleepSucceedsIff(START, EventsOf(run, true));
    AsleepSucceedsIff(START, EventsOf(run, false));
  }

  /** Exactly when a success on one side is matched on the other: once one side has
      returned Ok, the other, however the run goes on, does if and only if it still
      sees an acknowledgement sent and hears one, where it has not yet, before an
      error or its deadline. */
  lemma SecondSideSucceedsIff(run: seq<Turn>, more: seq<Turn>, left: bool)
    requires CanRun(FRESH, run) && CanRun(After(FRESH, run), more)
    requires SideOf(After(FRESH, run), left).side.outcome == Succeeded
    requires SideOf(After(FRESH, run), !left).side.outcome == Running
    ensures var n := After(FRESH, run);
            var other := SideOf(n, !left).side;
            (SideOf(After(n, more), !left).side.outcome == Succeeded) <==>
            Completes(other.sentAck, other.receivedAck, EventsOf(more, !left))
  {
    var n := After(FRESH, run);
    RunInv(FRESH, run);
    SideRuns(n, more, !left);
    AwakeSucceedsIff(SideOf(n, !left).side, EventsOf(more, !left));
  }

  lemma LastSteps(n: Net, left: bool) returns (run: seq<Turn>)
    requires Inv(n) && SideOf(n, left).side.outcome == Succeeded && SideOf(n, !left).side.outcome == Running
    ensures CanRun(n, run) && forall t | t in run :: t.onLeft == !left
    ensures SideOf(After(n, run), !left).side.outcome == Succeeded
  {
    var hear, send := Turn(!left, Heard(1), false), Turn(!left, Sent, false);
    if SideOf(n, !left).side.sentAck {
      run := [hear];
      assert run[1..] == [];
    } else {
      run := [hear, send];
      assert run[1..] == [send] && [send][1..] == [];
      var m := Apply(n, hear);
      assert After(m, [send]) == Apply(m, send) by { assert After(Apply(m, send), []) == Apply(m, send); }
    }
  }

  /** Success can always spread: whenever one side has returned Ok while the other
      still runs, that one can succeed on acknowledgements already on the network. */
  lemma SuccessSpreads(run: seq<Turn>, left: bool) returns (more: seq<Turn>)
    requires CanRun(FRESH, run)
    requires SideOf(After(FRESH, run), left).side.outcome == Succeeded
    requires SideOf(After(FRESH, run), !left).side.outcome == Running
    ensures CanRun(After(FRESH, run), more) && forall t | t in more :: t.onLeft == !left
    ensures SideOf(After(After(FRESH, run), more), !left).side.outcome == Succeeded
  {
    RunInv(FRESH, run);
    more := LastSteps(After(FRESH, run), left);
  }

  /** And it can always fail to: the other may hear nothing more and time out. */
  lemma SuccessMayStayAlone(run: seq<Turn>, left: bool) returns (more: seq<Turn>)
    requires CanRun(FRESH, run)
    requires SideOf(After(FRESH, run), left).side.outcome == Succeeded
    requires SideOf(After(FRESH, run), !left).side.outcome == Running
    ensures CanRun(After(FRESH, run), more)
    ensures var end := After(After(FRESH, run), more);
            SideOf(end, left).side.outcome == Succeeded && SideOf(end, !left).side.outcome == TimedOut
  {
    var n := After(FRESH, run);
    more := [Turn(!left, Deadline, false)];
    assert more[1..] == [];
    assert After(Apply(n, more[0]), []) == Apply(n, more[0]);
  }

  lemma {:induction false} RunsAppend(n: Net, run: seq<Turn>, more: seq<Turn>)
    requires CanRun(n, run) && CanRun(After(n, run), more)
    ensures CanRun(n, run + more) && After(n, run + more) == After(After(n, run), more)
    decreases |run|
  {
    if run == [] {
      assert run + more == more;
    } else {
      assert (run + more)[1..] == run[1..] + more;
      RunsAppend(Apply(n, run[0]), run[1..], more);
    }
  }

  /** An instance: a run in which one side returns Ok and the other times out. */
  lemma SuccessCanBeOneSided() returns (run: seq<Turn>)
    ensures CanRun(FRESH, run)
    ensures After(FRESH, run).left.side.outcome == Succeeded && After(FRESH, run).right.side.outcome == TimedOut
  {
    var r1 := [Turn(true, Sent, false)];
    var r2 := [Turn(true, Heard(1), false)] + r1;
    var r3 := [Turn(false, Sent, false)] + r2;
    var r4 := [Turn(false, Heard(0), false)] + r3;
    var first := [Turn(true, Sent, false)] + r4;
    assert first[1..] == r4 && r4[1..] == r3 && r3[1..] == r2 && r2[1..] == r1 && r1[1..] == [];
    var n1 := Apply(FRESH, first[0]);
    var n2 := Apply(n1, r4[0]);
    var n3 := Apply(n2, r3[0]);
    var n4 := Apply(n3, r2[0]);
    var n5 := Apply(n4, r1[0]);
    assert After(n5, []) == n5 && After(n4, r1) == n5 && After(n3, r2) == n5;
    assert After(n2, r3) == n5 && After(n1, r4) == n5;
    assert CanRun(n5, []) && CanRun(n4, r1) && CanRun(n3, r2) && CanRun(n2, r3) && CanRun(n1, r4);
    var more := SuccessMayStayAlone(first, true);
    RunsAppend(FRESH, first, more);
    run := first + more;
  }
}
