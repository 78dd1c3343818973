/** What a manual disconnect is for: the peer stays away until the user asks for it
    again. A connect call that is already under way, the handlers' own reconnects
    among them, can bring it back. */
module RegistryDisconnect {
  import opened Registry
  import opened RegistryProofs
  import opened RegistryTheorems

  /** The user asks for the peer: the start of a `connect_to_peer` call other than a
      handler's own. */
  predicate Asks(a: Action, n: Name) {
    a.OfCall? && a.call == Connect(n)
  }

  predicate NobodyAsks(run: seq<Action>, n: Name) {
    forall i | 0 <= i < |run| :: !Asks(run[i], n)
  }

  /** Some run in which the user does not ask for the peer registers a connection. */
  ghost predicate CanReturn(s: State, n: Name) {
    exists run | CanRun(s, run) && NobodyAsks(run, n) ::
      OfName(After(s, run), After(s, run).registered, n) != OfName(s, s.registered, n)
  }

  /** No connect call for the name is waiting for its answer or about to clear the mark. */
  predicate NoCallUnderWay(s: State, n: Name) {
    forall k | k in s.calls && (s.calls[k].Asked? || s.calls[k].Accepted?) :: s.calls[k].name != n
  }

  /** No handler for the name has decided to reconnect, or it will not any more. */
  predicate NoReconnectDecided(s: State, n: Name) {
    s.shuttingDown || forall c | c in s.conns && s.conns[c].name == n :: s.conns[c].phase != Reconnecting
  }

  predicate Away(s: State, n: Name) {
    Quiet(s, n) && NoCallUnderWay(s, n) && NoReconnectDecided(s, n)
  }

  // ------------------------------------------------------------ staying away

  lemma AwayConnStep(s: State, c: Id, step: ConnStep, n: Name)
    requires ConnEnabled(s, c, step) && !step.Register? && Away(s, n)
    ensures var t := ConnApply(s, c, step); NoCallUnderWay(t, n) && NoReconnectDecided(t, n)
  {
    hide Registration, CleanedUp;
    if step.CleanUp? {
      AwayCleanUp(s, c, n);
    }
  }

  lemma AwayCleanUp(s: State, c: Id, n: Name)
    requires ConnEnabled(s, c, CleanUp) && NoCallUnderWay(s, n) && NoReconnectDecided(s, n)
    ensures NoCallUnderWay(CleanedUp(s, c), n) && NoReconnectDecided(CleanedUp(s, c), n)
  {
  }

  lemma AwayRegister(s: State, c: Id, n: Name)
    requires ConnEnabled(s, c, Register) && NoCallUnderWay(s, n) && NoReconnectDecided(s, n)
    ensures NoCallUnderWay(Registration(s, c), n) && NoReconnectDecided(Registration(s, c), n)
  {
  }

  lemma AwayCallStep(s: State, k: Id, step: CallStep, n: Name)
    requires CallEnabled(s, k, step) && step != Connect(n) && NoCallUnderWay(s, n) && NoReconnectDecided(s, n)
    ensures NoCallUnderWay(CallApply(s, k, step), n) && NoReconnectDecided(CallApply(s, k, step), n)
  {
  }

  lemma AwayAttemptStep(s: State, a: Id, step: AttemptStep, n: Name)
    requires AttemptEnabled(s, a, step) && NoCallUnderWay(s, n) && NoReconnectDecided(s, n)
    ensures NoCallUnderWay(AttemptApply(s, a, step), n) && NoReconnectDecided(AttemptApply(s, a, step), n)
  {
  }

  lemma AwayStep(s: State, a: Action, n: Name)
    requires Inv(s) && Enabled(s, a) && Away(s, n) && !Asks(a, n)
    ensures Away(Apply(s, a), n)
    ensures OfName(Apply(s, a), Apply(s, a).registered, n) == OfName(s, s.registered, n)
  {
    hide Inv, Quiet, NoCallUnderWay, NoReconnectDecided;
    assert !ConnectSucceeds(s, a, n) by { NotSucceeding(s, a, n); }
    QuietStep(s, a, n);
    match a
    case OfConn(c, step) => if step.Register? { AwayRegister(s, c, n); } else { AwayConnStep(s, c, step, n); }
    case OfAttempt(a, step) => AwayAttemptStep(s, a, step, n);
    case OfCall(k, step) => AwayCallStep(s, k, step, n);
    case ShutDown => AwayShutDown(s, n);
  }

  lemma NotSucceeding(s: State, a: Action, n: Name)
    requires NoCallUnderWay(s, n)
    ensures !ConnectSucceeds(s, a, n)
  {
  }

  lemma AwayShutDown(s: State, n: Name)
    requires NoCallUnderWay(s, n)
    ensures NoCallUnderWay(Apply(s, ShutDown), n) && NoReconnectDecided(Apply(s, ShutDown), n)
  {
  }

  lemma {:induction false} AwayRun(s: State, run: seq<Action>, n: Name)
    requires Inv(s) && Away(s, n) && CanRun(s, run) && NobodyAsks(run, n)
    ensures OfName(After(s, run), After(s, run).registered, n) == OfName(s, s.registered, n)
    decreases |run|
  {
    hide Inv, Away, Apply, Enabled;
    if run != [] {
      AwayStep(s, run[0], n);
      StepInv(s, run[0]);
      AwayRun(Apply(s, run[0]), run[1..], n);
    }
  }

  // ------------------------------------------------------------- coming back

  lemma ComesReturns(s: State, n: Name)
    requires Comes(s, n)
    ensures CanReturn(s, n)
  {
    var run :| CanRun(s, run) && ConnsOnly(run)
      && OfName(After(s, run), After(s, run).registered, n) != OfName(s, s.registered, n);
    assert NobodyAsks(run, n);
  }

  lemma ReturnsAfter(s: State, a: Action, n: Name)
    requires Enabled(s, a) && !Asks(a, n) && CanReturn(Apply(s, a), n)
    requires OfName(Apply(s, a), Apply(s, a).registered, n) == OfName(s, s.registered, n)
    ensures CanReturn(s, n)
  {
    hide Apply, Enabled;
    var t := Apply(s, a);
    var run :| CanRun(t, run) && NobodyAsks(run, n)
      && OfName(After(t, run), After(t, run).registered, n) != OfName(t, t.registered, n);
    var whole := [a] + run;
    assert whole[1..] == run;
    assert CanRun(s, whole) && NobodyAsks(whole, n) && After(s, whole) == After(t, run);
  }

  lemma AcceptedReturns(s: State, k: Id, n: Name)
    requires Inv(s) && k in s.calls && s.calls[k] == Accepted(n)
    ensures CanReturn(s, n)
  {
    hide Inv, Comes, CanReturn;
    var finish := OfCall(k, FinishConnect);
    StepInv(s, finish);
    NotQuietComes(Apply(s, finish), n);
    ComesReturns(Apply(s, finish), n);
    ReturnsAfter(s, finish, n);
  }

  lemma AskedReturns(s: State, k: Id, n: Name)
    requires Inv(s) && k in s.calls && s.calls[k] == Asked(n)
    ensures CanReturn(s, n)
  {
    hide Inv, CanReturn;
    var answer := OfCall(k, Answer(true));
    StepInv(s, answer);
    AcceptedReturns(Apply(s, answer), k, n);
    ReturnsAfter(s, answer, n);
  }

  lemma ReconnectingReturns(s: State, c: Id, n: Name)
    requires Inv(s) && At(s, c, Reconnecting) && s.conns[c].name == n && !s.shuttingDown
    ensures CanReturn(s, n)
  {
    hide Inv, CanReturn;
    var k := UnusedId(s.calls.Keys);
    var reconnect := OfConn(c, Reconnect(true, k));
    StepInv(s, reconnect);
    AskedReturns(Apply(s, reconnect), k, n);
    ReturnsAfter(s, reconnect, n);
  }

  /** Exactly when the peer stays away until the user asks for it: the name is marked,
      no handler is in the window, no connect call for it is under way, and no handler
      is about to start one. */
  lemma StaysAwayIff(s: State, n: Name)
    requires Inv(s)
    ensures !CanReturn(s, n) <==> Away(s, n)
  {
    hide Inv, Quiet, Comes;
    if Away(s, n) {
      forall run | CanRun(s, run) && NobodyAsks(run, n)
        ensures OfName(After(s, run), After(s, run).registered, n) == OfName(s, s.registered, n)
      {
        AwayRun(s, run, n);
      }
    } else if !Quiet(s, n) {
      NotQuietComes(s, n);
      ComesReturns(s, n);
    } else if !NoCallUnderWay(s, n) {
      var k :| k in s.calls && (s.calls[k].Asked? || s.calls[k].Accepted?) && s.calls[k].name == n;
      if s.calls[k].Asked? { AskedReturns(s, k, n); } else { AcceptedReturns(s, k, n); }
    } else {
      var c :| c in s.conns && s.conns[c].name == n && s.conns[c].phase == Reconnecting;
      ReconnectingReturns(s, c, n);
    }
  }

  lemma MarkChanges(s: State, k: Id)
    requires CallEnabled(s, k, Mark)
    ensures var n, t := s.calls[k].name, CallApply(s, k, Mark);
            && (Quiet(t, n) <==> WindowEmpty(s, n)) && (NoCallUnderWay(t, n) <==> NoCallUnderWay(s, n))
            && (NoReconnectDecided(t, n) <==> NoReconnectDecided(s, n))
  {
    var n, t := s.calls[k].name, CallApply(s, k, Mark);
    assert t.conns == s.conns && n in t.manual;
    forall j | j in s.calls ensures j in t.calls && (j != k ==> t.calls[j] == s.calls[j]) {}
  }

  /** What holds at the moment `disconnect_peer` records the name decides. */
  lemma DisconnectWorksIff(s: State, k: Id)
    requires Inv(s) && CallEnabled(s, k, Mark)
    ensures var n := s.calls[k].name;
            !CanReturn(CallApply(s, k, Mark), n) <==>
            WindowEmpty(s, n) && NoCallUnderWay(s, n) && NoReconnectDecided(s, n)
  {
    hide Inv, CanReturn;
    StepInv(s, OfCall(k, Mark));
    MarkChanges(s, k);
    StaysAwayIff(CallApply(s, k, Mark), s.calls[k].name);
  }

  // ------------------------------------------------------------- an instance

  lemma {:induction false} OneMore(s: State, run: seq<Action>, a: Action)
    requires CanRun(s, run) && Enabled(After(s, run), a)
    ensures CanRun(s, run + [a]) && After(s, run + [a]) == Apply(After(s, run), a)
    decreases |run|
  {
    if run == [] {
      assert run + [a] == [a];
      OneStep(s, a);
    } else {
      assert (run + [a])[1..] == run[1..] + [a];
      OneMore(Apply(s, run[0]), run[1..], a);
    }
  }

  /** The parts of a state that the instance follows. */
  predicate Looks(s: State, conns: map<Id, Conn>, peers: map<Name, Id>, calls: map<Id, Call>, removed: set<Id>) {
    && s.conns == conns && s.peers == peers && s.calls == calls && s.removed == removed
    && s.manual == {} && !s.shuttingDown
  }

  /** A run with which the user has not asked for the peer has come to this. */
  ghost predicate Reached(run: seq<Action>, s: State, n: Name) {
    CanRun(INITIAL, run) && After(INITIAL, run) == s && NobodyAsks(run, n)
  }

  lemma NothingYet(n: Name)
    ensures Reached([], INITIAL, n) && Looks(INITIAL, map[], map[], map[], {})
  {
  }

  lemma Extend(run: seq<Action>, s: State, a: Action, n: Name) returns (longer: seq<Action>, t: State)
    requires Reached(run, s, n) && Enabled(s, a) && !Asks(a, n)
    ensures t == Apply(s, a) && Reached(longer, t, n)
  {
    OneMore(INITIAL, run, a);
    longer, t := run + [a], Apply(s, a);
  }

  /** A connection arrives, passes the check, registers and is served. */
  lemma Serves(run: seq<Action>, s: State, n: Name, c: Id, conns: map<Id, Conn>, calls: map<Id, Call>, removed: set<Id>)
    returns (longer: seq<Action>, t: State)
    requires Reached(run, s, n) && Looks(s, conns, map[], calls, removed) && c !in conns
    ensures Reached(longer, t, n) && Looks(t, conns[c := Conn(n, false, Serving)], map[n := c], calls, removed)
  {
    hide Reached;
    longer, t := Extend(run, s, OfConn(c, Arrive(n)), n);
    assert Looks(t, conns[c := Conn(n, false, Arrived)], map[], calls, removed);
    longer, t := Extend(longer, t, OfConn(c, CheckManual), n);
    assert Looks(t, conns[c := Conn(n, false, Checked)], map[], calls, removed);
    longer, t := Extend(longer, t, OfConn(c, Register), n);
    assert Looks(t, conns[c := Conn(n, false, Registered)], map[n := c], calls, removed);
    longer, t := Extend(longer, t, OfConn(c, ClearManual), n);
  }

  /** It is lost, and its handler takes its entry away. */
  lemma IsLost(run: seq<Action>, s: State, n: Name, c: Id) returns (longer: seq<Action>, t: State)
    requires Reached(run, s, n) && Looks(s, map[c := Conn(n, false, Serving)], map[n := c], map[], {})
    ensures Reached(longer, t, n) && Looks(t, map[c := Conn(n, true, CleanedOwn)], map[], map[], {c})
  {
    hide Reached;
    longer, t := Extend(run, s, OfConn(c, Close), n);
    assert Looks(t, map[c := Conn(n, true, Serving)], map[n := c], map[], {});
    longer, t := Extend(longer, t, OfConn(c, EndLoop), n);
    assert Looks(t, map[c := Conn(n, true, Ended)], map[n := c], map[], {});
    longer, t := Extend(longer, t, OfConn(c, CleanUp), n);
  }

  /** The handler reports the loss. */
  lemma IsReported(run: seq<Action>, s: State, n: Name, c: Id) returns (longer: seq<Action>, t: State)
    requires Reached(run, s, n) && Looks(s, map[c := Conn(n, true, CleanedOwn)], map[], map[], {c})
    ensures Reached(longer, t, n) && Looks(t, map[c := Conn(n, true, Settling)], map[], map[], {c})
  {
    hide Reached;
    longer, t := Extend(run, s, OfConn(c, Report), n);
    assert Looks(t, map[c := Conn(n, true, Reported)], map[], map[], {c});
    longer, t := Extend(longer, t, OfConn(c, LoadShutdown), n);
  }

  /** It asks to reconnect. */
  lemma Reconnects(run: seq<Action>, s: State, n: Name, c: Id, k: Id) returns (longer: seq<Action>, t: State)
    requires Reached(run, s, n) && Looks(s, map[c := Conn(n, true, Settling)], map[], map[], {c})
    ensures Reached(longer, t, n) && Looks(t, map[c := Conn(n, true, Done)], map[], map[k := Asked(n)], {c})
  {
    hide Reached;
    longer, t := Extend(run, s, OfConn(c, CheckReconnect), n);
    assert Looks(t, map[c := Conn(n, true, Reconnecting)], map[], map[], {c});
    longer, t := Extend(longer, t, OfConn(c, Reconnect(true, k)), n);
  }

  /** A second connection is served, a reconnect is asked for, and the user's
      disconnect has looked the peer up. */
  predicate BeforeMark(s: State, n: Name) {
    Looks(s, map[0 := Conn(n, true, Done), 1 := Conn(n, false, Serving)], map[n := 1],
          map[7 := Asked(n), 8 := LookedUp(n, 1)], {0})
  }

  lemma LooksUp(run: seq<Action>, s: State, n: Name) returns (longer: seq<Action>, t: State)
    requires Reached(run, s, n)
    requires Looks(s, map[0 := Conn(n, true, Done)][1 := Conn(n, false, Serving)], map[n := 1], map[7 := Asked(n)], {0})
    ensures Reached(longer, t, n) && BeforeMark(t, n)
  {
    hide Reached;
    longer, t := Extend(run, s, OfCall(8, LookUp(n)), n);
  }

  lemma MarkIsUndone(s: State, n: Name)
    requires Inv(s) && BeforeMark(s, n)
    ensures CallEnabled(s, 8, Mark) && s.calls[8].name == n && WindowEmpty(s, n)
    ensures CanReturn(CallApply(s, 8, Mark), n)
  {
    hide Inv, CanReturn;
    assert s.calls[7] == Asked(n) && !NoCallUnderWay(s, n);
    DisconnectWorksIff(s, 8);
  }

  /** The user disconnects from a peer without ever having asked for it, with no
      handler in the window, and a reconnect that was under way brings it back. */
  lemma ReconnectUndoesDisconnect(n: Name) returns (run: seq<Action>, s: State)
    ensures CanRun(INITIAL, run) && After(INITIAL, run) == s && NobodyAsks(run, n)
    ensures CallEnabled(s, 8, Mark) && s.calls[8].name == n && WindowEmpty(s, n)
    ensures CanReturn(CallApply(s, 8, Mark), n)
  {
    hide CanRun, After, Inv, CanReturn, Looks, BeforeMark, CallApply;
    NothingYet(n);
    run, s := Serves([], INITIAL, n, 0, map[], map[], {});
    assert map[][0 := Conn(n, false, Serving)] == map[0 := Conn(n, false, Serving)];
    run, s := IsLost(run, s, n, 0);
    run, s := IsReported(run, s, n, 0);
    run, s := Reconnects(run, s, n, 0, 7);
    run, s := Serves(run, s, n, 1, map[0 := Conn(n, true, Done)], map[7 := Asked(n)], {0});
    run, s := LooksUp(run, s, n);
    InitialInv();
    RunInv(INITIAL, run);
    MarkIsUndone(s, n);
  }
}
