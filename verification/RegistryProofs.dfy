/** What every interleaving of registry steps keeps. */
module RegistryProofs {
  import opened Registry

  // ------------------------------------------------------ connection steps

  /** `t` differs from `s` at most in what it says of connection `c`. */
  ghost predicate OnlyAbout(s: State, t: State, c: Id) {
    && t.conns.Keys == s.conns.Keys + {c}
    && (forall d | d in s.conns && d != c :: t.conns[d] == s.conns[d] && (Current(t, d) <==> Current(s, d)))
    && (forall d | d != c ::
          && (d in t.registered <==> d in s.registered)
          && (d in t.replaced <==> d in s.replaced)
          && (d in t.removed <==> d in s.removed))
    && (forall d | d != c :: (d in t.reported <==> d in s.reported) && (d in t.reconnected <==> d in s.reconnected))
  }

  lemma Locally(s: State, t: State, c: Id)
    requires ConnInv(s) && OnlyAbout(s, t, c)
    requires Known(t) && Distinct(t.reported) && Distinct(t.reconnected) && ConnOk(t, c)
    ensures ConnInv(t)
  {
    forall d | d in t.conns ensures ConnOk(t, d) {
      if d != c { assert ConnOk(s, d); }
    }
  }

  /** Steps that touch no connection, entry or connection history. */
  lemma FrameConn(s: State, t: State)
    requires ConnInv(s)
    requires t.conns == s.conns && t.peers == s.peers
    requires t.registered == s.registered && t.replaced == s.replaced && t.removed == s.removed
    requires t.reported == s.reported && t.reconnected == s.reconnected
    ensures ConnInv(t)
  {
    forall d | d in t.conns ensures ConnOk(t, d) { assert ConnOk(s, d); }
  }

  lemma ShutConn(s: State, c: Id)
    requires ConnInv(s) && c in s.conns
    ensures ConnInv(Shut(s, c))
  {
    assert ConnOk(s, c);
    Locally(s, Shut(s, c), c);
  }

  lemma ArriveConn(s: State, c: Id, name: Name)
    requires ConnInv(s) && c !in s.conns
    ensures ConnInv(ConnApply(s, c, Arrive(name)))
  {
    Locally(s, ConnApply(s, c, Arrive(name)), c);
  }

  /** A change of phase is safe if it is safe for the connection itself. */
  lemma MoveConn(s: State, c: Id, phase: Phase)
    requires ConnInv(s) && c in s.conns && ConnOk(Move(s, c, phase), c)
    ensures ConnInv(Move(s, c, phase))
  {
    Locally(s, Move(s, c, phase), c);
  }

  lemma CheckManualConn(s: State, c: Id)
    requires ConnInv(s) && ConnEnabled(s, c, CheckManual)
    ensures ConnInv(ConnApply(s, c, CheckManual))
  {
    assert ConnOk(s, c);
    if s.conns[c].name in s.manual {
      ShutConn(s, c);
      MoveConn(Shut(s, c), c, Done);
    } else {
      MoveConn(s, c, Checked);
    }
  }

  lemma RegisterConn(s: State, c: Id)
    requires ConnInv(s) && ConnEnabled(s, c, Register)
    ensures ConnInv(Registration(s, c))
  {
    var name := s.conns[c].name;
    if name in s.peers && !s.conns[s.peers[name]].closed {
      RefuseConn(s, c);
    } else if name in s.peers {
      ReplaceConn(s, c);
    } else {
      EnterConn(s, c);
    }
  }

  lemma EnterConn(s: State, c: Id)
    requires ConnInv(s) && ConnEnabled(s, c, Register) && s.conns[c].name !in s.peers
    ensures ConnInv(Registration(s, c))
  {
    assert ConnOk(s, c);
    Locally(s, Registration(s, c), c);
  }

  lemma RefuseConn(s: State, c: Id)
    requires ConnInv(s) && ConnEnabled(s, c, Register)
    requires s.conns[c].name in s.peers && !s.conns[s.peers[s.conns[c].name]].closed
    ensures ConnInv(Registration(s, c))
  {
    assert ConnOk(s, c);
    ShutConn(s, c);
    MoveConn(Shut(s, c), c, Done);
  }

  /** The newcomer takes over a closed connection's entry. */
  lemma ReplaceConn(s: State, c: Id)
    requires ConnInv(s) && ConnEnabled(s, c, Register)
    requires s.conns[c].name in s.peers && s.conns[s.peers[s.conns[c].name]].closed
    ensures ConnInv(Registration(s, c))
  {
    var name := s.conns[c].name;
    var old_ := s.peers[name];
    var t := Registration(s, c);
    assert ConnOk(s, c) && ConnOk(s, old_);
    assert c != old_;
    forall d | d in t.conns ensures ConnOk(t, d) {
      assert ConnOk(s, d);
      assert d != c && d != old_ ==> (Current(t, d) <==> Current(s, d));
    }
  }

  lemma CleanUpConn(s: State, c: Id)
    requires ConnInv(s) && ConnEnabled(s, c, CleanUp)
    ensures ConnInv(CleanedUp(s, c))
  {
    assert ConnOk(s, c);
    if Current(s, c) { LeaveConn(s, c); } else { MoveConn(s, c, CleanedOther); }
  }

  lemma LeaveConn(s: State, c: Id)
    requires ConnInv(s) && ConnEnabled(s, c, CleanUp) && Current(s, c)
    ensures ConnInv(CleanedUp(s, c))
  {
    assert ConnOk(s, c);
    var t := CleanedUp(s, c);
    assert forall d | d in s.conns && d != c :: Current(t, d) <==> Current(s, d);
    Locally(s, t, c);
  }

  lemma ReportConn(s: State, c: Id)
    requires ConnInv(s) && ConnEnabled(s, c, Report)
    ensures ConnInv(ConnApply(s, c, Report))
  {
    assert ConnOk(s, c);
    Locally(s, ConnApply(s, c, Report), c);
  }

  lemma ReconnectConn(s: State, c: Id, hasAddress: bool, call: Id)
    requires ConnInv(s) && ConnEnabled(s, c, Reconnect(hasAddress, call))
    ensures ConnInv(ConnApply(s, c, Reconnect(hasAddress, call)))
  {
    assert ConnOk(s, c);
    Locally(s, ConnApply(s, c, Reconnect(hasAddress, call)), c);
  }

  /** Steps inside and after the stay in the registry. */
  lemma AdvanceConn(s: State, c: Id, step: ConnStep)
    requires ConnInv(s) && ConnEnabled(s, c, step)
    requires step.ClearManual? || step.EndLoop? || step.LoadShutdown? || step.CheckReconnect?
    ensures ConnInv(ConnApply(s, c, step))
  {
    assert ConnOk(s, c);
    var t := ConnApply(s, c, step);
    MoveConn(s, c, t.conns[c].phase);
    FrameConn(Move(s, c, t.conns[c].phase), t);
  }

  lemma ConnStepConn(s: State, c: Id, step: ConnStep)
    requires ConnInv(s) && ConnEnabled(s, c, step)
    ensures ConnInv(ConnApply(s, c, step))
  {
    match step
    case Arrive(name) => ArriveConn(s, c, name);
    case Close => ShutConn(s, c);
    case CheckManual => CheckManualConn(s, c);
    case Register => RegisterConn(s, c);
    case CleanUp => CleanUpConn(s, c);
    case Report => ReportConn(s, c);
    case Reconnect(hasAddress, call) => ReconnectConn(s, c, hasAddress, call);
    case _ => AdvanceConn(s, c, step);
  }

  lemma CallStepConn(s: State, k: Id, step: CallStep)
    requires ConnInv(s) && CallEnabled(s, k, step)
    ensures ConnInv(CallApply(s, k, step))
  {
    if step.CloseMarked? {
      ShutConn(s, s.calls[k].conn);
      FrameConn(Shut(s, s.calls[k].conn), CallApply(s, k, step));
    } else {
      FrameConn(s, CallApply(s, k, step));
    }
  }

  lemma AttemptStepConn(s: State, a: Id, step: AttemptStep)
    requires ConnInv(s) && AttemptEnabled(s, a, step)
    ensures ConnInv(AttemptApply(s, a, step))
  {
    hide ConnInv;
    AttemptStepFrame(s, a, step);
    FrameConn(s, AttemptApply(s, a, step));
  }

  /** Attempts touch no connection, entry or connection history. */
  lemma AttemptStepFrame(s: State, a: Id, step: AttemptStep)
    requires AttemptEnabled(s, a, step)
    ensures var t := AttemptApply(s, a, step);
            && t.conns == s.conns && t.peers == s.peers
            && t.registered == s.registered && t.replaced == s.replaced && t.removed == s.removed
            && t.reported == s.reported && t.reconnected == s.reconnected
  {
  }

  lemma StepConn(s: State, a: Action)
    requires ConnInv(s) && Enabled(s, a)
    ensures ConnInv(Apply(s, a))
  {
    match a
    case OfConn(c, step) => ConnStepConn(s, c, step);
    case OfAttempt(a, step) => AttemptStepConn(s, a, step);
    case OfCall(k, step) => CallStepConn(s, k, step);
    case ShutDown => FrameConn(s, s.(shuttingDown := true));
  }

  // -------------------------------------------------------- attempt steps

  lemma FramePending(s: State, t: State)
    requires PendingIsHeld(s) && t.pending == s.pending && t.attempts == s.attempts
    ensures PendingIsHeld(t)
  {
    forall n | n in t.pending ensures exists a :: a in t.attempts && Holds(t, a, n) {
      var a :| a in s.attempts && Holds(s, a, n);
      assert Holds(t, a, n);
    }
    forall a | a in t.attempts ensures Holds(t, a, t.attempts[a].name) == Holds(s, a, s.attempts[a].name) { }
    forall a, b | a in t.attempts && b in t.attempts
                  && Holds(t, a, t.attempts[a].name) && Holds(t, b, t.attempts[a].name)
      ensures a == b
    {
      assert Holds(s, a, s.attempts[a].name) && Holds(s, b, s.attempts[a].name);
    }
  }

  /** A step of one attempt that neither takes nor gives up the reservation. */
  lemma MoveAttemptPending(s: State, a: Id, phase: AttemptPhase)
    requires PendingIsHeld(s) && a in s.attempts
    requires (s.attempts[a].phase == Holding || s.attempts[a].phase == AttemptPhase.Returned)
        <==> (phase == Holding || phase == AttemptPhase.Returned)
    ensures PendingIsHeld(MoveAttempt(s, a, phase))
  {
    var t := MoveAttempt(s, a, phase);
    assert forall b, n :: Holds(t, b, n) <==> Holds(s, b, n);
  }

  lemma BeginPending(s: State, a: Id, name: Name)
    requires PendingIsHeld(s) && a !in s.attempts
    ensures PendingIsHeld(AttemptApply(s, a, Begin(name)))
  {
    var t := AttemptApply(s, a, Begin(name));
    assert forall b, n :: Holds(t, b, n) <==> Holds(s, b, n);
  }

  lemma ReservePending(s: State, a: Id)
    requires PendingIsHeld(s) && AttemptEnabled(s, a, Reserve) && s.attempts[a].name !in s.pending
    ensures PendingIsHeld(AttemptApply(s, a, Reserve))
  {
    var t := AttemptApply(s, a, Reserve);
    var name := s.attempts[a].name;
    assert forall b, n :: Holds(t, b, n) <==> Holds(s, b, n) || (b == a && n == name);
    assert Holds(t, a, name);
  }

  lemma ReleasePending(s: State, a: Id)
    requires PendingIsHeld(s) && AttemptEnabled(s, a, Release)
    ensures PendingIsHeld(AttemptApply(s, a, Release))
  {
    var t := AttemptApply(s, a, Release);
    var name := s.attempts[a].name;
    assert Holds(s, a, name);
    assert forall b, n :: Holds(t, b, n) <==> Holds(s, b, n) && b != a;
  }

  lemma AttemptStepPending(s: State, a: Id, step: AttemptStep)
    requires PendingIsHeld(s) && AttemptEnabled(s, a, step)
    ensures PendingIsHeld(AttemptApply(s, a, step))
  {
    match step
    case Begin(name) => BeginPending(s, a, name);
    case CheckPending => MoveAttemptPending(s, a, if s.attempts[a].name in s.pending then Skipped else SawNotPending);
    case CheckPeers => MoveAttemptPending(s, a, if s.attempts[a].name in s.peers then Skipped else SawNotConnected);
    case Reserve =>
      if s.attempts[a].name in s.pending { MoveAttemptPending(s, a, Skipped); } else { ReservePending(s, a); }
    case Return => MoveAttemptPending(s, a, AttemptPhase.Returned);
    case Release => ReleasePending(s, a);
  }

  lemma ConnStepFrame(s: State, c: Id, step: ConnStep)
    requires ConnEnabled(s, c, step)
    ensures ConnApply(s, c, step).pending == s.pending && ConnApply(s, c, step).attempts == s.attempts
    ensures !step.Reconnect? ==> ConnApply(s, c, step).calls == s.calls
  {
    match step
    case Register => assert ConnApply(s, c, step) == Registration(s, c);
    case CleanUp => assert ConnApply(s, c, step) == CleanedUp(s, c);
    case _ =>
  }

  lemma CallStepFrame(s: State, k: Id, step: CallStep)
    requires CallEnabled(s, k, step)
    ensures CallApply(s, k, step).pending == s.pending && CallApply(s, k, step).attempts == s.attempts
  {
  }

  lemma StepPending(s: State, a: Action)
    requires PendingIsHeld(s) && Enabled(s, a)
    ensures PendingIsHeld(Apply(s, a))
  {
    match a
    case OfConn(c, step) =>
      ConnStepFrame(s, c, step);
      FramePending(s, ConnApply(s, c, step));
    case OfAttempt(a, step) => AttemptStepPending(s, a, step);
    case OfCall(k, step) =>
      CallStepFrame(s, k, step);
      FramePending(s, CallApply(s, k, step));
    case ShutDown => FramePending(s, s.(shuttingDown := true));
  }

  // -------------------------------------------------------------- all runs

  /** Connections are never forgotten, renamed or reopened. */
  predicate ConnsStay(s: State, t: State) {
    forall c | c in s.conns ::
      c in t.conns && t.conns[c].name == s.conns[c].name && (s.conns[c].closed ==> t.conns[c].closed)
  }

  lemma RegisterStays(s: State, c: Id)
    requires ConnEnabled(s, c, Register)
    ensures ConnsStay(s, Registration(s, c))
  {
  }

  lemma ConnStepStays(s: State, c: Id, step: ConnStep)
    requires ConnEnabled(s, c, step)
    ensures ConnsStay(s, ConnApply(s, c, step))
  {
    if step.Register? { RegisterStays(s, c); }
  }

  lemma ConnStepCalls(s: State, c: Id, step: ConnStep)
    requires CallsKnown(s) && ConnEnabled(s, c, step)
    ensures CallsKnown(ConnApply(s, c, step))
  {
    ConnStepStays(s, c, step);
    ConnStepFrame(s, c, step);
  }

  lemma CallStepCalls(s: State, k: Id, step: CallStep)
    requires CallsKnown(s) && Known(s) && CallEnabled(s, k, step)
    ensures CallsKnown(CallApply(s, k, step))
  {
  }

  lemma StepCalls(s: State, a: Action)
    requires CallsKnown(s) && Known(s) && Enabled(s, a)
    ensures CallsKnown(Apply(s, a))
  {
    match a
    case OfConn(c, step) => ConnStepCalls(s, c, step);
    case OfAttempt(a, step) =>
    case OfCall(k, step) => CallStepCalls(s, k, step);
    case ShutDown =>
  }

  lemma StepInv(s: State, a: Action)
    requires Inv(s) && Enabled(s, a)
    ensures Inv(Apply(s, a))
  {
    StepConn(s, a);
    StepPending(s, a);
    StepCalls(s, a);
  }
}
