/** What each step of the registry does, read from its result: which connections are
    closed, which entries change hands, which names are marked or pending, and what
    becomes of a handler whose connection is lost. */
module RegistryEffects {
  import opened Registry
  import opened RegistryProofs
  import opened RegistryTheorems

  // ------------------------------------------------------- single lock sections

  /** The entry of the name is held by an open connection. */
  predicate HeldOpen(s: State, n: Name) {
    n in s.peers && s.peers[n] in s.conns && !s.conns[s.peers[n]].closed
  }

  /** An open connection keeps the entry of its name: a newcomer that registers is
      closed and leaves the registry as it was. */
  lemma OpenEntryWins(s: State, c: Id)
    requires Inv(s) && ConnEnabled(s, c, Register) && HeldOpen(s, s.conns[c].name)
    ensures var (t, d) := (Apply(s, OfConn(c, Register)), s.peers[s.conns[c].name]);
            && t.peers == s.peers && t.registered == s.registered && t.replaced == s.replaced
            && c != d && t.conns[d] == s.conns[d] && !t.conns[d].closed
            && t.conns[c].closed && t.conns[c].phase == Done
            && forall e | e in s.conns && e != c :: e in t.conns && t.conns[e] == s.conns[e]
  {
    hide PendingIsHeld, CallsKnown;
    assert ConnOk(s, c);
  }

  /** A newcomer that finds no open connection in the entry takes it; the one it
      replaces, if any, was closed before. */
  lemma ClosedEntryIsReplaced(s: State, c: Id)
    requires Inv(s) && ConnEnabled(s, c, Register) && !HeldOpen(s, s.conns[c].name)
    ensures var (t, n) := (Apply(s, OfConn(c, Register)), s.conns[c].name);
            && t.peers == s.peers[n := c] && t.registered == s.registered + {c}
            && t.replaced == s.replaced + (if n in s.peers then {s.peers[n]} else {})
            && (n in s.peers ==> s.peers[n] != c)
            && t.conns[c].phase == Registered && t.conns[c].closed == s.conns[c].closed
            && forall d | d in s.conns && d != c :: d in t.conns && t.conns[d] == s.conns[d]
  {
    hide PendingIsHeld, CallsKnown;
    assert ConnOk(s, c);
  }

  /** An open connection is closed by the network, by a disconnect call that looked it
      up, by its own manual-disconnect check, or by its own registration when another
      open connection holds the entry. Nothing else closes it. */
  predicate Closes(s: State, a: Action, d: Id)
    requires d in s.conns
  {
    match a
    case OfConn(c, Close) => c == d
    case OfConn(c, CheckManual) => c == d && s.conns[d].name in s.manual
    case OfConn(c, Register) => c == d && HeldOpen(s, s.conns[d].name)
    case OfCall(k, CloseMarked) => k in s.calls && s.calls[k].Marked? && s.calls[k].conn == d
    case _ => false
  }

  lemma ClosedIff(s: State, a: Action, d: Id)
    requires Inv(s) && Enabled(s, a) && d in s.conns && !s.conns[d].closed
    ensures d in Apply(s, a).conns && (Apply(s, a).conns[d].closed <==> Closes(s, a, d))
  {
    hide ConnInv, PendingIsHeld, Registration;
    match a
    case OfConn(c, step) =>
      if step.Register? {
        RegisterCloses(s, c, d);
      } else {
        OnlyItsConn(s, c, step);
      }
    case _ =>
  }

  lemma RegisterCloses(s: State, c: Id, d: Id)
    requires Inv(s) && ConnEnabled(s, c, Register) && d in s.conns && !s.conns[d].closed
    ensures var t := Registration(s, c);
            d in t.conns && (t.conns[d].closed <==> c == d && HeldOpen(s, s.conns[d].name))
  {
    hide PendingIsHeld, CallsKnown, ConnOk, Known;
    RegisterStays(s, c);
    if HeldOpen(s, s.conns[c].name) {
      OpenEntryWins(s, c);
    } else {
      ClosedEntryIsReplaced(s, c);
    }
  }

  /** A name's entry goes to the connection that registers, if no open one holds it; it
      goes away only when the handler of the connection in it cleans up. */
  lemma EntryIff(s: State, a: Action, n: Name)
    requires Inv(s) && Enabled(s, a)
    ensures var t := Apply(s, a);
            if a.OfConn? && a.conn == Register && s.conns[a.c].name == n && !HeldOpen(s, n) then
              n in t.peers && t.peers[n] == a.c
            else if a.OfConn? && a.conn == CleanUp && n in s.peers && s.peers[n] == a.c then n !in t.peers
            else (n in t.peers <==> n in s.peers) && (n in s.peers ==> t.peers[n] == s.peers[n])
  {
    hide PendingIsHeld, CallsKnown, ConnOk, Registration, CleanedUp;
    match a
    case OfConn(c, step) =>
      if step.Register? {
        if HeldOpen(s, s.conns[c].name) { OpenEntryWins(s, c); } else { ClosedEntryIsReplaced(s, c); }
      } else if step.CleanUp? {
        CleansOwnEntry(s, c);
      }
    case _ =>
  }

  lemma CleansOwnEntry(s: State, c: Id)
    requires ConnEnabled(s, c, CleanUp)
    ensures CleanedUp(s, c).peers == if Current(s, c) then s.peers - {s.conns[c].name} else s.peers
    ensures CleanedUp(s, c).replaced == s.replaced
  {
  }

  /** A name is marked by a disconnect call and by nothing else; the mark goes when a
      handler of the name has registered or a connect call for it has succeeded. */
  lemma MarkedIff(s: State, a: Action, n: Name)
    requires Enabled(s, a)
    ensures n in Apply(s, a).manual <==>
              || (a.OfCall? && a.call == Mark && s.calls[a.k].name == n)
              || (n in s.manual && !(a.OfConn? && a.conn == ClearManual && s.conns[a.c].name == n)
                  && !ConnectSucceeds(s, a, n))
  {
    hide Registration, CleanedUp;
    match a
    case OfConn(c, step) =>
      if step.Register? || step.CleanUp? {
        hide ConnApply;
        ConnStepFrame(s, c, step);
      }
    case _ =>
  }

  /** A name becomes pending when an attempt reserves it and stops when the attempt
      that held it is released. */
  lemma PendingIff(s: State, a: Action, n: Name)
    requires Enabled(s, a)
    ensures n in Apply(s, a).pending <==>
              || (a.OfAttempt? && a.attempt == Reserve && s.attempts[a.a].name == n)
              || (n in s.pending && !(a.OfAttempt? && a.attempt == AttemptStep.Release && s.attempts[a.a].name == n))
  {
    match a
    case OfConn(c, step) =>
      hide ConnApply;
      ConnStepFrame(s, c, step);
    case _ =>
  }

  // -------------------------------------------------------------- whole runs

  lemma RunOfTwo(s: State, a: Action, b: Action)
    ensures CanRun(s, [a, b]) <==> Enabled(s, a) && Enabled(Apply(s, a), b)
    ensures CanRun(s, [a, b]) ==> After(s, [a, b]) == Apply(Apply(s, a), b)
  {
    hide Enabled, Apply;
    if Enabled(s, a) && Enabled(Apply(s, a), b) { OneStep(Apply(s, a), b); }
    assert [a, b][1..] == [b] && [b][1..] == [];
  }

  lemma RunOfThree(s: State, a: Action, b: Action, c: Action)
    ensures CanRun(s, [a, b, c]) <==>
              Enabled(s, a) && Enabled(Apply(s, a), b) && Enabled(Apply(Apply(s, a), b), c)
    ensures CanRun(s, [a, b, c]) ==> After(s, [a, b, c]) == Apply(Apply(Apply(s, a), b), c)
  {
    hide Enabled, Apply;
    if Enabled(s, a) { RunOfTwo(Apply(s, a), b, c); }
    assert [a, b, c][1..] == [b, c];
  }

  /** In every interleaving, a connection that is replaced was closed before the one
      that replaces it registers, under the same name. */
  lemma ReplacedWasClosed(run: seq<Action>, a: Action, d: Id)
    requires CanRun(INITIAL, run) && Enabled(After(INITIAL, run), a)
    requires d in Apply(After(INITIAL, run), a).replaced && d !in After(INITIAL, run).replaced
    ensures var (s, t) := (After(INITIAL, run), Apply(After(INITIAL, run), a));
            && d in s.conns && s.conns[d].closed && a.OfConn? && a.conn == Register && a.c != d && a.c in s.conns
            && var n := s.conns[d].name; s.conns[a.c].name == n && n in t.peers && t.peers[n] == a.c
  {
    hide Apply;
    InitialInv();
    RunInv(INITIAL, run);
    NewlyReplaced(After(INITIAL, run), a, d);
  }

  lemma NewlyReplaced(s: State, a: Action, d: Id)
    requires Inv(s) && Enabled(s, a) && d in Apply(s, a).replaced && d !in s.replaced
    ensures d in s.conns && s.conns[d].closed && a.OfConn? && a.conn == Register && a.c != d && a.c in s.conns
    ensures s.conns[a.c].name == s.conns[d].name && s.conns[d].name in Apply(s, a).peers
    ensures Apply(s, a).peers[s.conns[d].name] == a.c
  {
    hide Apply, PendingIsHeld, CallsKnown, ConnOk;
    OnlyRegisterRegisters(s, a);
    if HeldOpen(s, s.conns[a.c].name) { OpenEntryWins(s, a.c); } else { ClosedEntryIsReplaced(s, a.c); }
  }

  /** Neither the network nor a disconnect call closes the connection, and its handler
      keeps accepting requests. */
  predicate LeftOpen(s: State, run: seq<Action>, d: Id)
    requires CanRun(s, run)
    decreases |run|
  {
    run == [] ||
    (run[0] != OfConn(d, Close) && run[0] != OfConn(d, EndLoop)
     && !(run[0].OfCall? && run[0].call == CloseMarked && s.calls[run[0].k].conn == d)
     && LeftOpen(Apply(s, run[0]), run[1..], d))
  }

  /** A registered connection that is left open stays in its entry, whoever else
      connects under the name: nobody else of that name registers. */
  lemma {:induction false} OpenConnectionStays(s: State, run: seq<Action>, d: Id)
    requires Inv(s) && CanRun(s, run) && LeftOpen(s, run, d)
    requires Current(s, d) && !s.conns[d].closed && (s.conns[d].phase == Registered || s.conns[d].phase == Serving)
    ensures var (t, n) := (After(s, run), s.conns[d].name);
            && Current(t, d) && t.conns[d].name == n && !t.conns[d].closed
            && OfName(t, t.registered, n) == OfName(s, s.registered, n)
    decreases |run|
  {
    hide Inv, Enabled, Apply, OfName;
    if run != [] {
      OpenStep(s, run[0], d);
      StepInv(s, run[0]);
      OpenConnectionStays(Apply(s, run[0]), run[1..], d);
    }
  }

  lemma OpenStep(s: State, a: Action, d: Id)
    requires Inv(s) && Enabled(s, a) && a != OfConn(d, Close) && a != OfConn(d, EndLoop)
    requires !(a.OfCall? && a.call == CloseMarked && s.calls[a.k].conn == d)
    requires Current(s, d) && !s.conns[d].closed && (s.conns[d].phase == Registered || s.conns[d].phase == Serving)
    ensures var (t, n) := (Apply(s, a), s.conns[d].name);
            && Current(t, d) && t.conns[d].name == n && !t.conns[d].closed
            && (t.conns[d].phase == Registered || t.conns[d].phase == Serving)
            && OfName(t, t.registered, n) == OfName(s, s.registered, n)
  {
    hide Inv, Apply, OfName, Enabled;
    var n := s.conns[d].name;
    NotEnding(s, a, d);
    ClosedIff(s, a, d);
    EntryIff(s, a, n);
    PhaseStays(s, a, d);
    NoneRegisters(s, a, n);
  }

  lemma NotEnding(s: State, a: Action, d: Id)
    requires Enabled(s, a) && a != OfConn(d, Close) && d in s.conns
    requires !(a.OfCall? && a.call == CloseMarked && s.calls[a.k].conn == d)
    requires s.conns[d].phase == Registered || s.conns[d].phase == Serving
    ensures !Closes(s, a, d) && a != OfConn(d, CleanUp)
  {
  }

  lemma PhaseStays(s: State, a: Action, d: Id)
    requires Inv(s) && Enabled(s, a) && d in s.conns && a != OfConn(d, EndLoop)
    requires s.conns[d].phase == Registered || s.conns[d].phase == Serving
    ensures d in Apply(s, a).conns && Apply(s, a).conns[d].name == s.conns[d].name
    ensures Apply(s, a).conns[d].phase == Registered || Apply(s, a).conns[d].phase == Serving
  {
    hide PendingIsHeld, ConnOk, Registration, CleanedUp;
    match a
    case OfConn(c, step) =>
      if step.Register? {
        RegisterPhases(s, c);
        RegisterStays(s, c);
      } else {
        OnlyItsConn(s, c, step);
      }
    case _ =>
  }

  lemma StepStays(s: State, a: Action)
    requires Enabled(s, a)
    ensures ConnsStay(s, Apply(s, a))
  {
    match a
    case OfConn(c, step) =>
      hide ConnApply;
      ConnStepStays(s, c, step);
    case _ =>
  }

  lemma OnlyRegisterRegisters(s: State, a: Action)
    requires Enabled(s, a)
    ensures (a.OfConn? && a.conn == Register) ||
            (Apply(s, a).registered == s.registered && Apply(s, a).replaced == s.replaced)
  {
    hide Registration;
  }

  /** While an open connection holds the entry of a name, nobody of that name
      registers. */
  lemma NoneRegisters(s: State, a: Action, n: Name)
    requires Inv(s) && Enabled(s, a) && HeldOpen(s, n)
    ensures OfName(Apply(s, a), Apply(s, a).registered, n) == OfName(s, s.registered, n)
  {
    hide PendingIsHeld, CallsKnown, ConnOk, Apply, Enabled, HeldOpen;
    OnlyRegisterRegisters(s, a);
    StepStays(s, a);
    if a.OfConn? && a.conn == Register { RegistersItsName(s, a.c, n); }
    assert forall d | d in s.registered :: d in s.conns;
  }

  lemma RegistersItsName(s: State, c: Id, n: Name)
    requires Inv(s) && Enabled(s, OfConn(c, Register)) && HeldOpen(s, n)
    ensures Apply(s, OfConn(c, Register)).registered == s.registered || (c in s.conns && s.conns[c].name != n)
    ensures s.registered <= Apply(s, OfConn(c, Register)).registered <= s.registered + {c}
  {
    hide PendingIsHeld, CallsKnown, ConnOk;
    if s.conns[c].name == n { OpenEntryWins(s, c); }
  }

  /** A connection that has not registered is on its way to registration, or its
      handler is done with it and has closed it. */
  predicate NoneForgotten(s: State) {
    forall c | c in s.conns && c !in s.registered ::
      || s.conns[c].phase == Arrived || s.conns[c].phase == Checked
      || (s.conns[c].phase == Done && s.conns[c].closed)
  }

  lemma StepForgetsNone(s: State, a: Action)
    requires Inv(s) && Enabled(s, a) && NoneForgotten(s)
    ensures NoneForgotten(Apply(s, a))
  {
    hide PendingIsHeld, ConnOk, ConnApply;
    match a
    case OfConn(c, step) =>
      if step.Register? {
        RegisterForgetsNone(s, c);
      } else {
        if c in s.conns { assert ConnOk(s, c); }
        OwnForgetsNone(s, c, step);
      }
    case _ =>
  }

  lemma OwnForgetsNone(s: State, c: Id, step: ConnStep)
    requires ConnEnabled(s, c, step) && !step.Register? && NoneForgotten(s) && (c in s.conns ==> ConnOk(s, c))
    ensures NoneForgotten(ConnApply(s, c, step))
  {
    hide Registration;
    OnlyItsConn(s, c, step);
  }

  lemma RegisterForgetsNone(s: State, c: Id)
    requires Inv(s) && ConnEnabled(s, c, Register) && NoneForgotten(s)
    ensures NoneForgotten(ConnApply(s, c, Register))
  {
    hide PendingIsHeld, CallsKnown, ConnOk;
    if HeldOpen(s, s.conns[c].name) { OpenEntryWins(s, c); } else { ClosedEntryIsReplaced(s, c); }
    assert ConnApply(s, c, Register).conns.Keys == s.conns.Keys;
  }

  /** In every interleaving, whatever connection is turned away is also closed. */
  lemma {:induction false} RunForgetsNone(s: State, run: seq<Action>)
    requires Inv(s) && NoneForgotten(s) && CanRun(s, run)
    ensures NoneForgotten(After(s, run))
    decreases |run|
  {
    hide Inv, NoneForgotten, Enabled, Apply;
    if run != [] {
      StepForgetsNone(s, run[0]);
      StepInv(s, run[0]);
      RunForgetsNone(Apply(s, run[0]), run[1..]);
    }
  }

  // ------------------------------------------------------ outbound attempts

  predicate StaysConnected(s: State, run: seq<Action>, n: Name)
    requires CanRun(s, run)
    decreases |run|
  {
    n in s.peers && (run == [] || StaysConnected(Apply(s, run[0]), run[1..], n))
  }

  /** The attempt has not yet looked whether the peer is connected, or has given up. */
  predicate NotPastCheck(s: State, a: Id) {
    AttemptAt(s, a, Begun) || AttemptAt(s, a, SawNotPending) || AttemptAt(s, a, Skipped)
  }

  /** An attempt to reach a peer that is connected the whole time never gets to
      connect: it is skipped if it goes on at all. */
  lemma {:induction false} ConnectedIsSkipped(s: State, run: seq<Action>, a: Id)
    requires CanRun(s, run) && NotPastCheck(s, a) && StaysConnected(s, run, s.attempts[a].name)
    ensures NotPastCheck(After(s, run), a)
    decreases |run|
  {
    hide Enabled, Apply;
    if run != [] {
      SkippedStep(s, run[0], a);
      ConnectedIsSkipped(Apply(s, run[0]), run[1..], a);
    }
  }

  lemma SkippedStep(s: State, step: Action, a: Id)
    requires Enabled(s, step) && NotPastCheck(s, a) && s.attempts[a].name in s.peers
    ensures NotPastCheck(Apply(s, step), a) && Apply(s, step).attempts[a].name == s.attempts[a].name
  {
    hide Registration, CleanedUp;
  }

  /** Each look of an attempt ends it exactly if the name is pending, or connected, at
      that moment. */
  lemma LooksEndItIff(s: State, a: Id)
    ensures AttemptAt(s, a, Begun) ==>
              (AttemptAt(Apply(s, OfAttempt(a, AttemptStep.CheckPending)), a, Skipped)
               <==> s.attempts[a].name in s.pending)
    ensures AttemptAt(s, a, SawNotPending) ==>
              (AttemptAt(Apply(s, OfAttempt(a, AttemptStep.CheckPeers)), a, Skipped)
               <==> s.attempts[a].name in s.peers)
    ensures AttemptAt(s, a, SawNotConnected) ==>
              (AttemptAt(Apply(s, OfAttempt(a, AttemptStep.Reserve)), a, Skipped)
               <==> s.attempts[a].name in s.pending)
  {
  }

  /** Left to itself an attempt reserves its name exactly if the peer is neither pending
      nor connected, and then frees it again. */
  lemma AttemptReservesIff(s: State, a: Id)
    requires AttemptAt(s, a, Begun)
    ensures var n := s.attempts[a].name;
            var checks := [OfAttempt(a, AttemptStep.CheckPending), OfAttempt(a, AttemptStep.CheckPeers),
                           OfAttempt(a, AttemptStep.Reserve)];
            (CanRun(s, checks) && After(s, checks).pending == s.pending + {n} && Holds(After(s, checks), a, n))
            <==> (n !in s.pending && n !in s.peers)
  {
    var n := s.attempts[a].name;
    var check, look, reserve := OfAttempt(a, AttemptStep.CheckPending), OfAttempt(a, AttemptStep.CheckPeers),
                                OfAttempt(a, AttemptStep.Reserve);
    hide CanRun, After;
    RunOfThree(s, check, look, reserve);
  }

  // ------------------------------------------------- the end of a connection

  /** The handler's own steps after its accept loop has ended, up to the look at the
      shutdown flag. */
  function WindDown(s: State, c: Id): seq<Action> {
    if Current(s, c) then [OfConn(c, CleanUp), OfConn(c, Report), OfConn(c, LoadShutdown)]
    else [OfConn(c, CleanUp), OfConn(c, LoadShutdown)]
  }

  /** What the handler knows when it has wound down. */
  predicate WoundDown(s: State, t: State, c: Id, own: bool) {
    && c in s.conns && c in t.conns && t.conns[c].name == s.conns[c].name
    && t.manual == s.manual && t.shuttingDown == s.shuttingDown
    && t.conns[c].phase == (if s.shuttingDown then Done else Settling)
    && (c in t.removed <==> own)
    && t.reported == (if own then s.reported + [c] else s.reported)
    && t.peers == (if own then s.peers - {s.conns[c].name} else s.peers)
  }

  lemma OwnWindDown(s: State, c: Id)
    requires At(s, c, Ended) && Current(s, c)
    ensures var clean, report, load := OfConn(c, CleanUp), OfConn(c, Report), OfConn(c, LoadShutdown);
            && Enabled(s, clean) && Enabled(Apply(s, clean), report) && Enabled(Apply(Apply(s, clean), report), load)
            && WoundDown(s, Apply(Apply(Apply(s, clean), report), load), c, true)
  {
  }

  lemma ForeignWindDown(s: State, c: Id)
    requires At(s, c, Ended) && !Current(s, c) && c !in s.removed
    ensures var clean, load := OfConn(c, CleanUp), OfConn(c, LoadShutdown);
            && Enabled(s, clean) && Enabled(Apply(s, clean), load)
            && WoundDown(s, Apply(Apply(s, clean), load), c, false)
  {
  }

  lemma DecidesIff(s: State, t: State, c: Id, own: bool)
    requires WoundDown(s, t, c, own)
    ensures var check := OfConn(c, CheckReconnect);
            && (Enabled(t, check) <==> !s.shuttingDown)
            && (Enabled(t, check) ==>
                  (At(Apply(t, check), c, Reconnecting) <==> own && s.conns[c].name !in s.manual))
  {
  }

  /** A handler that winds down undisturbed reports its loss exactly if the entry was
      its own. It then decides to reconnect exactly if moreover no shutdown is in
      progress and the name is not marked. */
  lemma LossIsReportedAndDecided(s: State, c: Id)
    requires Inv(s) && At(s, c, Ended)
    ensures CanRun(s, WindDown(s, c))
    ensures var (t, own, check) := (After(s, WindDown(s, c)), Current(s, c), OfConn(c, CheckReconnect));
            && t.reported == (if own then s.reported + [c] else s.reported)
            && t.peers == (if own then s.peers - {s.conns[c].name} else s.peers)
            && (Enabled(t, check) <==> !s.shuttingDown)
            && (Enabled(t, check) ==>
                  (At(Apply(t, check), c, Reconnecting) <==> own && s.conns[c].name !in s.manual))
  {
    hide Apply, Enabled, PendingIsHeld, CallsKnown, CanRun, After;
    assert ConnOk(s, c);
    if Current(s, c) {
      OwnWindDown(s, c);
      RunOfThree(s, OfConn(c, CleanUp), OfConn(c, Report), OfConn(c, LoadShutdown));
    } else {
      ForeignWindDown(s, c);
      RunOfTwo(s, OfConn(c, CleanUp), OfConn(c, LoadShutdown));
    }
    DecidesIff(s, After(s, WindDown(s, c)), c, Current(s, c));
  }

  /** A decided reconnect asks for the peer exactly if its address is known and no
      shutdown has begun. */
  lemma ReconnectAsksIff(s: State, c: Id, hasAddress: bool, k: Id)
    requires ConnEnabled(s, c, Reconnect(hasAddress, k))
    ensures var t := Apply(s, OfConn(c, Reconnect(hasAddress, k)));
            && (k in t.calls && t.calls[k] == Asked(s.conns[c].name) <==> hasAddress && !s.shuttingDown)
            && (c in t.reconnected[|s.reconnected|..] <==> hasAddress && !s.shuttingDown)
            && (forall j | j != k :: (j in t.calls <==> j in s.calls) && (j in s.calls ==> t.calls[j] == s.calls[j]))
            && t.peers == s.peers && At(t, c, Done)
  {
  }

  /** A call that may still reach the peer. */
  predicate Open(s: State, k: Id) {
    k in s.calls && (s.calls[k].Asked? || s.calls[k].Accepted?)
  }

  lemma OpensIff(s: State, a: Action, k: Id)
    requires Enabled(s, a)
    ensures Open(Apply(s, a), k) && !Open(s, k) <==>
              && !s.shuttingDown
              && ((a.OfCall? && a.k == k && a.call.Connect?)
                  || (a.OfConn? && a.conn.Reconnect? && a.conn.call == k && a.conn.hasAddress))
    ensures Apply(s, a).shuttingDown == (s.shuttingDown || a == ShutDown)
  {
    match a
    case OfConn(c, step) =>
      hide ConnApply, Open;
      OpensByHandler(s, c, step, k);
    case OfCall(j, step) => if j != k { OtherCall(s, j, step, k); }
    case _ =>
  }

  lemma OtherCall(s: State, j: Id, step: CallStep, k: Id)
    requires CallEnabled(s, j, step) && j != k
    ensures Open(CallApply(s, j, step), k) == Open(s, k)
  {
  }

  lemma OpensByHandler(s: State, c: Id, step: ConnStep, k: Id)
    requires ConnEnabled(s, c, step)
    ensures Open(ConnApply(s, c, step), k) && !Open(s, k) <==>
              !s.shuttingDown && step.Reconnect? && step.call == k && step.hasAddress
    ensures ConnApply(s, c, step).shuttingDown == s.shuttingDown
  {
    if step.Reconnect? {
    } else {
      ConnStepFrame(s, c, step);
      hide Open;
      if step.Register? || step.CleanUp? { KeepsRunning(s, c); }
    }
  }

  lemma KeepsRunning(s: State, c: Id)
    ensures ConnEnabled(s, c, Register) ==> ConnApply(s, c, Register).shuttingDown == s.shuttingDown
    ensures ConnEnabled(s, c, CleanUp) ==> ConnApply(s, c, CleanUp).shuttingDown == s.shuttingDown
  {
  }

  /** Once a shutdown has begun no connect call is begun, by the user or by a handler
      that lost its connection, in any interleaving. */
  lemma {:induction false} NoCallAfterShutdown(s: State, run: seq<Action>, k: Id)
    requires s.shuttingDown && CanRun(s, run) && Open(After(s, run), k)
    ensures Open(s, k)
    decreases |run|
  {
    hide Enabled, Apply, Open;
    if run != [] {
      OpensIff(s, run[0], k);
      NoCallAfterShutdown(Apply(s, run[0]), run[1..], k);
    }
  }

  /** A user's disconnect that runs undisturbed marks the name and closes its
      connection, which keeps its entry until its handler cleans up; for a peer that is
      not connected it does nothing. */
  lemma DisconnectMarksAndCloses(s: State, k: Id, n: Name)
    requires Inv(s) && k !in s.calls
    ensures var (look, mark, close) := (OfCall(k, LookUp(n)), OfCall(k, Mark), OfCall(k, CloseMarked));
            if n in s.peers then
              && CanRun(s, [look, mark, close])
              && var t := After(s, [look, mark, close]);
                 && t.manual == s.manual + {n} && t.peers == s.peers && k in t.calls && t.calls[k].Returned?
                 && s.peers[n] in t.conns && t.conns[s.peers[n]].closed
                 && forall d | d in s.conns && d != s.peers[n] :: d in t.conns && t.conns[d] == s.conns[d]
            else
              CanRun(s, [look]) && After(s, [look]) == s.(calls := s.calls[k := Call.Returned])
  {
    hide PendingIsHeld, ConnOk;
    var look, mark, close := OfCall(k, LookUp(n)), OfCall(k, Mark), OfCall(k, CloseMarked);
    hide CanRun, After;
    RunOfThree(s, look, mark, close);
    OneStep(s, look);
  }
}
