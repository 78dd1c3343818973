/** What holds over whole runs of the registry, from the empty one on. */
module RegistryTheorems {
  import opened Registry
  import opened RegistryProofs

  lemma {:induction false} RunInv(s: State, run: seq<Action>)
    requires Inv(s) && CanRun(s, run)
    ensures Inv(After(s, run))
    decreases |run|
  {
    if run != [] {
      StepInv(s, run[0]);
      RunInv(Apply(s, run[0]), run[1..]);
    }
  }

  /** In every interleaving, a handler that has registered, has not cleaned up and
      whose connection is open owns the entry of its name; so a name has at most
      one live registered connection. */
  lemma OpenHandlersOwnTheirEntry(run: seq<Action>, c: Id, d: Id)
    requires CanRun(INITIAL, run)
    requires var s := After(INITIAL, run);
             && c in s.conns && InRegistry(s.conns[c].phase) && !s.conns[c].closed
             && d in s.conns && InRegistry(s.conns[d].phase) && !s.conns[d].closed
    ensures var s := After(INITIAL, run);
            && s.conns[c].name in s.peers && s.peers[s.conns[c].name] == c
            && (s.conns[c].name == s.conns[d].name ==> c == d)
  {
    InitialInv();
    RunInv(INITIAL, run);
    assert ConnOk(After(INITIAL, run), c) && ConnOk(After(INITIAL, run), d);
  }

  /** A finishing handler takes away no entry but its own. */
  lemma CleanUpSparesReplacement(s: State, c: Id, n: Name)
    requires Inv(s) && ConnEnabled(s, c, CleanUp) && n in s.peers && s.peers[n] != c
    ensures n in CleanedUp(s, c).peers && CleanedUp(s, c).peers[n] == s.peers[n]
  {
    assert s.conns[s.peers[n]].name == n;
  }

  // ----------------------------------------------------------- conservation

  ghost function OfName(s: State, ids: set<Id>, n: Name): set<Id> {
    set c | c in ids && c in s.conns && s.conns[c].name == n
  }

  lemma DisjointCards<T>(all: set<T>, a: set<T>, b: set<T>, c: set<T>)
    requires all == a + b + c && a !! b && a !! c && b !! c
    ensures |all| == |a| + |b| + |c|
  {
    assert |a + b| == |a| + |b|;
    assert all == (a + b) + c;
  }

  lemma WhereItWent(s: State, n: Name, c: Id)
    requires ConnInv(s)
    ensures var now := n in s.peers && s.peers[n] == c;
            var was, own := c in OfName(s, s.replaced, n), c in OfName(s, s.removed, n);
            && (c in OfName(s, s.registered, n) <==> now || was || own)
            && !(now && was) && !(now && own) && !(was && own)
  {
    if c in s.conns { assert ConnOk(s, c); }
  }

  /** For each name, the connections ever registered are the current one, the
      replaced ones and those whose own handler removed them. */
  lemma ConnectionsConserved(run: seq<Action>, n: Name)
    requires CanRun(INITIAL, run)
    ensures var s := After(INITIAL, run);
            |OfName(s, s.registered, n)|
              == (if n in s.peers then 1 else 0) + |OfName(s, s.replaced, n)| + |OfName(s, s.removed, n)|
  {
    hide ConnInv, CanRun, After, OfName;
    InitialInv();
    RunInv(INITIAL, run);
    var s := After(INITIAL, run);
    var current := if n in s.peers then {s.peers[n]} else {};
    var all, replaced, removed := OfName(s, s.registered, n), OfName(s, s.replaced, n), OfName(s, s.removed, n);
    forall c: Id
      ensures c in all <==> c in current || c in replaced || c in removed
      ensures !(c in current && c in replaced) && !(c in current && c in removed) && !(c in replaced && c in removed)
    {
      WhereItWent(s, n, c);
    }
    DisjointCards(all, current, replaced, removed);
  }

  /** Losses are reported exactly for the removed connections whose report is due,
      no connection twice, never a replaced one; reconnects only follow reports. */
  lemma LossesReportedOnce(run: seq<Action>, c: Id)
    requires CanRun(INITIAL, run)
    ensures var s := After(INITIAL, run);
            && (c in s.reported <==> c in s.removed && c in s.conns && s.conns[c].phase != CleanedOwn)
            && (c in s.replaced ==> c !in s.reported)
            && Distinct(s.reported) && Distinct(s.reconnected)
            && (c in s.reconnected ==> c in s.reported)
  {
    InitialInv();
    RunInv(INITIAL, run);
    var s := After(INITIAL, run);
    if c in s.conns { assert ConnOk(s, c); }
  }

  // ------------------------------------------------------ outbound attempts

  /** In every interleaving a name is pending iff an attempt for it is between
      reservation and release, and two such attempts never overlap. */
  lemma AttemptsNeverOverlap(run: seq<Action>, n: Name)
    requires CanRun(INITIAL, run)
    ensures var s := After(INITIAL, run);
            && (n in s.pending <==> exists a :: a in s.attempts && Holds(s, a, n))
            && forall a, b | Holds(s, a, n) && Holds(s, b, n) :: a == b
  {
    InitialInv();
    RunInv(INITIAL, run);
  }

  // ---------------------------------------------------- manual disconnects

  /** No handler for the name is between its manual-disconnect check and its
      clearing of the mark. */
  predicate WindowEmpty(s: State, n: Name) {
    forall c | c in s.conns && s.conns[c].name == n :: s.conns[c].phase != Checked && s.conns[c].phase != Registered
  }

  predicate Quiet(s: State, n: Name) {
    n in s.manual && WindowEmpty(s, n)
  }

  /** The step in which a `connect_to_peer` call for the name succeeds. */
  predicate ConnectSucceeds(s: State, a: Action, n: Name) {
    a.OfCall? && a.call.FinishConnect? && a.k in s.calls && s.calls[a.k].Accepted? && s.calls[a.k].name == n
  }

  predicate NoConnectSucceeds(s: State, run: seq<Action>, n: Name)
    requires CanRun(s, run)
    decreases |run|
  {
    run == [] || (!ConnectSucceeds(s, run[0], n) && NoConnectSucceeds(Apply(s, run[0]), run[1..], n))
  }

  /** Nothing but `Checked` and `Registered` handlers registers, and a handler of a
      marked name does not become one. */
  lemma QuietOther(s: State, c: Id, step: ConnStep, n: Name)
    requires ConnEnabled(s, c, step) && Quiet(s, n) && !step.Register?
    ensures Quiet(ConnApply(s, c, step), n)
  {
    OnlyItsConn(s, c, step);
    ConnStepStays(s, c, step);
  }

  lemma OnlyItsConn(s: State, c: Id, step: ConnStep)
    requires ConnEnabled(s, c, step) && !step.Register?
    ensures var t := ConnApply(s, c, step); c in t.conns && t.conns == s.conns[c := t.conns[c]]
  {
    if step.CleanUp? { assert ConnApply(s, c, step) == CleanedUp(s, c); }
  }

  lemma QuietConnStep(s: State, c: Id, step: ConnStep, n: Name)
    requires Known(s) && ConnEnabled(s, c, step) && Quiet(s, n)
    ensures Quiet(ConnApply(s, c, step), n)
    ensures OfName(ConnApply(s, c, step), ConnApply(s, c, step).registered, n) == OfName(s, s.registered, n)
  {
    if step.Register? {
      QuietRegister(s, c, n);
    } else {
      QuietOther(s, c, step, n);
      ConnStepStays(s, c, step);
      assert forall d | d in s.registered :: d in s.conns;
    }
  }

  lemma QuietRegister(s: State, c: Id, n: Name)
    requires Known(s) && ConnEnabled(s, c, Register) && Quiet(s, n)
    ensures Quiet(Registration(s, c), n)
    ensures OfName(Registration(s, c), Registration(s, c).registered, n) == OfName(s, s.registered, n)
  {
    RegisterStays(s, c);
    RegisterPhases(s, c);
  }

  lemma RegisterPhases(s: State, c: Id)
    requires ConnEnabled(s, c, Register)
    ensures var t := Registration(s, c);
            && t.conns.Keys == s.conns.Keys
            && (forall d | d in s.conns && d != c :: t.conns[d].phase == s.conns[d].phase)
            && s.registered <= t.registered <= s.registered + {c}
  {
  }

  lemma QuietCallStep(s: State, k: Id, step: CallStep, n: Name)
    requires Known(s) && CallEnabled(s, k, step) && Quiet(s, n) && !ConnectSucceeds(s, OfCall(k, step), n)
    ensures Quiet(CallApply(s, k, step), n)
    ensures OfName(CallApply(s, k, step), CallApply(s, k, step).registered, n) == OfName(s, s.registered, n)
  {
  }

  lemma QuietAttemptStep(s: State, a: Id, step: AttemptStep, n: Name)
    requires AttemptEnabled(s, a, step) && Quiet(s, n)
    ensures Quiet(AttemptApply(s, a, step), n)
    ensures OfName(AttemptApply(s, a, step), AttemptApply(s, a, step).registered, n) == OfName(s, s.registered, n)
  {
  }

  lemma QuietStep(s: State, a: Action, n: Name)
    requires Inv(s) && Enabled(s, a) && Quiet(s, n) && !ConnectSucceeds(s, a, n)
    ensures Quiet(Apply(s, a), n)
    ensures OfName(Apply(s, a), Apply(s, a).registered, n) == OfName(s, s.registered, n)
  {
    match a
    case OfConn(c, step) => QuietConnStep(s, c, step, n);
    case OfAttempt(a, step) => QuietAttemptStep(s, a, step, n);
    case OfCall(k, step) => QuietCallStep(s, k, step, n);
    case ShutDown =>
  }

  /** Once the name is marked with no handler in the window, no connection to it
      registers until a `connect_to_peer` call for it succeeds, whatever gossip,
      incoming connections or reconnects occur. */
  lemma {:induction false} QuietRun(s: State, run: seq<Action>, n: Name)
    requires Inv(s) && Quiet(s, n) && CanRun(s, run) && NoConnectSucceeds(s, run, n)
    ensures Quiet(After(s, run), n)
    ensures OfName(After(s, run), After(s, run).registered, n) == OfName(s, s.registered, n)
    decreases |run|
  {
    if run != [] {
      QuietStep(s, run[0], n);
      StepInv(s, run[0]);
      QuietRun(Apply(s, run[0]), run[1..], n);
    }
  }

  /** Some run without a successful connect call registers a connection. */
  ghost predicate CanRegister(s: State, n: Name) {
    exists run | CanRun(s, run) && NoConnectSucceeds(s, run, n) ::
      OfName(After(s, run), After(s, run).registered, n) != OfName(s, s.registered, n)
  }

  predicate ConnsOnly(run: seq<Action>) {
    forall i | 0 <= i < |run| :: run[i].OfConn?
  }

  /** Some run of connections and their handlers alone does. */
  ghost predicate Comes(s: State, n: Name) {
    exists run | CanRun(s, run) && ConnsOnly(run) ::
      OfName(After(s, run), After(s, run).registered, n) != OfName(s, s.registered, n)
  }

  lemma {:induction false} ConnsConnectNothing(s: State, run: seq<Action>, n: Name)
    requires CanRun(s, run) && ConnsOnly(run)
    ensures NoConnectSucceeds(s, run, n)
    decreases |run|
  {
    if run != [] { ConnsConnectNothing(Apply(s, run[0]), run[1..], n); }
  }

  lemma ComesRegisters(s: State, n: Name)
    requires Comes(s, n)
    ensures CanRegister(s, n)
  {
    var run :| CanRun(s, run) && ConnsOnly(run)
      && OfName(After(s, run), After(s, run).registered, n) != OfName(s, s.registered, n);
    ConnsConnectNothing(s, run, n);
  }

  lemma Prepend(s: State, c: Id, step: ConnStep, n: Name)
    requires ConnEnabled(s, c, step) && Comes(ConnApply(s, c, step), n)
    requires var t := ConnApply(s, c, step); OfName(t, t.registered, n) == OfName(s, s.registered, n)
    ensures Comes(s, n)
  {
    var a := OfConn(c, step);
    var t := Apply(s, a);
    var run :| CanRun(t, run) && ConnsOnly(run)
      && OfName(After(t, run), After(t, run).registered, n) != OfName(t, t.registered, n);
    var whole := [a] + run;
    assert whole[1..] == run;
    assert CanRun(s, whole) && ConnsOnly(whole) && After(s, whole) == After(t, run);
  }

  lemma OneStep(s: State, a: Action)
    requires Enabled(s, a)
    ensures CanRun(s, [a]) && After(s, [a]) == Apply(s, a)
  {
    assert [a][1..] == [];
    assert CanRun(Apply(s, a), []) && After(Apply(s, a), []) == Apply(s, a);
  }

  lemma RegistersNow(s: State, n: Name, c: Id)
    requires Inv(s) && At(s, c, Checked) && s.conns[c].name == n
    requires n in s.peers ==> s.conns[s.peers[n]].closed
    ensures Comes(s, n)
  {
    assert ConnOk(s, c);
    var t := Registration(s, c);
    assert c in OfName(t, t.registered, n) && c !in OfName(s, s.registered, n);
    OneStep(s, OfConn(c, Register));
    assert ConnsOnly([OfConn(c, Register)]);
  }

  /** A handler past its check can register, once the old connection is closed. */
  lemma CheckedRegisters(s: State, n: Name, c: Id)
    requires Inv(s) && At(s, c, Checked) && s.conns[c].name == n
    ensures Comes(s, n)
  {
    hide Comes, Registration, CleanedUp, PendingIsHeld, CallsKnown;
    if n in s.peers {
      var d := s.peers[n];
      assert ConnOk(s, c);
      StepInv(s, OfConn(d, Close));
      RegistersNow(ConnApply(s, d, Close), n, c);
      Prepend(s, d, Close, n);
    } else {
      RegistersNow(s, n, c);
    }
  }

  lemma UnusedId(ids: set<Id>) returns (c: Id)
    ensures c !in ids
  {
    if ids == {} { return 0; }
    var m := MaxOf(ids);
    c := m + 1;
  }

  lemma MaxOf(ids: set<Id>) returns (m: Id)
    requires ids != {}
    ensures forall i | i in ids :: i <= m
  {
    var e :| e in ids;
    if ids == {e} { return e; }
    var rest := ids - {e};
    assert ids == rest + {e};
    var r := MaxOf(rest);
    m := if r < e then e else r;
    assert forall i | i in ids :: i == e || i in rest;
  }

  lemma UnmarkedRegisters(s: State, n: Name)
    requires Inv(s) && n !in s.manual
    ensures Comes(s, n)
  {
    hide Comes, ConnOk, Registration, CleanedUp;
    var c := UnusedId(s.conns.Keys);
    var t := ConnApply(s, c, Arrive(n));
    StepInv(s, OfConn(c, Arrive(n)));
    ArrivedRegisters(t, n, c);
    assert forall d | d in s.registered :: d in s.conns && d != c;
    assert OfName(t, s.registered, n) == OfName(s, s.registered, n);
    Prepend(s, c, Arrive(n), n);
  }

  lemma ArrivedRegisters(s: State, n: Name, c: Id)
    requires Inv(s) && At(s, c, Arrived) && s.conns[c].name == n && n !in s.manual
    ensures Comes(s, n)
  {
    hide Inv, Comes, Registration, CleanedUp;
    StepInv(s, OfConn(c, CheckManual));
    CheckedRegisters(ConnApply(s, c, CheckManual), n, c);
    Prepend(s, c, CheckManual, n);
  }

  lemma RegisteredReopens(s: State, n: Name, c: Id)
    requires Inv(s) && At(s, c, Registered) && s.conns[c].name == n
    ensures Comes(s, n)
  {
    hide Inv, Comes, Registration, CleanedUp;
    StepInv(s, OfConn(c, ClearManual));
    UnmarkedRegisters(ConnApply(s, c, ClearManual), n);
    Prepend(s, c, ClearManual, n);
  }

  /** Unmarked, or with a handler in the window, a connection can simply come. */
  lemma NotQuietComes(s: State, n: Name)
    requires Inv(s) && !Quiet(s, n)
    ensures Comes(s, n)
  {
    hide Inv, Comes;
    if n !in s.manual {
      UnmarkedRegisters(s, n);
    } else {
      var c :| c in s.conns && s.conns[c].name == n && (s.conns[c].phase == Checked || s.conns[c].phase == Registered);
      if s.conns[c].phase == Checked { CheckedRegisters(s, n, c); } else { RegisteredReopens(s, n, c); }
    }
  }

  /** As long as no connect call for the name succeeds, a connection to it can
      register iff the name is unmarked or a handler is in the window, having checked
      before the mark was set. */
  lemma DisconnectHoldsIff(s: State, n: Name)
    requires Inv(s)
    ensures CanRegister(s, n) <==> !Quiet(s, n)
  {
    if Quiet(s, n) {
      forall run | CanRun(s, run) && NoConnectSucceeds(s, run, n)
        ensures OfName(After(s, run), After(s, run).registered, n) == OfName(s, s.registered, n)
      {
        QuietRun(s, run, n);
      }
    } else {
      NotQuietComes(s, n);
      ComesRegisters(s, n);
    }
  }

  /** The step of `disconnect_peer` that records the name holds until a connect call
      for it succeeds iff no handler for the name is in the window at that moment. */
  lemma MarkHoldsIff(s: State, k: Id)
    requires Inv(s) && CallEnabled(s, k, Mark)
    ensures var n := s.calls[k].name;
            !CanRegister(CallApply(s, k, Mark), n) <==> WindowEmpty(s, n)
  {
    StepInv(s, OfCall(k, Mark));
    DisconnectHoldsIff(CallApply(s, k, Mark), s.calls[k].name);
  }
}
