/** The connection registry as a transition system. Each step is one section of
    code under one lock (or one atomic load); steps of different tasks interleave
    freely. */
module Registry {
  type Name = string
  type Id = nat

  /** How far a run of `handle_connection` has come. */
  datatype Phase =
    | Arrived        // spawned, nothing checked
    | Checked        // found not manually disconnected
    | Registered     // stored in `peers`
    | Serving        // manual-disconnect mark cleared, accept loop running
    | Ended          // accept loop broke
    | CleanedOwn     // removed its own entry
    | CleanedOther   // found no entry of its own
    | Reported       // sent `PeerDisconnected`
    | Settling       // saw that no shutdown is in progress
    | Reconnecting   // decided to reconnect
    | Done

  /** `closed` stands for `close_reason().is_some()`. */
  datatype Conn = Conn(name: Name, closed: bool, phase: Phase)

  /** How far a run of `spawn_outbound_connect` has come. */
  datatype AttemptPhase = Begun | SawNotPending | SawNotConnected | Holding | Returned | Skipped | Released

  datatype Attempt = Attempt(name: Name, phase: AttemptPhase)

  /** A call of `connect_to_peer` or `disconnect_peer`. */
  datatype Call =
    | Asked(name: Name)
    | Accepted(name: Name)
    | LookedUp(name: Name, conn: Id)
    | Marked(name: Name, conn: Id)
    | Returned

  /** `registered`, `replaced`, `removed`, `reported` and `reconnected` are history
      variables. */
  datatype State = State(
    conns: map<Id, Conn>,
    peers: map<Name, Id>,
    manual: set<Name>,
    pending: set<Name>,
    attempts: map<Id, Attempt>,
    calls: map<Id, Call>,
    shuttingDown: bool,
    registered: set<Id>,
    replaced: set<Id>,
    removed: set<Id>,
    reported: seq<Id>,
    reconnected: seq<Id>)

  const INITIAL := State(map[], map[], {}, {}, map[], map[], false, {}, {}, {}, [], [])

  /** Steps of one connection and its handler. */
  datatype ConnStep =
    | Arrive(name: Name)
    | Close
    | CheckManual
    | Register
    | ClearManual
    | EndLoop
    | CleanUp
    | Report
    | LoadShutdown
    | CheckReconnect
    | Reconnect(hasAddress: bool, call: Id)

  /** Steps of one outbound attempt. */
  datatype AttemptStep = Begin(name: Name) | CheckPending | CheckPeers | Reserve | Return | Release

  /** Steps of one user call. */
  datatype CallStep = Connect(name: Name) | Answer(ok: bool) | FinishConnect | LookUp(name: Name) | Mark | CloseMarked

  datatype Action =
    | OfConn(c: Id, conn: ConnStep)
    | OfAttempt(a: Id, attempt: AttemptStep)
    | OfCall(k: Id, call: CallStep)
    | ShutDown

  predicate At(s: State, c: Id, phase: Phase) {
    c in s.conns && s.conns[c].phase == phase
  }

  predicate AttemptAt(s: State, a: Id, phase: AttemptPhase) {
    a in s.attempts && s.attempts[a].phase == phase
  }

  predicate ConnEnabled(s: State, c: Id, step: ConnStep) {
    match step
    case Arrive(_) => c !in s.conns
    case Close => c in s.conns
    case CheckManual => At(s, c, Arrived)
    case Register => At(s, c, Checked) && (s.conns[c].name in s.peers ==> s.peers[s.conns[c].name] in s.conns)
    case ClearManual => At(s, c, Registered)
    case EndLoop => At(s, c, Serving)
    case CleanUp => At(s, c, Ended)
    case Report => At(s, c, CleanedOwn)
    case LoadShutdown => At(s, c, Reported) || At(s, c, CleanedOther)
    case CheckReconnect => At(s, c, Settling)
    case Reconnect(_, call) => At(s, c, Reconnecting) && call !in s.calls
  }

  predicate AttemptEnabled(s: State, a: Id, step: AttemptStep) {
    match step
    case Begin(_) => a !in s.attempts
    case CheckPending => AttemptAt(s, a, Begun)
    case CheckPeers => AttemptAt(s, a, SawNotPending)
    case Reserve => AttemptAt(s, a, SawNotConnected)
    case Return => AttemptAt(s, a, Holding)
    case Release => AttemptAt(s, a, AttemptPhase.Returned)
  }

  predicate CallEnabled(s: State, k: Id, step: CallStep) {
    match step
    case Connect(_) => k !in s.calls
    case Answer(_) => k in s.calls && s.calls[k].Asked?
    case FinishConnect => k in s.calls && s.calls[k].Accepted?
    case LookUp(_) => k !in s.calls
    case Mark => k in s.calls && s.calls[k].LookedUp?
    case CloseMarked => k in s.calls && s.calls[k].Marked? && s.calls[k].conn in s.conns
  }

  predicate Enabled(s: State, a: Action) {
    match a
    case OfConn(c, step) => ConnEnabled(s, c, step)
    case OfAttempt(a, step) => AttemptEnabled(s, a, step)
    case OfCall(k, step) => CallEnabled(s, k, step)
    case ShutDown => true
  }

  function Move(s: State, c: Id, phase: Phase): State
    requires c in s.conns
  {
    s.(conns := s.conns[c := s.conns[c].(phase := phase)])
  }

  function Shut(s: State, c: Id): State
    requires c in s.conns
  {
    s.(conns := s.conns[c := s.conns[c].(closed := true)])
  }

  function MoveAttempt(s: State, a: Id, phase: AttemptPhase): State
    requires a in s.attempts
  {
    s.(attempts := s.attempts[a := s.attempts[a].(phase := phase)])
  }

  function SetCall(s: State, k: Id, call: Call): State {
    s.(calls := s.calls[k := call])
  }

  /** Registration under the `peers` lock: an open entry wins over the newcomer, a
      closed one is replaced. */
  function Registration(s: State, c: Id): (t: State)
    requires ConnEnabled(s, c, Register)
    ensures t.manual == s.manual && t.pending == s.pending && t.attempts == s.attempts && t.calls == s.calls
  {
    var name := s.conns[c].name;
    if name in s.peers && !s.conns[s.peers[name]].closed then
      Move(Shut(s, c), c, Done)
    else
      var freed := if name in s.peers then Shut(s, s.peers[name]).(replaced := s.replaced + {s.peers[name]}) else s;
      Move(freed, c, Registered).(peers := s.peers[name := c], registered := s.registered + {c})
  }

  /** Clean-up under the `peers` lock: only an entry with the handler's own
      connection is removed. */
  function CleanedUp(s: State, c: Id): (t: State)
    requires ConnEnabled(s, c, CleanUp)
    ensures t.manual == s.manual && t.pending == s.pending && t.attempts == s.attempts && t.calls == s.calls
  {
    var name := s.conns[c].name;
    if name in s.peers && s.peers[name] == c then
      Move(s, c, CleanedOwn).(peers := s.peers - {name}, removed := s.removed + {c})
    else
      Move(s, c, CleanedOther)
  }

  function ConnApply(s: State, c: Id, step: ConnStep): State
    requires ConnEnabled(s, c, step)
  {
    match step
    case Arrive(name) => s.(conns := s.conns[c := Conn(name, false, Arrived)])
    case Close => Shut(s, c)
    case CheckManual => if s.conns[c].name in s.manual then Move(Shut(s, c), c, Done) else Move(s, c, Checked)
    case Register => Registration(s, c)
    case ClearManual => Move(s, c, Serving).(manual := s.manual - {s.conns[c].name})
    case EndLoop => Move(s, c, Ended)
    case CleanUp => CleanedUp(s, c)
    case Report => Move(s, c, Reported).(reported := s.reported + [c])
    case LoadShutdown => Move(s, c, if s.shuttingDown then Done else Settling)
    case CheckReconnect =>
      Move(s, c, if s.conns[c].name !in s.manual && c in s.removed then Reconnecting else Done)
    case Reconnect(hasAddress, call) =>
      var done := Move(s, c, Done);
      if hasAddress && !s.shuttingDown
      then SetCall(done, call, Asked(s.conns[c].name)).(reconnected := s.reconnected + [c]) else done
  }

  function AttemptApply(s: State, a: Id, step: AttemptStep): State
    requires AttemptEnabled(s, a, step)
  {
    match step
    case Begin(name) => s.(attempts := s.attempts[a := Attempt(name, Begun)])
    case CheckPending => MoveAttempt(s, a, if s.attempts[a].name in s.pending then Skipped else SawNotPending)
    case CheckPeers => MoveAttempt(s, a, if s.attempts[a].name in s.peers then Skipped else SawNotConnected)
    case Reserve =>
      if s.attempts[a].name in s.pending then MoveAttempt(s, a, Skipped)
      else MoveAttempt(s, a, Holding).(pending := s.pending + {s.attempts[a].name})
    case Return => MoveAttempt(s, a, AttemptPhase.Returned)
    case Release => MoveAttempt(s, a, Released).(pending := s.pending - {s.attempts[a].name})
  }

  function CallApply(s: State, k: Id, step: CallStep): State
    requires CallEnabled(s, k, step)
  {
    match step
    case Connect(name) => SetCall(s, k, if s.shuttingDown then Call.Returned else Asked(name))
    case Answer(ok) => SetCall(s, k, if ok then Accepted(s.calls[k].name) else Call.Returned)
    case FinishConnect => SetCall(s, k, Call.Returned).(manual := s.manual - {s.calls[k].name})
    case LookUp(name) => SetCall(s, k, if name in s.peers then LookedUp(name, s.peers[name]) else Call.Returned)
    case Mark => SetCall(s, k, Marked(s.calls[k].name, s.calls[k].conn)).(manual := s.manual + {s.calls[k].name})
    case CloseMarked => SetCall(Shut(s, s.calls[k].conn), k, Call.Returned)
  }

  function Apply(s: State, a: Action): State
    requires Enabled(s, a)
  {
    match a
    case OfConn(c, step) => ConnApply(s, c, step)
    case OfAttempt(a, step) => AttemptApply(s, a, step)
    case OfCall(k, step) => CallApply(s, k, step)
    case ShutDown => s.(shuttingDown := true)
  }

  predicate CanRun(s: State, run: seq<Action>)
    decreases |run|
  {
    run == [] || (Enabled(s, run[0]) && CanRun(Apply(s, run[0]), run[1..]))
  }

  function After(s: State, run: seq<Action>): State
    requires CanRun(s, run)
    decreases |run|
  {
    if run == [] then s else After(Apply(s, run[0]), run[1..])
  }

  // --------------------------------------------------- ownership of entries

  /** The handler has registered and not yet cleaned up. */
  predicate InRegistry(p: Phase) {
    p == Registered || p == Serving || p == Ended
  }

  /** The entry of its name holds this connection. */
  predicate Current(s: State, c: Id) {
    c in s.conns && s.conns[c].name in s.peers && s.peers[s.conns[c].name] == c
  }

  /** What is always true of one connection. */
  predicate ConnOk(s: State, c: Id)
    requires c in s.conns
  {
    var phase := s.conns[c].phase;
    // an open connection in the registry owns the entry, and only those in it do
    && (InRegistry(phase) && !s.conns[c].closed ==> Current(s, c))
    && (Current(s, c) ==> InRegistry(phase))
    // once registered: current, replaced or removed by its own handler, never two of these
    && (c in s.registered <==> Current(s, c) || c in s.replaced || c in s.removed)
    && !(Current(s, c) && c in s.replaced)
    && !(Current(s, c) && c in s.removed)
    && !(c in s.replaced && c in s.removed)
    && (phase == Arrived || phase == Checked ==> c !in s.registered)
    && (InRegistry(phase) ==> c in s.registered && c !in s.removed)
    && (c in s.replaced ==> s.conns[c].closed)
    // a loss is reported after the removal, and a reconnect follows the report
    && (phase == CleanedOwn || phase == Reported || phase == Reconnecting ==> c in s.removed)
    && (phase == CleanedOther ==> c !in s.removed)
    && (c in s.reported <==> c in s.removed && phase != CleanedOwn)
    && (c in s.reconnected ==> c in s.removed && phase == Done)
  }

  /** The registry and the history speak of known connections, under their names. */
  predicate Known(s: State) {
    && (forall n | n in s.peers :: s.peers[n] in s.conns && s.conns[s.peers[n]].name == n)
    && s.registered <= s.conns.Keys && s.replaced <= s.conns.Keys && s.removed <= s.conns.Keys
    && (forall c | c in s.reported :: c in s.conns)
    && (forall c | c in s.reconnected :: c in s.conns)
  }

  predicate Distinct(ids: seq<Id>) {
    forall i, j | 0 <= i < j < |ids| :: ids[i] != ids[j]
  }

  // ------------------------------------------------------ outbound attempts

  predicate Holds(s: State, a: Id, name: Name) {
    && a in s.attempts && s.attempts[a].name == name
    && (s.attempts[a].phase == Holding || s.attempts[a].phase == AttemptPhase.Returned)
  }

  /** A name is pending iff one attempt for it is between reservation and release,
      and then only one is. */
  ghost predicate PendingIsHeld(s: State) {
    && (forall n | n in s.pending :: exists a :: a in s.attempts && Holds(s, a, n))
    && (forall a | a in s.attempts && Holds(s, a, s.attempts[a].name) :: s.attempts[a].name in s.pending)
    && (forall a, b | a in s.attempts && b in s.attempts
                      && Holds(s, a, s.attempts[a].name) && Holds(s, b, s.attempts[a].name) ::
          a == b)
  }

  /** A recorded connection of a disconnect call is a known one. */
  ghost predicate CallsKnown(s: State) {
    forall k | k in s.calls && (s.calls[k].LookedUp? || s.calls[k].Marked?) :: s.calls[k].conn in s.conns
  }

  /** What concerns connections only. */
  ghost predicate ConnInv(s: State) {
    Known(s) && Distinct(s.reported) && Distinct(s.reconnected) && forall c | c in s.conns :: ConnOk(s, c)
  }

  ghost predicate Inv(s: State) {
    ConnInv(s) && PendingIsHeld(s) && CallsKnown(s)
  }

  lemma InitialInv()
    ensures Inv(INITIAL)
  {
  }
}
