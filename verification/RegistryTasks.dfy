/** The lock sections themselves, on shared connection objects: each carries out
    one step of the transition system. */
module RegistryTasks {
  import opened Registry

  /** A shared handle to one connection. */
  class Connection {
    const stableId: Id
    var closed: bool

    constructor (id: Id)
      ensures stableId == id && !closed
    {
      stableId := id;
      closed := false;
    }

    method Close()
      modifies this
      ensures closed
    {
      closed := true;
    }
  }

  /** Taking an entry changes the newcomer's phase and the entry, nothing else: the
      connection it replaces was closed already. */
  lemma EntryTaken(s: State, c: Id)
    requires ConnEnabled(s, c, Register)
    requires s.conns[c].name in s.peers ==> s.conns[s.peers[s.conns[c].name]].closed
    ensures Registration(s, c).peers == s.peers[s.conns[c].name := c]
    ensures Registration(s, c).conns == s.conns[c := s.conns[c].(phase := Registered)]
    ensures Registration(s, c) == ConnApply(s, c, Register)
  {
  }

  class SharedState {
    var peers: map<Name, Connection>
    var manuallyDisconnected: set<Name>
    var pendingOutbound: set<Name>
    /** The abstract state, and the connection object behind each identity. */
    ghost var state: State
    ghost var handles: map<Id, Connection>

    ghost predicate HandlesRight()
      reads this, handles.Values
    {
      && handles.Keys == state.conns.Keys
      && forall c | c in handles :: handles[c].stableId == c && handles[c].closed == state.conns[c].closed
    }

    /** The objects represent the abstract state. */
    ghost predicate Valid()
      reads this, handles.Values
    {
      && HandlesRight()
      && peers.Keys == state.peers.Keys
      && (forall n | n in peers :: state.peers[n] in handles && peers[n] == handles[state.peers[n]])
      && manuallyDisconnected == state.manual
      && pendingOutbound == state.pending
    }

    constructor ()
      ensures Valid() && state == INITIAL
    {
      peers, manuallyDisconnected, pendingOutbound := map[], {}, {};
      state, handles := INITIAL, map[];
    }

    ghost predicate Handles(c: Id, conn: Connection, name: Name)
      reads this
    {
      c in handles && handles[c] == conn && c in state.conns && state.conns[c].name == name
    }

    /** A new connection, incoming or outgoing. */
    method Accept(c: Id, name: Name) returns (conn: Connection)
      requires Valid() && ConnEnabled(state, c, Arrive(name))
      modifies this
      ensures Valid() && state == ConnApply(old(state), c, Arrive(name))
      ensures Handles(c, conn, name) && fresh(conn) && handles == old(handles)[c := conn]
    {
      conn := new Connection(c);
      ghost var before := state;
      handles := handles[c := conn];
      state := ConnApply(before, c, Arrive(name));
    }

    /** src/connections/mod.rs:389-398 */
    method CheckManual(ghost c: Id, conn: Connection, name: Name) returns (pass: bool)
      requires Valid() && Handles(c, conn, name) && ConnEnabled(state, c, ConnStep.CheckManual)
      modifies this`state, conn
      ensures Valid() && state == ConnApply(old(state), c, ConnStep.CheckManual)
      ensures pass <==> name !in manuallyDisconnected
      ensures conn.closed == (!pass || old(conn.closed))
    {
      pass := name !in manuallyDisconnected;
      if !pass { conn.Close(); }
      state := ConnApply(state, c, ConnStep.CheckManual);
    }

    /** src/connections/mod.rs:400-438 */
    method RegisterPeer(ghost c: Id, conn: Connection, name: Name) returns (registered: bool)
      requires Valid() && Handles(c, conn, name) && ConnEnabled(state, c, Register)
      modifies this`state, this`peers, handles.Values
      ensures Valid() && handles == old(handles) && state == ConnApply(old(state), c, Register)
      ensures registered <==> name !in old(peers) || old(peers[name].closed)
      ensures peers == if registered then old(peers)[name := conn] else old(peers)
      ensures conn.closed == (!registered || old(conn.closed))
      ensures forall d | d in handles && d != c :: handles[d].closed == old(handles[d].closed)
    {
      registered := !(name in peers && !peers[name].closed);
      if registered {
        Admit(c, conn, name);
      } else {
        conn.Close();
        state := ConnApply(state, c, Register);
      }
    }

    method Admit(ghost c: Id, conn: Connection, name: Name)
      requires Valid() && Handles(c, conn, name) && ConnEnabled(state, c, Register)
      requires name in peers ==> peers[name].closed
      modifies this`state, this`peers, handles.Values
      ensures Valid() && handles == old(handles) && state == ConnApply(old(state), c, Register)
      ensures peers == old(peers)[name := conn]
      ensures forall d | d in handles :: handles[d].closed == old(handles[d].closed)
    {
      hide ConnApply, Registration, ConnEnabled;
      EntryTaken(state, c);
      TakeEntry(conn, name);
      assert forall d | d in handles :: handles[d].closed == old(handles[d].closed);
      ghost var before := state;
      state := ConnApply(state, c, Register);
      EntryRepresented(before, c);
    }

    /** The objects after an entry is taken represent the state after it. */
    lemma EntryRepresented(before: State, c: Id)
      requires ConnEnabled(before, c, Register) && c in handles && state == ConnApply(before, c, Register)
      requires var name := before.conns[c].name;
               && (name in before.peers ==> before.conns[before.peers[name]].closed)
               && peers.Keys == before.peers.Keys + {name} && peers[name] == handles[c]
               && (forall n | n in before.peers :: before.peers[n] in handles)
               && (forall n | n in peers && n != name :: peers[n] == handles[before.peers[n]])
      requires handles.Keys == before.conns.Keys
      requires forall d | d in handles :: handles[d].stableId == d && handles[d].closed == before.conns[d].closed
      requires manuallyDisconnected == before.manual && pendingOutbound == before.pending
      ensures Valid()
    {
      hide ConnApply, Registration;
      EntryTaken(before, c);
    }

    /** No open connection holds the entry: replace a closed one and move in. */
    method TakeEntry(conn: Connection, name: Name)
      requires name in peers ==> peers[name].closed
      modifies this`peers, if name in peers then {peers[name]} else {}
      ensures peers == old(peers)[name := conn]
      ensures name in old(peers) ==> old(peers)[name].closed
    {
      if name in peers {
        var replaced := peers[name];
        peers := peers - {name};
        replaced.Close();
      }
      peers := peers[name := conn];
    }

    /** src/connections/mod.rs:441-445 */
    method ClearManual(ghost c: Id, name: Name)
      requires Valid() && ConnEnabled(state, c, ConnStep.ClearManual) && state.conns[c].name == name
      modifies this`state, this`manuallyDisconnected
      ensures Valid() && state == ConnApply(old(state), c, ConnStep.ClearManual)
    {
      manuallyDisconnected := manuallyDisconnected - {name};
      state := ConnApply(state, c, ConnStep.ClearManual);
    }

    /** src/connections/mod.rs:498-514: only an entry with the handler's own stable
        identity is removed. */
    method CleanUpPeer(ghost c: Id, conn: Connection, name: Name) returns (wasConnected: bool)
      requires Valid() && Handles(c, conn, name) && ConnEnabled(state, c, CleanUp)
      modifies this`state, this`peers
      ensures Valid() && state == ConnApply(old(state), c, CleanUp)
      ensures wasConnected <==> name in old(peers) && old(peers)[name].stableId == conn.stableId
      ensures peers == if wasConnected then old(peers) - {name} else old(peers)
    {
      wasConnected := name in peers && peers[name].stableId == conn.stableId;
      if wasConnected { peers := peers - {name}; }
      state := ConnApply(state, c, CleanUp);
    }

    // ------------------------------- begin_outbound_connect, lock by lock

    /** src/connections/mod.rs:348-355 */
    method CheckPending(ghost a: Id, name: Name) returns (free: bool)
      requires Valid() && AttemptEnabled(state, a, AttemptStep.CheckPending) && state.attempts[a].name == name
      modifies this`state
      ensures Valid() && state == AttemptApply(old(state), a, AttemptStep.CheckPending)
      ensures free <==> name !in pendingOutbound
      ensures free <==> state.attempts[a].phase == SawNotPending
    {
      free := name !in pendingOutbound;
      state := AttemptApply(state, a, AttemptStep.CheckPending);
    }

    /** src/connections/mod.rs:357-359 */
    method CheckPeers(ghost a: Id, name: Name) returns (free: bool)
      requires Valid() && AttemptEnabled(state, a, AttemptStep.CheckPeers) && state.attempts[a].name == name
      modifies this`state
      ensures Valid() && state == AttemptApply(old(state), a, AttemptStep.CheckPeers)
      ensures free <==> name !in peers
      ensures free <==> state.attempts[a].phase == SawNotConnected
    {
      free := name !in peers;
      state := AttemptApply(state, a, AttemptStep.CheckPeers);
    }

    /** src/connections/mod.rs:361-367 */
    method Reserve(ghost a: Id, name: Name) returns (reserved: bool)
      requires Valid() && AttemptEnabled(state, a, AttemptStep.Reserve) && state.attempts[a].name == name
      modifies this`state, this`pendingOutbound
      ensures Valid() && state == AttemptApply(old(state), a, AttemptStep.Reserve)
      ensures reserved <==> name !in old(pendingOutbound)
      ensures reserved <==> Holds(state, a, name)
    {
      reserved := name !in pendingOutbound;
      if reserved { pendingOutbound := pendingOutbound + {name}; }
      state := AttemptApply(state, a, AttemptStep.Reserve);
    }

    /** src/connections/mod.rs:328-332 */
    method Release(ghost a: Id, name: Name)
      requires Valid() && AttemptEnabled(state, a, AttemptStep.Release) && state.attempts[a].name == name
      modifies this`state, this`pendingOutbound
      ensures Valid() && state == AttemptApply(old(state), a, AttemptStep.Release)
    {
      pendingOutbound := pendingOutbound - {name};
      state := AttemptApply(state, a, AttemptStep.Release);
    }

    // --------------------------------- disconnect_peer and connect_to_peer

    /** src/lib.rs:217-223 */
    method LookUpPeer(ghost k: Id, name: Name) returns (found: bool, conn: Connection?)
      requires Valid() && Known(state) && CallEnabled(state, k, LookUp(name))
      modifies this`state
      ensures Valid() && state == CallApply(old(state), k, LookUp(name))
      ensures found <==> name in peers
      ensures found ==> conn == peers[name]
      ensures found <==> state.calls[k].LookedUp?
      ensures found ==> conn != null && Handles(state.calls[k].conn, conn, name)
    {
      found := name in peers;
      conn := if found then peers[name] else null;
      assert found ==> state.conns[state.peers[name]].name == name;
      state := CallApply(state, k, LookUp(name));
    }

    /** src/lib.rs:225-228 */
    method MarkDisconnected(ghost k: Id, name: Name)
      requires Valid() && CallEnabled(state, k, Mark) && state.calls[k].name == name
      modifies this`state, this`manuallyDisconnected
      ensures Valid() && state == CallApply(old(state), k, Mark)
    {
      manuallyDisconnected := manuallyDisconnected + {name};
      state := CallApply(state, k, Mark);
    }

    /** src/lib.rs:229 */
    method CloseDisconnected(ghost k: Id, conn: Connection)
      requires Valid() && CallEnabled(state, k, CloseMarked) && handles[state.calls[k].conn] == conn
      modifies this`state, conn
      ensures Valid() && state == CallApply(old(state), k, CloseMarked)
    {
      conn.Close();
      state := CallApply(state, k, CloseMarked);
    }

    /** src/lib.rs:207-210 */
    method FinishConnectCall(ghost k: Id, name: Name)
      requires Valid() && CallEnabled(state, k, FinishConnect) && state.calls[k].name == name
      modifies this`state, this`manuallyDisconnected
      ensures Valid() && state == CallApply(old(state), k, FinishConnect)
    {
      manuallyDisconnected := manuallyDisconnected - {name};
      state := CallApply(state, k, FinishConnect);
    }
  }
}
