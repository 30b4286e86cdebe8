/** Sessions and stream ids: the master store, the stream registry and the janitor
    (src/server/stream_registry.rs, src/server/janitor.rs, and the part of src/server/handlers.rs that checks a
    session's age and registers a stream). Clocks are whole seconds since the server started. */
module Lifetime {
  const MASTER_EXPIRY: nat := 1200

  type Session = nat
  type StreamId = nat

  datatype Entry = Entry(active: bool, since: nat)

  datatype Query = Fresh | Active | Consumed

  function Saturating(a: nat, b: nat): nat {
    if a < b then 0 else a - b
  }

  /** The stream registry. */
  class Registry {
    var streams: map<StreamId, Entry>

    constructor ()
      ensures streams == map[]
    {
      streams := map[];
    }

    method Register(id: StreamId, now: nat) returns (ok: bool)
      modifies this
      ensures ok <==> id !in old(streams)
      ensures streams == if ok then old(streams)[id := Entry(true, now)] else old(streams)
    {
      ok := id !in streams;
      if ok {
        streams := streams[id := Entry(true, now)];
      }
    }

    method MarkConsumed(id: StreamId)
      modifies this
      ensures streams == if id in old(streams) then old(streams)[id := old(streams)[id].(active := false)] else old(streams)
    {
      if id in streams {
        streams := streams[id := streams[id].(active := false)];
      }
    }

    method Check(id: StreamId) returns (q: Query)
      ensures q.Fresh? <==> id !in streams
      ensures q.Active? <==> id in streams && streams[id].active
    {
      if id !in streams {
        return Fresh;
      }
      q := if streams[id].active then Active else Consumed;
    }

    /** Keeps exactly the active entries and those no older than the cutoff, and counts the others. */
    method RemoveConsumedBefore(cutoff: nat) returns (removed: nat)
      modifies this
      ensures forall id :: id in streams <==> id in old(streams) && (old(streams)[id].active || old(streams)[id].since >= cutoff)
      ensures forall id :: id in streams ==> streams[id] == old(streams)[id]
      ensures removed == |old(streams)| - |streams|
    {
      var todo := streams.Keys;
      removed := 0;
      while todo != {}
        invariant todo <= streams.Keys <= old(streams).Keys
        invariant forall id :: id in streams ==> streams[id] == old(streams)[id]
        invariant forall id :: id in old(streams) ==>
                    (id in streams <==> id in todo || old(streams)[id].active || old(streams)[id].since >= cutoff)
        invariant removed + |streams| == |old(streams)|
        decreases todo
      {
        var id :| id in todo;
        todo := todo - {id};
        if !(streams[id].active || streams[id].since >= cutoff) {
          assert streams.Keys == (streams - {id}).Keys + {id};
          streams := streams - {id};
          removed := removed + 1;
        }
      }
    }
  }

  /** `prune_expired_masters`: exactly the masters that have not reached the expiry age are kept. */
  method PruneExpiredMasters(masters: map<Session, nat>, now: nat) returns (kept: map<Session, nat>, pruned: nat)
    ensures forall s :: s in kept <==> s in masters && Saturating(now, masters[s]) < MASTER_EXPIRY
    ensures forall s :: s in kept ==> kept[s] == masters[s]
    ensures pruned == |masters| - |kept|
  {
    kept, pruned := masters, 0;
    var todo := masters.Keys;
    while todo != {}
      invariant todo <= kept.Keys <= masters.Keys
      invariant forall s :: s in kept ==> kept[s] == masters[s]
      invariant forall s :: s in masters ==> (s in kept <==> s in todo || Saturating(now, masters[s]) < MASTER_EXPIRY)
      invariant pruned + |kept| == |masters|
      decreases todo
    {
      var s :| s in todo;
      todo := todo - {s};
      if Saturating(now, kept[s]) >= MASTER_EXPIRY {
        assert kept.Keys == (kept - {s}).Keys + {s};
        kept := kept - {s};
        pruned := pruned + 1;
      }
    }
  }

  /** Why a stream of a session cannot be registered again: its entry is still there, no older than the session, or a round of the
      janitor found the session past its expiry. */
  ghost predicate Guarded(created: map<Session, nat>, streams: map<StreamId, Entry>, lastSweep: nat, s: Session, id: StreamId) {
    && s in created
    && ((id in streams && created[s] <= streams[id].since) || lastSweep > created[s] + MASTER_EXPIRY)
  }

  /** The server's session state over its whole life. */
  class Server {
    var masters: map<Session, nat>
    const registry: Registry
    /** The clock never goes back. */
    var clock: nat

    /** When each session that ever existed was created, every registration that ever succeeded, and the time of the
        janitor's last round. */
    ghost var created: map<Session, nat>
    ghost var registered: set<(Session, StreamId)>
    ghost var lastSweep: nat

    ghost predicate Valid()
      reads this, registry
    {
      && (forall s :: s in masters ==> s in created && created[s] == masters[s])
      && (forall s :: s in created ==> created[s] <= clock)
      && lastSweep <= clock
      && (forall s, id :: (s, id) in registered ==> Guarded(created, registry.streams, lastSweep, s, id))
    }

    constructor ()
      ensures Valid() && fresh(registry) && registered == {} && masters == map[] && created == map[]
      ensures clock == 0 && lastSweep == 0 && registry.streams == map[]
    {
      masters, clock, created, registered, lastSweep := map[], 0, map[], {}, 0;
      registry := new Registry();
    }

    method Tick(d: nat)
      requires Valid()
      modifies this`clock
      ensures Valid() && clock == old(clock) + d
    {
      clock := clock + d;
    }

    /** The end of a handshake: a session under an identifier never used before. */
    method Handshake(s: Session)
      requires Valid() && s !in created
      modifies this`masters, this`created
      ensures Valid() && masters == old(masters)[s := clock] && created == old(created)[s := clock]
    {
      masters, created := masters[s := clock], created[s := clock];
    }

    /** The expiry check; the master of an expired session is dropped. */
    method CheckSession(s: Session) returns (ok: bool)
      requires Valid()
      modifies this`masters
      ensures Valid()
      ensures ok <==> s in old(masters) && clock <= old(masters)[s] + MASTER_EXPIRY
      ensures masters == if ok then old(masters) else old(masters) - {s}
      ensures ok ==> s in created && clock <= created[s] + MASTER_EXPIRY
    {
      if s !in masters {
        return false;
      }
      if Saturating(clock, masters[s]) > MASTER_EXPIRY {
        masters := masters - {s};
        return false;
      }
      ok := true;
    }

    /** The registration that follows a check. A stream that was ever registered for the session is refused, unless the janitor has run past the
        session's expiry; in particular if it has not run with a later clock since the check, which passed within the lifetime. */
    method RegisterStream(s: Session, id: StreamId, checkedAt: nat) returns (ok: bool)
      requires Valid() && s in created && created[s] <= clock && checkedAt <= created[s] + MASTER_EXPIRY
      modifies this`registered, registry
      ensures Valid()
      ensures ok <==> id !in old(registry.streams)
      ensures registry.streams == if ok then old(registry.streams)[id := Entry(true, clock)] else old(registry.streams)
      ensures registered == if ok then old(registered) + {(s, id)} else old(registered)
      ensures ok && (s, id) in old(registered) ==> lastSweep > created[s] + MASTER_EXPIRY >= checkedAt
    {
      ok := registry.Register(id, clock);
      if ok {
        registered := registered + {(s, id)};
      }
    }

    method Consume(id: StreamId)
      requires Valid()
      modifies registry
      ensures Valid()
      ensures registry.streams == if id in old(registry.streams) then old(registry.streams)[id := old(registry.streams)[id].(active := false)] else old(registry.streams)
    {
      registry.MarkConsumed(id);
    }

    /** One round of the janitor. An entry it removes belongs only to sessions past their expiry, whose masters are gone. */
    method Sweep() returns (prunedMasters: nat, prunedStreams: nat)
      requires Valid()
      modifies this`masters, this`lastSweep, registry
      ensures Valid() && lastSweep == clock
      ensures forall id :: id in registry.streams <==>
                id in old(registry.streams) && (old(registry.streams)[id].active || old(registry.streams)[id].since + MASTER_EXPIRY >= clock)
      ensures forall s, id :: (s, id) in registered && id in old(registry.streams) && id !in registry.streams ==>
                clock > created[s] + MASTER_EXPIRY && s !in masters
    {
      masters, prunedMasters := PruneExpiredMasters(masters, clock);
      var cutoff := Saturating(clock, MASTER_EXPIRY);
      ghost var before, earlier := registry.streams, lastSweep;
      prunedStreams := registry.RemoveConsumedBefore(cutoff);
      lastSweep := clock;
      forall s, id | (s, id) in registered
        ensures Guarded(created, registry.streams, clock, s, id)
        ensures id in before && id !in registry.streams ==> clock > created[s] + MASTER_EXPIRY && s !in masters
      {
        assert Guarded(created, before, earlier, s, id);
      }
    }
  }

  /** A request that has passed the expiry check and not yet registered its stream. */
  datatype Attempt = Attempt(s: Session, id: StreamId, checkedAt: nat)

  datatype Step = Ticks(d: nat) | Handshakes(s: Session) | Begins(s: Session, id: StreamId) | Registers(k: nat) | Consumes(id: StreamId) | Sweeps

  /** A successful registration: when the check passed, when the session expires, and when the janitor last ran. */
  datatype Grant = Grant(s: Session, id: StreamId, checkedAt: nat, expires: nat, sweptAt: nat)

  /** The second of two registrations was let through by a round of the janitor past the session's expiry, after the check. */
  predicate Late(g: Grant) {
    g.checkedAt <= g.expires < g.sweptAt
  }

  /** The whole life of a server under any steps, with requests on several threads. A stream is never registered twice for one session,
      unless the janitor ran past the session's expiry between the check, which passed before it, and the second registration. Handshakes that
      would reuse a session identifier do not happen. */
  method Live(steps: seq<Step>) returns (grants: seq<Grant>)
    ensures forall i, j :: 0 <= i < j < |grants| && grants[i].s == grants[j].s && grants[i].id == grants[j].id ==> Late(grants[j])
  {
    var server := new Server();
    grants := [];
    var attempts: seq<Attempt> := [];
    var known: map<Session, nat> := map[];
    var sweptAt := 0;
    for n := 0 to |steps|
      invariant server.Valid() && fresh(server) && fresh(server.registry) && server.lastSweep == sweptAt
      invariant server.created == known
      invariant forall a :: a in attempts ==> a.s in server.created && a.checkedAt <= server.created[a.s] + MASTER_EXPIRY
      invariant forall g :: g in grants ==> (g.s, g.id) in server.registered
      invariant forall i, j :: 0 <= i < j < |grants| && grants[i].s == grants[j].s && grants[i].id == grants[j].id ==> Late(grants[j])
    {
      match steps[n] {
        case Ticks(d) =>
          server.Tick(d);
        case Handshakes(s) =>
          if s !in known {
            server.Handshake(s);
            known := known[s := server.clock];
          }
        case Begins(s, id) =>
          var ok := server.CheckSession(s);
          if ok {
            attempts := attempts + [Attempt(s, id, server.clock)];
          }
        case Registers(k) =>
          if k < |attempts| {
            var a := attempts[k];
            attempts := attempts[..k] + attempts[k + 1..];
            var ok := server.RegisterStream(a.s, a.id, a.checkedAt);
            if ok {
              grants := grants + [Grant(a.s, a.id, a.checkedAt, known[a.s] + MASTER_EXPIRY, sweptAt)];
            }
          }
        case Consumes(id) =>
          server.Consume(id);
        case Sweeps =>
          var _, _ := server.Sweep();
          sweptAt := server.clock;
      }
    }
  }

  /** The exception is real, and this is exactly how it comes about: once a stream has been used up, a round of the janitor past its entry's
      lifetime lets it be registered again, for a request whose check passed before; without such a round it is refused. */
  method RegisterAgain(server: Server, s: Session, id: StreamId, checkedAt: nat, sweeps: bool) returns (ok: bool)
    requires server.Valid() && s in server.created && checkedAt <= server.created[s] + MASTER_EXPIRY
    requires id in server.registry.streams && !server.registry.streams[id].active
    modifies server, server.registry
    ensures server.clock == old(server.clock)
    ensures ok <==> sweeps && server.clock > old(server.registry.streams[id].since) + MASTER_EXPIRY
  {
    if sweeps {
      var _, _ := server.Sweep();
    }
    ok := server.RegisterStream(s, id, checkedAt);
  }

  /** A run from the start: a stream of a session created at second zero, used up at once, is pruned at second 1201; a check that
      passed at second 1200 then registers it again. */
  method CheckThenSweepRegistersTwice() returns (first: bool, checked: bool, second: bool)
    ensures first && checked && second
  {
    var server := new Server();
    server.Handshake(7);
    first := server.RegisterStream(7, 9, 0);
    server.Consume(9);
    server.Tick(1200);
    checked := server.CheckSession(7);
    server.Tick(1);
    second := RegisterAgain(server, 7, 9, 1200, true);
  }
}
