/** What stays as it is over runs: configured members, blocked UIDs, and timers until they are stopped. */
module RoomKeeps {
  import opened Bytes
  import opened Lease
  import opened RoomState
  import opened Room
  import opened RoomInvariant
  import opened RoomSteps
  import opened RoomRuns
  import opened RoomRollback

  // ----- members that an expiry spares -----

  lemma ExpiryTakes(s: Room, key: Key, revision: Revision, remove: bool, save: SaveEnv)
    requires Inv(s) && s.running && key in s.books.Leases()
    requires s.books.Leases()[key].revision == revision && s.books.StateOf(key) != Configured
    ensures var after := s.Expire(key, revision, remove, save);
            && after.books == s.books.Drop(key)
            && after.world.peers == (if remove then s.world.peers - {key} else s.world.peers)
  {
    assert s.Expire(key, revision, remove, save) == s.(timers := s.timers - {key}).Discard(key, remove, save);
  }

  lemma ExpirySpares(s: Room, key: Key, revision: Revision, remove: bool, save: SaveEnv)
    requires key in s.books.Leases() ==>
               s.books.Leases()[key].revision != revision || s.books.StateOf(key) == Configured
    ensures s.Expire(key, revision, remove, save) == s.(timers := s.timers - {key})
  {
  }

  /** Main result. An expiry takes the lease it was armed for, unless its member is configured, and nothing else. */
  lemma ExpiryTakesIff(s: Room, key: Key, revision: Revision, remove: bool, save: SaveEnv)
    requires Inv(s) && s.running && key in s.books.Leases()
    ensures var after := s.Expire(key, revision, remove, save);
            if s.books.Leases()[key].revision == revision && s.books.states[key] != Configured then
              && after.books.Leases() == s.books.Leases() - {key} && after.books.psks == s.books.psks - {key}
              && after.books.states == s.books.states - {key}
              && after.world.peers == (if remove then s.world.peers - {key} else s.world.peers)
            else
              after == s.(timers := s.timers - {key})
  {
    assert s.books.StateOf(key) == s.books.states[key];
    if s.books.Leases()[key].revision == revision && s.books.states[key] != Configured {
      ExpiryTakes(s, key, revision, remove, save);
    } else {
      ExpirySpares(s, key, revision, remove, save);
    }
  }

  /** The event leaves the state of the key alone, or says again that its member is configured; expiries may fire. */
  predicate Sparing(e: Event, key: Key) {
    || Elsewhere(e, key) || e.Expire?
    || (e.UpdateStats? && key in e.seen && !e.seen[key])
  }

  /** A run of such events, each allowed where it is taken; of the key's own expiries nothing is asked. */
  ghost predicate SparingRun(s: Room, key: Key, events: seq<Event>)
    decreases |events|
  {
    |events| > 0 ==>
      && Sparing(events[0], key)
      && (Allowed(s, events[0]) || (events[0].Expire? && events[0].key == key))
      && SparingRun(Step(s, events[0]), key, events[1..])
  }

  /** The member is configured. */
  ghost predicate IsConfigured(s: Room, key: Key) {
    Inv(s) && s.running && key in s.books.Leases() && s.books.StateOf(key) == Configured
  }

  lemma SparingStep(s: Room, key: Key, e: Event)
    requires IsConfigured(s, key) && Sparing(e, key) && (Allowed(s, e) || (e.Expire? && e.key == key))
    ensures IsConfigured(Step(s, e), key) && ViewOf(Step(s, e), key) == ViewOf(s, key)
  {
    if Elsewhere(e, key) {
      StepElsewhere(s, e, key);
      StepKeepsInv(s, e);
    } else if e.Expire? {
      ExpiryTakesIff(s, key, e.revision, e.remove, e.save);
      MemoryStepKeepsInv(s, s.(timers := s.timers - {key}));
    } else {
      ReportedPointwise(SnapshotOf(s.books.Leases()), s.books.states, e.seen, key);
      ReportedHas(s.books.Leases(), key);
      UpdateStatsKeepsInv(s, e.seen);
    }
  }

  lemma ReportedHas(leases: map<Key, Lease>, key: Key)
    requires ValidLeases(leases) && key in leases
    ensures exists x :: x in SnapshotOf(leases) && x.publicKey == key
  {
    assert IsSnapshot(SnapshotOf(leases), leases);
    assert leases[key] in SnapshotOf(leases);
  }

  lemma {:induction false} ConfiguredIsKept(s: Room, key: Key, events: seq<Event>)
    requires IsConfigured(s, key) && SparingRun(s, key, events)
    ensures IsConfigured(Run(s, events), key) && ViewOf(Run(s, events), key) == ViewOf(s, key)
    decreases |events|
  {
    if |events| > 0 {
      SparingStep(s, key, events[0]);
      ConfiguredIsKept(Step(s, events[0]), key, events[1..]);
    }
  }

  /**
    * Main result. From the acknowledgement of its pairing on, no expiry takes anything of a member, whenever it
    * was armed, until a step on the member itself changes its state.
    */
  lemma AcknowledgedIsKept(s: Room, key: Key, a: Assignment, events: seq<Event>)
    requires Inv(s) && s.running && s.IsPending(key, a.token)
    requires SparingRun(s.Acknowledge(key, a), key, events)
    ensures var after := Run(s.Acknowledge(key, a), events);
            ViewOf(after, key) == ViewOf(s, key).(state := Configured, pending := None)
  {
    AcknowledgeKeepsInv(s, key, a);
    assert key in s.books.Leases() by {
      assert AttemptSound(s.books.pending[key], key, s.books.Leases(), s.books.attempt);
    }
    ConfiguredIsKept(s.Acknowledge(key, a), key, events);
  }

  /**
    * Main result. The same from a report of the member without a recent handshake on, though its pairing was never
    * acknowledged and its timer is armed.
    */
  lemma ReportedIsKept(s: Room, key: Key, seen: map<Key, bool>, events: seq<Event>)
    requires Inv(s) && s.running && key in s.books.Leases() && key in seen && !seen[key]
    requires SparingRun(s.UpdateStats(seen), key, events)
    ensures ViewOf(Run(s.UpdateStats(seen), events), key) == ViewOf(s, key).(state := Configured)
  {
    UpdateStatsKeepsInv(s, seen);
    ReportedPointwise(SnapshotOf(s.books.Leases()), s.books.states, seen, key);
    ReportedHas(s.books.Leases(), key);
    ConfiguredIsKept(s.UpdateStats(seen), key, events);
  }

  // ----- bans -----

  /** Only unblocking the UID, or a new life of the room, could lift a ban of it. */
  predicate KeepsBan(e: Event, uid: Uid) {
    !(e.Unblock? && e.uid == uid) && !e.Stop? && !e.Create? && !e.Start?
  }

  lemma StepKeepsBan(s: Room, e: Event, uid: Uid)
    requires uid in s.settings.blocked && KeepsBan(e, uid)
    ensures uid in Step(s, e).settings.blocked
  {
    if e.Pair? {
      AssignKeepsKind(s, e.key, e.name, e.pairKey, e.existingAuth, e.env);
    }
  }

  lemma {:induction false} RunKeepsBan(s: Room, events: seq<Event>, uid: Uid)
    requires uid in s.settings.blocked && forall i :: 0 <= i < |events| ==> KeepsBan(events[i], uid)
    ensures uid in Run(s, events).settings.blocked
    decreases |events|
  {
    if |events| > 0 {
      StepKeepsBan(s, events[0], uid);
      RunKeepsBan(Step(s, events[0]), events[1..], uid);
    }
  }

  /**
    * Main result. Blocking a member that is removed bans its UID and no other, through every run until that UID
    * is unblocked; removing it without blocking bans nobody.
    */
  lemma BlockingBans(s: Room, key: Key, block: bool, env: RemoveEnv, events: seq<Event>)
    requires s.RemoveMember(key, block, env).1 && key in s.uids
    requires forall i :: 0 <= i < |events| ==> KeepsBan(events[i], s.uids[key])
    ensures var after := s.RemoveMember(key, block, env).0;
            && after.settings.blocked == (if block then s.settings.blocked + {s.uids[key]} else s.settings.blocked)
            && key !in after.uids
            && (block ==> s.uids[key] in Run(after, events).settings.blocked)
  {
    var after := s.RemoveMember(key, block, env).0;
    if block {
      RunKeepsBan(after, events, s.uids[key]);
    }
  }

  // ----- timers -----

  /** A first pairing of the key fails. */
  predicate Arms(s: Room, e: Event, key: Key) {
    e.Fail? && e.key == key && s.IsPending(key, e.a.token) && e.a.created
  }

  /** The key's timer has fired, its pairing is acknowledged, its member is being removed, or the room stops. */
  ghost predicate Disarms(s: Room, e: Event, key: Key) {
    match e
    case Expire(k, _, _, _) => k == key
    case Acknowledge(k, a) => k == key && s.running && s.books.table.Some? && s.IsPending(key, a.token)
    case Remove(k, block, _) => k == key && s.running && key in s.books.Leases() && (block ==> ValidUid(s.UidOf(key)))
    case Stop => s.running
    case _ => false
  }

  lemma AssignKeepsTimers(s: Room, key: Key, name: seq<Byte>, pairKey: nat, existingAuth: bool, env: AssignEnv)
    ensures var after := s.Assign(key, name, pairKey, existingAuth, env).0;
            after.timers == s.timers && after.armed == s.armed
  {
    AssignUnfolds(s, key, name, pairKey, existingAuth, env);
  }

  /** Main result. Of every step: whose timer it sets, and whose it stops. */
  lemma TimersExactly(s: Room, e: Event, key: Key)
    ensures Lookup(Step(s, e).timers, key) == if Arms(s, e, key) then Some(e.a.revision)
                                              else if Disarms(s, e, key) then None
                                              else Lookup(s.timers, key)
  {
    if e.Pair? {
      AssignKeepsTimers(s, e.key, e.name, e.pairKey, e.existingAuth, e.env);
    } else if e.Remove? {
      RemoveStopsTimer(s, e, key);
    } else if e.Create? {
      CreateKeepsTimers(s, e.options, e.start);
    } else if e.Start? {
      StartKeepsTimers(s, e.hostKey, e.start);
    }
  }

  lemma CreateKeepsTimers(s: Room, o: CreateOptions, env: StartEnv)
    ensures s.Create(o, env).0.timers == s.timers && s.Create(o, env).0.armed == s.armed
  {
  }

  lemma StartKeepsTimers(s: Room, hostKey: Key, env: StartEnv)
    ensures s.Start(hostKey, env).0.timers == s.timers && s.Start(hostKey, env).0.armed == s.armed
  {
  }

  lemma RemoveStopsTimer(s: Room, e: Event, key: Key)
    requires e.Remove?
    ensures Lookup(Step(s, e).timers, key) == if Disarms(s, e, key) then None else Lookup(s.timers, key)
  {
  }

  /** Main result. Callbacks once armed are never forgotten, and only a failed first pairing arms one. */
  lemma ArmedExactly(s: Room, e: Event)
    ensures Step(s, e).armed == if e.Fail? && Arms(s, e, e.key) then s.armed + {(e.key, e.a.revision)} else s.armed
  {
    if e.Pair? {
      AssignKeepsTimers(s, e.key, e.name, e.pairKey, e.existingAuth, e.env);
    } else if e.Create? {
      CreateKeepsTimers(s, e.options, e.start);
    } else if e.Start? {
      StartKeepsTimers(s, e.hostKey, e.start);
    }
  }

  // ----- peers -----

  /** While the network is down WireGuard has no peers. */
  predicate NoPeersDown(w: World) {
    !w.networkUp ==> w.peers == map[]
  }

  lemma AssignNoPeersDown(s: Room, key: Key, name: seq<Byte>, pairKey: nat, existingAuth: bool, env: AssignEnv)
    requires NoPeersDown(s.world)
    ensures NoPeersDown(s.Assign(key, name, pairKey, existingAuth, env).0.world)
  {
    AssignUnfolds(s, key, name, pairKey, existingAuth, env);
  }

  lemma StartNoPeersDown(s: Room, hostKey: Key, env: StartEnv)
    requires NoPeersDown(s.world)
    ensures NoPeersDown(s.Start(hostKey, env).0.world)
  {
  }

  lemma RemoveNoPeersDown(s: Room, key: Key, block: bool, env: RemoveEnv)
    requires NoPeersDown(s.world)
    ensures NoPeersDown(s.RemoveMember(key, block, env).0.world)
  {
  }

  lemma StepNoPeersDown(s: Room, e: Event)
    requires NoPeersDown(s.world)
    ensures NoPeersDown(Step(s, e).world)
  {
    if e.Pair? {
      AssignNoPeersDown(s, e.key, e.name, e.pairKey, e.existingAuth, e.env);
    } else if e.Start? {
      StartNoPeersDown(s, e.hostKey, e.start);
    } else if e.Remove? {
      RemoveNoPeersDown(s, e.key, e.block, e.removal);
    }
  }

  /** Main result. In every run, whatever fails in it, a network that is down has no peers. */
  lemma {:induction false} RunNoPeersDown(s: Room, events: seq<Event>)
    requires NoPeersDown(s.world)
    ensures NoPeersDown(Run(s, events).world)
    decreases |events|
  {
    if |events| > 0 {
      StepNoPeersDown(s, events[0]);
      RunNoPeersDown(Step(s, events[0]), events[1..]);
    }
  }
}
