/** Every step of the room keeps the invariant, and a fixed room's files current. */
module RoomSteps {
  import opened Bytes
  import opened Lease
  import opened RoomState
  import opened Room
  import opened RoomInvariant

  // ----- assign -----

  /** The room as it was, except that its counters may have moved on and the backup been refreshed. */
  ghost predicate Rewound(s: Room, revision: Revision, after: Room) {
    && after == s.(books := CountersMoved(s.books, revision), world := s.world.(disk := after.world.disk))
    && DiskUndone(s.world.disk, after.world.disk)
  }

  /**
    * What assign amounts to: either the attempt is granted in full and, in a fixed room, on disk, or
    * it has left nothing behind but its numbers.
    */
  ghost predicate Transaction(s: Room, key: Key, name: seq<Byte>, psk: Psk, after: Room,
                              reply: Result<Assignment, Refusal>) {
    var (t, r) := s.books.Pool().Assign(key, name);
    match reply
    case Ok(a) =>
      && s.running && key !in s.books.pending
      && r.Ok? && Allocated(s.books.Pool(), key, r.value.lease, t.revision)
      && SavedOrNot(Granted(s, key, r.value.lease, t.revision, psk), after, true)
      && a == Assignment(r.value.lease.ip, r.value.lease.revision, key !in s.books.Leases(), s.books.attempt + 1)
    case Err(e) =>
      if e in {ApplyFailed, SaveFailed} then
        && s.running
        && r.Ok? && Allocated(s.books.Pool(), key, r.value.lease, t.revision)
        && Rewound(s, t.revision, after)
      else after == s
  }

  /** The compensating calls of a step are answered. */
  predicate Compensated(undo: bool, save: SaveEnv) {
    undo && save.undoOk
  }

  lemma AssignUnfolds(s: Room, key: Key, name: seq<Byte>, pairKey: nat, existingAuth: bool, env: AssignEnv)
    ensures var (t, r) := s.books.Pool().Assign(key, name);
            var (after, reply) := s.Assign(key, name, pairKey, existingAuth, env);
            if s.Refusal(key, existingAuth).None? && r.Ok? then
              (after, reply) == s.Carry(key, t, r.value, s.AttemptPsk(key, pairKey, existingAuth), existingAuth, env)
            else
              after == s && reply.Err? && reply.error !in {ApplyFailed, SaveFailed}
  {
  }

  lemma CarryUnfolds(s: Room, key: Key, t: Table, r: Assigned, psk: Psk, existingAuth: bool, env: AssignEnv)
    requires s.world.networkUp && r.lease.publicKey == key && t == Table(s.books.Leases()[key := r.lease], t.revision)
    requires existingAuth ==> key in s.world.peers && s.world.peers[key] == Peer(r.lease.ip, psk)
    ensures var begun, p := s.(books := s.books.Begin(key, psk, t)), s.books.AttemptFor(key);
            var (now, saved) := Granted(s, key, r.lease, t.revision, psk).SaveIfFixed(env.save);
            s.Carry(key, t, r, psk, existingAuth, env) ==
            if !existingAuth && !env.apply then (begun.Rollback(key, p, env.undo), Err(ApplyFailed))
            else if !saved then (now.Rollback(key, p, env.undo), Err(SaveFailed))
            else (now, Ok(Assignment(r.lease.ip, r.lease.revision, r.created, s.books.attempt + 1)))
  {
    if existingAuth {
      assert s.world.peers[key := Peer(r.lease.ip, psk)] == s.world.peers;
    }
  }

  /** WireGuard refused the peer: nothing has happened yet that a rollback does not undo. */
  lemma RefusedPeerUndone(s: Room, key: Key, t: Table, item: Lease, psk: Psk)
    requires Consistent(s.books) && PeersMatch(s.world, s.books) && key !in s.books.pending
    requires t == Table(s.books.Leases()[key := item], t.revision) && Allocated(s.books.Pool(), key, item, t.revision)
    ensures Rewound(s, t.revision, s.(books := s.books.Begin(key, psk, t)).Rollback(key, s.books.AttemptFor(key), true))
  {
    var now := s.books.Begin(key, psk, t);
    assert now.psks - {key} == s.books.psks - {key};
    AttemptUndone(s.books, key, item, t.revision, now);
    PeersUndone(s.world, s.books, key, s.world);
  }

  /** The save failed: the granted attempt is undone, in WireGuard too. */
  lemma UnsavedGrantUndone(s: Room, key: Key, item: Lease, revision: Revision, psk: Psk, now: Room)
    requires Consistent(s.books) && PeersMatch(s.world, s.books) && key !in s.books.pending
    requires Allocated(s.books.Pool(), key, item, revision)
    requires SavedOrNot(Granted(s, key, item, revision, psk), now, false)
    ensures Rewound(s, revision, now.Rollback(key, s.books.AttemptFor(key), true))
  {
    GrantedBooksUndone(s.books, key, item, revision, psk);
    GrantedPeersUndone(s.world, s.books, key, Peer(item.ip, psk), now.world.disk);
  }

  lemma GrantedBooksUndone(b: Books, key: Key, item: Lease, revision: Revision, psk: Psk)
    requires Consistent(b) && key !in b.pending && Allocated(b.Pool(), key, item, revision)
    ensures GrantedBooks(b, key, item, revision, psk).Undo(key, b.AttemptFor(key)) == CountersMoved(b, revision)
  {
    var granted := GrantedBooks(b, key, item, revision, psk);
    assert granted.psks - {key} == b.psks - {key};
    assert granted.states - {key} == b.states - {key};
    AttemptUndone(b, key, item, revision, granted);
  }

  lemma GrantedPeersUndone(w: World, b: Books, key: Key, peer: Peer, d: Disk)
    requires KeysAgree(b.Leases(), b.psks, b.states) && PeersMatch(w, b)
    ensures World(w.networkUp, w.peers[key := peer], d).Undo(key, b.AttemptFor(key), true) == w.(disk := d)
  {
    var now := World(w.networkUp, w.peers[key := peer], d);
    assert now.peers - {key} == w.peers - {key};
    PeersUndone(w, b, key, now);
  }

  lemma CarryIsTransactional(s: Room, key: Key, t: Table, r: Assigned, psk: Psk, existingAuth: bool, env: AssignEnv)
    requires Consistent(s.books) && PeersMatch(s.world, s.books) && GoodDisk(s.world.disk)
    requires Compensated(env.undo, env.save) && key !in s.books.pending
    requires t == Table(s.books.Leases()[key := r.lease], t.revision)
             && Allocated(s.books.Pool(), key, r.lease, t.revision)
    requires existingAuth ==> key in s.books.Leases() && psk == s.books.psks[key]
    ensures var (after, reply) := s.Carry(key, t, r, psk, existingAuth, env);
            if reply.Ok? then
              && SavedOrNot(Granted(s, key, r.lease, t.revision, psk), after, true)
              && reply.value == Assignment(r.lease.ip, r.lease.revision, r.created, s.books.attempt + 1)
            else reply.error in {ApplyFailed, SaveFailed} && Rewound(s, t.revision, after)
  {
    CarryUnfolds(s, key, t, r, psk, existingAuth, env);
    if !existingAuth && !env.apply {
      RefusedPeerUndone(s, key, t, r.lease, psk);
    } else {
      var granted := Granted(s, key, r.lease, t.revision, psk);
      GrantedConsistent(s.books, key, r.lease, t.revision, psk);
      SaveKeepsDisk(granted, env.save);
      var (now, saved) := granted.SaveIfFixed(env.save);
      if !saved {
        UnsavedGrantUndone(s, key, r.lease, t.revision, psk, now);
      }
    }
  }

  lemma AssignIsTransactional(s: Room, key: Key, name: seq<Byte>, pairKey: nat, existingAuth: bool, env: AssignEnv)
    requires Inv(s) && Compensated(env.undo, env.save)
    requires key !in s.books.Leases() ==> s.books.Pool().revision < REVISIONS - 1
    ensures var (after, reply) := s.Assign(key, name, pairKey, existingAuth, env);
            Transaction(s, key, name, s.AttemptPsk(key, pairKey, existingAuth), after, reply)
  {
    AssignUnfolds(s, key, name, pairKey, existingAuth, env);
    if s.Refusal(key, existingAuth).None? && s.books.Pool().Assign(key, name).1.Ok? {
      var (t, r) := s.books.Pool().Assign(key, name);
      AllocationSucceeds(s.books.Pool(), key, name);
      CarryIsTransactional(s, key, t, r.value, s.AttemptPsk(key, pairKey, existingAuth), existingAuth, env);
    }
  }

  lemma RewoundKeepsInv(s: Room, revision: Revision, after: Room)
    requires Inv(s) && s.running && s.books.Pool().revision <= revision && Rewound(s, revision, after)
    ensures Inv(after) && (DiskCurrent(s) ==> DiskCurrent(after))
  {
    AttemptsKept(s.books.pending, s.books.Leases(), s.books.attempt, s.books.pending, s.books.Leases(),
      s.books.attempt + 1);
  }

  lemma GrantedKeepsInv(s: Room, key: Key, item: Lease, revision: Revision, psk: Psk, after: Room)
    requires Consistent(s.books) && PeersMatch(s.world, s.books) && key !in s.books.pending
    requires Allocated(s.books.Pool(), key, item, revision)
    requires SavedOrNot(Granted(s, key, item, revision, psk), after, true)
    ensures Inv(after)
  {
    GrantedConsistent(s.books, key, item, revision, psk);
    PeersPut(s.world.peers, s.books.Leases(), s.books.psks, item, psk);
    CurrentCovers(after);
  }

  lemma TransactionKeepsInv(s: Room, key: Key, name: seq<Byte>, psk: Psk, after: Room,
                            reply: Result<Assignment, Refusal>)
    requires Inv(s) && Transaction(s, key, name, psk, after, reply)
    ensures Inv(after) && (DiskCurrent(s) ==> DiskCurrent(after))
  {
    var (t, r) := s.books.Pool().Assign(key, name);
    if reply.Ok? {
      GrantedKeepsInv(s, key, r.value.lease, t.revision, psk, after);
    } else if reply.error in {ApplyFailed, SaveFailed} {
      RewoundKeepsInv(s, t.revision, after);
    }
  }

  lemma AssignKeepsInv(s: Room, key: Key, name: seq<Byte>, pairKey: nat, existingAuth: bool, env: AssignEnv)
    requires Inv(s) && Compensated(env.undo, env.save)
    requires key !in s.books.Leases() ==> s.books.Pool().revision < REVISIONS - 1
    ensures var after := s.Assign(key, name, pairKey, existingAuth, env).0;
            Inv(after) && (DiskCurrent(s) ==> DiskCurrent(after))
  {
    AssignIsTransactional(s, key, name, pairKey, existingAuth, env);
    var (after, reply) := s.Assign(key, name, pairKey, existingAuth, env);
    TransactionKeepsInv(s, key, name, s.AttemptPsk(key, pairKey, existingAuth), after, reply);
  }

  // ----- steps that leave WireGuard and the disk alone -----

  lemma MemoryStepKeepsInv(s: Room, after: Room)
    requires Inv(s) && Consistent(after.books)
    requires after.running == s.running && after.settings == s.settings && after.world == s.world
    requires after.books.Leases() == s.books.Leases() && after.books.psks == s.books.psks
    requires after.books.table.Some? == s.books.table.Some?
    ensures Inv(after) && (DiskCurrent(s) ==> DiskCurrent(after))
  {
  }

  lemma AcknowledgedConsistent(b: Books, key: Key)
    requires Consistent(b) && key in b.pending
    ensures Consistent(b.(pending := b.pending - {key}, states := b.states[key := Configured]))
  {
    assert AttemptSound(b.pending[key], key, b.Leases(), b.attempt);
    AttemptsKept(b.pending, b.Leases(), b.attempt, b.pending - {key}, b.Leases(), b.attempt);
  }

  lemma AcknowledgeKeepsInv(s: Room, key: Key, a: Assignment)
    requires Inv(s)
    ensures Inv(s.Acknowledge(key, a)) && (DiskCurrent(s) ==> DiskCurrent(s.Acknowledge(key, a)))
  {
    if key in s.books.pending {
      AcknowledgedConsistent(s.books, key);
    }
    MemoryStepKeepsInv(s, s.Acknowledge(key, a));
  }

  lemma LapseKeepsInv(s: Room, key: Key, revision: Revision)
    requires Inv(s)
    ensures Inv(s.Lapse(key, revision)) && (DiskCurrent(s) ==> DiskCurrent(s.Lapse(key, revision)))
  {
    var b := s.books;
    AttemptsKept(b.pending, b.Leases(), b.attempt, b.pending - {key}, b.Leases(), b.attempt);
    MemoryStepKeepsInv(s, s.Lapse(key, revision));
  }

  /** UpdateMemberStats writes the state of every member it has a report of, and no other. */
  lemma {:induction false} ReportedPointwise(items: seq<Lease>, states: map<Key, MemberState>, seen: map<Key, bool>,
                                             key: Key)
    ensures var after := Reported(items, states, seen);
            if key in seen && exists x :: x in items && x.publicKey == key
            then key in after && after[key] == (if seen[key] then Online else Configured)
            else Lookup(after, key) == Lookup(states, key)
  {
    if |items| > 0 {
      var front, last := items[..|items| - 1], items[|items| - 1];
      ReportedPointwise(front, states, seen, key);
      assert items == front + [last];
      assert forall x :: x in items <==> x in front || x == last;
    }
  }

  lemma ReportedKeys(leases: map<Key, Lease>, states: map<Key, MemberState>, seen: map<Key, bool>)
    requires ValidLeases(leases) && states.Keys == leases.Keys && forall k :: k in states ==> states[k] != NoState
    ensures var after := Reported(SnapshotOf(leases), states, seen);
            after.Keys == leases.Keys && forall k :: k in after ==> after[k] != NoState
  {
    var items := SnapshotOf(leases);
    forall k
      ensures k in Reported(items, states, seen) <==> k in leases
      ensures k in Reported(items, states, seen) ==> Reported(items, states, seen)[k] != NoState
    {
      ReportedPointwise(items, states, seen, k);
    }
  }

  lemma UpdateStatsKeepsInv(s: Room, seen: map<Key, bool>)
    requires Inv(s)
    ensures Inv(s.UpdateStats(seen)) && (DiskCurrent(s) ==> DiskCurrent(s.UpdateStats(seen)))
  {
    ReportedKeys(s.books.Leases(), s.books.states, seen);
    MemoryStepKeepsInv(s, s.UpdateStats(seen));
  }

  // ----- steps that end in a save whose failure is ignored -----

  predicate SameSettings(now: Room, s: Room) {
    now.running == s.running && now.settings == s.settings && now.world.disk == s.world.disk
  }

  lemma IgnoredSaveKeepsInv(s: Room, now: Room, save: SaveEnv)
    requires Inv(s) && s.books.table.Some? && save.undoOk
    requires Consistent(now.books) && (now.running ==> PeersMatch(now.world, now.books)) && now.books.table.Some?
    requires now.books.Leases().Keys <= s.books.Leases().Keys
    requires SameSettings(now, s)
    ensures var after := now.SaveIfFixed(save).0;
            Inv(after) && (DiskCurrent(s) && Saves(save) ==> DiskCurrent(after))
  {
    SaveKeepsDisk(now, save);
    var (after, ok) := now.SaveIfFixed(save);
    if ok {
      CurrentCovers(after);
    }
  }

  lemma RevertedConsistent(b: Books, key: Key)
    requires Consistent(b) && key in b.pending
    ensures Consistent(Reverted(b, key, b.pending[key]))
    ensures Reverted(b, key, b.pending[key]).Leases().Keys <= b.Leases().Keys
  {
    var p, leases := b.pending[key], b.Leases();
    assert AttemptSound(p, key, leases, b.attempt);
    if p.previous.Some? {
      ValidAfterSwap(leases, p.previous.value);
      KeysAgreePut(leases, b.psks, b.states, p.previous.value, p.previousPsk.value, p.state);
      AttemptsKept(b.pending, leases, b.attempt, b.pending - {key}, leases[key := p.previous.value], b.attempt);
    } else {
      KeysAgreeDrop(leases, b.psks, b.states, key);
      AttemptsKept(b.pending, leases, b.attempt, b.pending - {key}, leases - {key}, b.attempt);
    }
  }

  lemma RevertedPeers(w: World, b: Books, key: Key)
    requires Consistent(b) && key in b.pending && PeersMatch(w, b)
    ensures PeersMatch(w.Undo(key, b.pending[key], true), Reverted(b, key, b.pending[key]))
  {
    var p := b.pending[key];
    assert AttemptSound(p, key, b.Leases(), b.attempt);
    if p.previous.Some? {
      PeersPut(w.peers, b.Leases(), b.psks, p.previous.value, p.previousPsk.value);
    } else {
      PeersDrop(w.peers, b.Leases(), b.psks, key);
    }
  }

  lemma RollbackKeepsInv(s: Room, key: Key, undo: bool, save: SaveEnv)
    requires Inv(s) && key in s.books.pending && Compensated(undo, save)
    ensures var after := s.Rollback(key, s.books.pending[key], undo).SaveIfFixed(save).0;
            Inv(after) && (DiskCurrent(s) && Saves(save) ==> DiskCurrent(after))
  {
    var p := s.books.pending[key];
    assert AttemptSound(p, key, s.books.Leases(), s.books.attempt);
    UndoReverts(s.books, key, p);
    RevertedConsistent(s.books, key);
    if s.running {
      RevertedPeers(s.world, s.books, key);
    }
    IgnoredSaveKeepsInv(s, s.Rollback(key, p, undo), save);
  }

  lemma FailKeepsInv(s: Room, key: Key, a: Assignment, undo: bool, save: SaveEnv)
    requires Inv(s) && Compensated(undo, save)
    ensures Inv(s.Fail(key, a, undo, save))
            && (DiskCurrent(s) && Saves(save) ==> DiskCurrent(s.Fail(key, a, undo, save)))
  {
    if s.IsPending(key, a.token) {
      if a.created {
        LapseKeepsInv(s, key, a.revision);
      } else {
        RollbackKeepsInv(s, key, undo, save);
      }
    }
  }

  lemma DropKeeps(w: World, b: Books, key: Key)
    requires Consistent(b) && PeersMatch(w, b) && key !in b.pending
    ensures Consistent(b.Drop(key)) && PeersMatch(w.RemovePeer(key, true).0, b.Drop(key))
  {
    KeysAgreeDrop(b.Leases(), b.psks, b.states, key);
    AttemptsKept(b.pending, b.Leases(), b.attempt, b.pending, b.Leases() - {key}, b.attempt);
    PeersDrop(w.peers, b.Leases(), b.psks, key);
  }

  lemma ExpireKeepsInv(s: Room, key: Key, revision: Revision, remove: bool, save: SaveEnv)
    requires Inv(s) && Compensated(remove, save) && key !in s.books.pending
    ensures Inv(s.Expire(key, revision, remove, save))
    ensures DiskCurrent(s) && Saves(save) ==> DiskCurrent(s.Expire(key, revision, remove, save))
  {
    var quiet := s.(timers := s.timers - {key});
    if s.running && s.Expirable(key, revision) {
      DropKeeps(s.world, s.books, key);
      IgnoredSaveKeepsInv(s, quiet.(books := s.books.Drop(key), world := s.world.RemovePeer(key, remove).0), save);
    } else {
      MemoryStepKeepsInv(s, quiet);
    }
  }

  // ----- steps that undo themselves when their save fails -----

  /** The end of a step whose save succeeded, or that needs none. */
  lemma SavedKeepsInv(now: Room, after: Room)
    requires Consistent(now.books) && (now.running ==> PeersMatch(now.world, now.books))
    requires SavedOrNot(now, after, true)
    ensures Inv(after) && DiskCurrent(after)
  {
    CurrentCovers(after);
  }

  /** The end of a step that put everything that matters back. */
  lemma UndoneKeepsInv(s: Room, after: Room)
    requires Inv(s) && Consistent(after.books)
    requires after.running == s.running && after.settings == s.settings
    requires after.books.Leases() == s.books.Leases() && after.books.psks == s.books.psks
    requires after.books.table.Some? == s.books.table.Some?
    requires after.world == s.world.(disk := after.world.disk) && DiskUndone(s.world.disk, after.world.disk)
    ensures Inv(after) && (DiskCurrent(s) ==> DiskCurrent(after))
  {
  }

  lemma ChangeSettingsKeepsInv(s: Room, next: Settings, env: SaveEnv)
    requires Inv(s) && s.running && env.undoOk
    requires next == s.settings.(joinEnabled := next.joinEnabled, blocked := next.blocked)
    ensures var after := s.ChangeSettings(next, env).0;
            Inv(after) && (DiskCurrent(s) ==> DiskCurrent(after))
  {
    var now := s.(settings := next);
    SaveKeepsDisk(now, env);
    var (done, saved) := now.SaveIfFixed(env);
    if saved {
      SavedKeepsInv(now, done);
    } else {
      UndoneKeepsInv(s, done.(settings := s.settings));
    }
  }

  lemma RotateKeyKeepsInv(s: Room, next: nat, secretOk: bool)
    requires Inv(s)
    ensures Inv(s.RotateKey(next, secretOk).0) && (DiskCurrent(s) ==> DiskCurrent(s.RotateKey(next, secretOk).0))
  {
  }

  lemma RenameKeepsInv(s: Room, key: Key, name: seq<Byte>, env: SaveEnv)
    requires Inv(s) && env.undoOk
    ensures var after := s.RenameMember(key, name, env).0;
            Inv(after) && (DiskCurrent(s) ==> DiskCurrent(after))
  {
    if s.running && key in s.books.Leases() {
      var t := s.books.Pool().Assign(key, name).0;
      RenamedRoom(s, key, name);
      KeepKeepsInv(s, t, env);
      assert s.RenameMember(key, name, env) in {(s, false), s.Keep(t, env)};
    }
  }

  lemma RenamedRoom(s: Room, key: Key, name: seq<Byte>)
    requires Inv(s) && s.running && key in s.books.Leases()
    ensures var (t, r) := s.books.Pool().Assign(key, name);
            r.Ok? && Consistent(s.books.(table := Some(t))) && PeersMatch(s.world, s.books.(table := Some(t)))
  {
    var b, t := s.books, s.books.Pool().Assign(key, name).0;
    RenamedConsistent(b, key, name);
    PeersRenamed(s.world.peers, b.Leases(), b.psks, t.leases[key]);
  }

  lemma KeepKeepsInv(s: Room, t: Table, env: SaveEnv)
    requires Inv(s) && env.undoOk && s.running
    requires Consistent(s.books.(table := Some(t))) && PeersMatch(s.world, s.books.(table := Some(t)))
    ensures Inv(s.Keep(t, env).0) && (DiskCurrent(s) ==> DiskCurrent(s.Keep(t, env).0))
  {
    var now := s.(books := s.books.(table := Some(t)));
    SaveKeepsDisk(now, env);
    var (saved, ok) := now.SaveIfFixed(env);
    if ok {
      SavedKeepsInv(now, saved);
    } else {
      RebuiltConsistent(s.books);
      RebuiltKeepsInv(s, saved.world.disk);
    }
  }

  lemma RebuiltKeepsInv(s: Room, d: Disk)
    requires Inv(s) && s.running && DiskUndone(s.world.disk, d) && GoodDisk(d)
    requires Consistent(s.books.(table := Some(Rebuilt(s.books.Leases()))))
    ensures var after := s.(books := s.books.(table := Some(Rebuilt(s.books.Leases()))), world := s.world.(disk := d));
            Inv(after) && (DiskCurrent(s) ==> DiskCurrent(after))
  {
    UndoneKeepsInv(s, s.(books := s.books.(table := Some(Rebuilt(s.books.Leases()))), world := s.world.(disk := d)));
  }

  lemma RenamedConsistent(b: Books, key: Key, name: seq<Byte>)
    requires Consistent(b) && key in b.Leases()
    ensures var (t, r) := b.Pool().Assign(key, name);
            && r.Ok? && t == b.Pool().(leases := b.Leases()[key := t.leases[key]])
            && SameHolding(t.leases[key], b.Leases()[key])
            && Consistent(b.(table := Some(t)))
  {
    var t := b.Pool().Assign(key, name).0;
    ValidAfterSwap(b.Leases(), t.leases[key]);
    AttemptsKept(b.pending, b.Leases(), b.attempt, b.pending, t.leases, b.attempt);
  }

  lemma PeersRenamed(peers: map<Key, Peer>, leases: map<Key, Lease>, psks: map<Key, Psk>, item: Lease)
    requires PeersAre(peers, leases, psks) && item.publicKey in leases && SameHolding(item, leases[item.publicKey])
    ensures PeersAre(peers, leases[item.publicKey := item], psks)
  {
  }

  lemma RebuiltConsistent(b: Books)
    requires Consistent(b)
    ensures Consistent(b.(table := Some(Rebuilt(b.Leases()))))
  {
    RebuiltIssued(b.Pool());
  }

  lemma RebuiltIssued(t: Table)
    requires ValidLeases(t.leases) && Issued(t)
    ensures Issued(Rebuilt(t.leases)) && Rebuilt(t.leases).revision <= t.revision
  {
    var items := SnapshotOf(t.leases);
    MaxRevisionIsGreatest(items);
    forall k | k in t.leases
      ensures t.leases[k].revision <= MaxRevision(items)
    {
      assert t.leases[k] in items;
    }
  }

  // ----- removing a member -----

  /** A removal undone: the member is back as it was; a pairing or an expiry it had pending is not. */
  lemma UndropRestores(b: Books, key: Key)
    requires ValidLeases(b.Leases()) && Issued(b.Pool())
    requires key in b.Leases() && key in b.psks && key in b.states
    ensures b.Drop(key).(pending := b.pending - {key}).Undrop(key, b)
            == b.(table := Some(b.Pool()), pending := b.pending - {key})
  {
    RestoreRemoved(b.Pool(), key);
    assert (b.psks - {key})[key := b.psks[key]] == b.psks;
    assert (b.states - {key})[key := b.states[key]] == b.states;
  }

  lemma RestoreRemoved(t: Table, key: Key)
    requires ValidLeases(t.leases) && Issued(t) && key in t.leases
    ensures t.Remove(key).Restore(t.leases[key]).0 == t
  {
    OctetsAfterRemove(t.leases, key);
    assert (t.leases - {key})[key := t.leases[key]] == t.leases;
  }

  lemma ForgetKeeps(w: World, b: Books, key: Key)
    requires Consistent(b) && PeersMatch(w, b)
    ensures var after := b.Drop(key).(pending := b.pending - {key});
            Consistent(after) && PeersMatch(w.RemovePeer(key, true).0, after)
  {
    KeysAgreeDrop(b.Leases(), b.psks, b.states, key);
    AttemptsKept(b.pending, b.Leases(), b.attempt, b.pending - {key}, b.Leases() - {key}, b.attempt);
    PeersDrop(w.peers, b.Leases(), b.psks, key);
  }

  lemma CancelledConsistent(b: Books, key: Key)
    requires Consistent(b)
    ensures Consistent(b.(table := Some(b.Pool()), pending := b.pending - {key}))
  {
    AttemptsKept(b.pending, b.Leases(), b.attempt, b.pending - {key}, b.Leases(), b.attempt);
  }

  /**
    * A removal that fails leaves the member in place, with its PSK, its state and its peer, but
    * cancels its pending pairing and its expiry timer.
    */
  ghost predicate RemovalUndone(s: Room, key: Key, after: Room) {
    && after == s.(books := s.books.(table := Some(s.books.Pool()), pending := s.books.pending - {key}),
                   timers := s.timers - {key}, uids := s.uids[key := s.UidOf(key)],
                   world := s.world.(disk := after.world.disk))
    && DiskUndone(s.world.disk, after.world.disk)
  }

  lemma RemoveUnfolds(s: Room, key: Key, block: bool, env: RemoveEnv)
    requires s.running && key in s.books.Leases() && key in s.books.psks && (block ==> ValidUid(s.UidOf(key)))
    requires s.world.networkUp
    ensures var now := s.Forget(key, block).(world := s.world.RemovePeer(key, true).0);
            var (saved, ok) := now.SaveIfFixed(env.save);
            s.RemoveMember(key, block, env) ==
            if !env.remove then (s.Forget(key, block).Unforget(key, s), false)
            else if ok then (saved, true)
            else
              var back := saved.Unforget(key, s);
              (back.(world := back.world.Apply(s.books.Leases()[key], s.books.psks[key], env.undo).0), false)
  {
  }

  lemma RemoveIsTransactional(s: Room, key: Key, block: bool, env: RemoveEnv)
    requires Inv(s) && Compensated(env.undo, env.save)
    requires s.running && key in s.books.Leases() && (block ==> ValidUid(s.UidOf(key)))
    ensures var (after, ok) := s.RemoveMember(key, block, env);
            if ok then SavedOrNot(s.Forget(key, block).(world := s.world.RemovePeer(key, true).0), after, true)
            else RemovalUndone(s, key, after)
  {
    RemoveUnfolds(s, key, block, env);
    ForgetKeeps(s.world, s.books, key);
    var now := s.Forget(key, block).(world := s.world.RemovePeer(key, true).0);
    SaveKeepsDisk(now, env.save);
    if !env.remove {
      ForgottenPutBack(s, key, block);
    } else if !now.SaveIfFixed(env.save).1 {
      UnsavedRemovalUndone(s, key, block, now.SaveIfFixed(env.save).0);
    }
  }

  lemma UnsavedRemovalUndone(s: Room, key: Key, block: bool, saved: Room)
    requires Consistent(s.books) && PeersMatch(s.world, s.books) && key in s.books.Leases()
    requires SavedOrNot(s.Forget(key, block).(world := s.world.RemovePeer(key, true).0), saved, false)
    ensures var back := saved.Unforget(key, s);
            RemovalUndone(s, key, back.(world := back.world.Apply(s.books.Leases()[key], s.books.psks[key], true).0))
  {
    ForgottenPutBack(s, key, block);
    assert saved.Unforget(key, s) == s.Forget(key, block).Unforget(key, s).(world := saved.world);
    PeerPutBack(s.world, s.books, key, saved.world.disk);
  }

  lemma PeerPutBack(w: World, b: Books, key: Key, d: Disk)
    requires ValidLeases(b.Leases()) && PeersMatch(w, b) && key in b.Leases()
    ensures World(w.networkUp, w.peers - {key}, d).Apply(b.Leases()[key], b.psks[key], true).0 == w.(disk := d)
  {
    assert (w.peers - {key})[key := w.peers[key]] == w.peers;
  }

  lemma ForgottenPutBack(s: Room, key: Key, block: bool)
    requires ValidLeases(s.books.Leases()) && Issued(s.books.Pool())
    requires key in s.books.Leases() && key in s.books.psks && key in s.books.states
    ensures s.Forget(key, block).Unforget(key, s) ==
            s.(books := s.books.(table := Some(s.books.Pool()), pending := s.books.pending - {key}),
               timers := s.timers - {key}, uids := s.uids[key := s.UidOf(key)])
  {
    UndropRestores(s.books, key);
    assert (s.uids - {key})[key := s.UidOf(key)] == s.uids[key := s.UidOf(key)];
  }

  lemma RemoveKeepsInv(s: Room, key: Key, block: bool, env: RemoveEnv)
    requires Inv(s) && Compensated(env.undo, env.save)
    ensures var after := s.RemoveMember(key, block, env).0;
            Inv(after) && (DiskCurrent(s) ==> DiskCurrent(after))
  {
    if s.running && key in s.books.Leases() && (block ==> ValidUid(s.UidOf(key))) {
      RemoveIsTransactional(s, key, block, env);
      var (after, ok) := s.RemoveMember(key, block, env);
      RemovalKeepsInv(s, key, block, after, ok);
    }
  }

  lemma RemovalKeepsInv(s: Room, key: Key, block: bool, after: Room, ok: bool)
    requires Inv(s) && s.running
    requires if ok then SavedOrNot(s.Forget(key, block).(world := s.world.RemovePeer(key, true).0), after, true)
             else RemovalUndone(s, key, after)
    ensures Inv(after) && (DiskCurrent(s) ==> DiskCurrent(after))
  {
    if ok {
      ForgetKeeps(s.world, s.books, key);
      SavedKeepsInv(s.Forget(key, block).(world := s.world.RemovePeer(key, true).0), after);
    } else {
      CancelledConsistent(s.books, key);
      UndoneKeepsInv(s, after);
    }
  }
}
