/** A pairing that fails, however much happens to other members meanwhile, leaves its member as it was. */
module RoomRollback {
  import opened Bytes
  import opened Lease
  import opened RoomState
  import opened Room
  import opened RoomInvariant
  import opened RoomSteps
  import opened RoomRuns

  /** Everything the room holds about one key. */
  datatype View = View(lease: Option<Lease>, psk: Option<Psk>, state: MemberState, peer: Option<Peer>,
                       pending: Option<Pending>)

  ghost function ViewOf(s: Room, key: Key): View {
    View(Lookup(s.books.Leases(), key), Lookup(s.books.psks, key), s.books.StateOf(key),
         Lookup(s.world.peers, key), Lookup(s.books.pending, key))
  }

  /** The event is a step on some other key, or on no key at all, of a room that keeps running. */
  predicate Elsewhere(e: Event, key: Key) {
    match e
    case Pair(k, _, _, _, _) => k != key
    case Acknowledge(k, _) => k != key
    case Fail(k, _, _, _) => k != key
    case Expire(k, _, _, _) => k != key
    case Remove(k, _, _) => k != key
    case Rename(k, _, _) => k != key
    case UpdateStats(seen) => key !in seen
    case Rotate(_, _) => true
    case SetJoin(_, _) => true
    case Unblock(_, _) => true
    case ReportStats(_, _, _) => true
    case _ => false
  }

  predicate AllElsewhere(events: seq<Event>, key: Key) {
    forall i :: 0 <= i < |events| ==> Elsewhere(events[i], key)
  }

  /** Nothing about any key but `key` differs. */
  ghost predicate OnlyTouches(s: Room, after: Room, key: Key) {
    after.running == s.running && forall k :: k != key ==> ViewOf(after, k) == ViewOf(s, k)
  }

  lemma PairTouches(s: Room, key: Key, name: seq<Byte>, pairKey: nat, existingAuth: bool, env: AssignEnv)
    requires Inv(s) && Compensated(env.undo, env.save)
    requires key !in s.books.Leases() ==> s.books.Pool().revision < REVISIONS - 1
    ensures OnlyTouches(s, s.Assign(key, name, pairKey, existingAuth, env).0, key)
  {
    AssignIsTransactional(s, key, name, pairKey, existingAuth, env);
    var (after, reply) := s.Assign(key, name, pairKey, existingAuth, env);
    TransactionTouches(s, key, name, s.AttemptPsk(key, pairKey, existingAuth), after, reply);
  }

  lemma TransactionTouches(s: Room, key: Key, name: seq<Byte>, psk: Psk, after: Room,
                           reply: Result<Assignment, Refusal>)
    requires Transaction(s, key, name, psk, after, reply)
    ensures OnlyTouches(s, after, key)
  {
  }

  lemma RollbackTouches(s: Room, key: Key, p: Pending, undo: bool)
    requires p.previous.Some? ==> p.previous.value.publicKey == key
    ensures OnlyTouches(s, s.Rollback(key, p, undo), key)
  {
  }

  lemma FailTouches(s: Room, key: Key, a: Assignment, undo: bool, save: SaveEnv)
    requires key in s.books.pending && s.books.pending[key].previous.Some?
             ==> s.books.pending[key].previous.value.publicKey == key
    ensures OnlyTouches(s, s.Fail(key, a, undo, save), key)
  {
    if s.IsPending(key, a.token) && !a.created {
      RollbackTouches(s, key, s.books.pending[key], undo);
    }
  }

  lemma ExpireTouches(s: Room, key: Key, revision: Revision, remove: bool, save: SaveEnv)
    ensures OnlyTouches(s, s.Expire(key, revision, remove, save), key)
  {
  }

  lemma RemoveTouches(s: Room, key: Key, block: bool, env: RemoveEnv)
    requires Inv(s) && Compensated(env.undo, env.save)
    ensures OnlyTouches(s, s.RemoveMember(key, block, env).0, key)
  {
    if s.running && key in s.books.Leases() && (block ==> ValidUid(s.UidOf(key))) {
      RemoveIsTransactional(s, key, block, env);
      var (after, ok) := s.RemoveMember(key, block, env);
      RemovalTouches(s, key, block, after, ok);
    }
  }

  lemma RemovalTouches(s: Room, key: Key, block: bool, after: Room, ok: bool)
    requires if ok then SavedOrNot(s.Forget(key, block).(world := s.world.RemovePeer(key, true).0), after, true)
             else RemovalUndone(s, key, after)
    ensures OnlyTouches(s, after, key)
  {
  }

  lemma RenameTouches(s: Room, key: Key, name: seq<Byte>, env: SaveEnv)
    ensures OnlyTouches(s, s.RenameMember(key, name, env).0, key)
  {
    if s.running && key in s.books.Leases() && s.books.Pool().Assign(key, name).1.Ok? {
      var t := s.books.Pool().Assign(key, name).0;
      var renamed := s.(books := s.books.(table := Some(t)));
      var (saved, ok) := renamed.SaveIfFixed(env);
      assert saved == renamed.(world := s.world.(disk := saved.world.disk));
      TableTouches(s, t, key, saved.world.disk);
      TableTouches(s, Rebuilt(s.books.Leases()), key, saved.world.disk);
    }
  }

  lemma TableTouches(s: Room, t: Table, key: Key, d: Disk)
    requires t.leases - {key} == s.books.Leases() - {key}
    ensures OnlyTouches(s, s.(books := s.books.(table := Some(t)), world := s.world.(disk := d)), key)
  {
    assert forall k :: k != key ==> (k in t.leases <==> k in t.leases - {key});
    assert forall k :: k != key ==> (k in s.books.Leases() <==> k in s.books.Leases() - {key});
    assert forall k :: k in t.leases && k != key ==> t.leases[k] == (t.leases - {key})[k];
    assert forall k :: k in s.books.Leases() && k != key ==> s.books.Leases()[k] == (s.books.Leases() - {key})[k];
  }

  lemma PairingStepElsewhere(s: Room, e: Event, key: Key)
    requires Inv(s) && Allowed(s, e) && Elsewhere(e, key) && (e.Pair? || e.Fail? || e.Expire? || e.Acknowledge?)
    ensures Step(s, e).running == s.running && ViewOf(Step(s, e), key) == ViewOf(s, key)
  {
    match e
    case Pair(k, name, pairKey, existingAuth, env) => PairTouches(s, k, name, pairKey, existingAuth, env);
    case Fail(k, a, undo, save) =>
      assert k in s.books.pending ==> AttemptSound(s.books.pending[k], k, s.books.Leases(), s.books.attempt);
      FailTouches(s, k, a, undo, save);
    case Expire(k, revision, remove, save) => ExpireTouches(s, k, revision, remove, save);
    case Acknowledge(_, _) =>
  }

  lemma QuietStepElsewhere(s: Room, e: Event, key: Key)
    requires Elsewhere(e, key) && (e.UpdateStats? || e.Rotate? || e.SetJoin? || e.Unblock? || e.ReportStats?)
    ensures Step(s, e).running == s.running && ViewOf(Step(s, e), key) == ViewOf(s, key)
  {
    if e.UpdateStats? {
      ReportedPointwise(SnapshotOf(s.books.Leases()), s.books.states, e.seen, key);
    }
  }

  lemma StepElsewhere(s: Room, e: Event, key: Key)
    requires Inv(s) && Allowed(s, e) && Elsewhere(e, key)
    ensures Step(s, e).running == s.running && ViewOf(Step(s, e), key) == ViewOf(s, key)
  {
    match e
    case Remove(k, block, removal) => RemoveTouches(s, k, block, removal);
    case Rename(k, name, save) => RenameTouches(s, k, name, save);
    case Pair(_, _, _, _, _) => PairingStepElsewhere(s, e, key);
    case Acknowledge(_, _) => PairingStepElsewhere(s, e, key);
    case Fail(_, _, _, _) => PairingStepElsewhere(s, e, key);
    case Expire(_, _, _, _) => PairingStepElsewhere(s, e, key);
    case _ => QuietStepElsewhere(s, e, key);
  }

  lemma {:induction false} RunElsewhere(s: Room, events: seq<Event>, key: Key)
    requires Inv(s) && AllowedRun(s, events)
    requires AllElsewhere(events, key)
    ensures Inv(Run(s, events)) && Run(s, events).running == s.running && ViewOf(Run(s, events), key) == ViewOf(s, key)
    decreases |events|
  {
    if |events| > 0 {
      StepKeepsInv(s, events[0]);
      StepElsewhere(s, events[0], key);
      RunElsewhere(Step(s, events[0]), events[1..], key);
    }
  }

  /** Where a granted pairing leaves its member. */
  lemma GrantedView(s: Room, key: Key, name: seq<Byte>, pairKey: nat, existingAuth: bool, env: AssignEnv,
                    granted: Room, a: Assignment)
    requires Inv(s) && Allowed(s, Pair(key, name, pairKey, existingAuth, env))
    requires s.Assign(key, name, pairKey, existingAuth, env) == (granted, Ok(a))
    ensures Inv(granted) && granted.running && s.running && ViewOf(s, key).pending.None?
    ensures ViewOf(granted, key).pending == Some(s.books.AttemptFor(key)) && ViewOf(granted, key).state == Pairing
    ensures ViewOf(granted, key).lease.Some? && ViewOf(granted, key).lease.value.revision == a.revision
    ensures a.token == s.books.attempt + 1 && (a.created <==> key !in s.books.Leases())
  {
    AssignIsTransactional(s, key, name, pairKey, existingAuth, env);
    AssignKeepsInv(s, key, name, pairKey, existingAuth, env);
  }

  /** What a rollback makes of a member, told from what its attempt remembered. */
  lemma FailedView(s: Room, key: Key, a: Assignment, undo: bool, save: SaveEnv)
    requires Inv(s) && s.running && Compensated(undo, save) && s.IsPending(key, a.token) && !a.created
    requires s.books.pending[key].previous.Some?
    ensures var p := s.books.pending[key];
            ViewOf(s.Fail(key, a, undo, save), key)
            == View(p.previous, p.previousPsk, p.state, Some(Peer(p.previous.value.ip, p.previousPsk.value)), None)
  {
    var p := s.books.pending[key];
    assert AttemptSound(p, key, s.books.Leases(), s.books.attempt);
    UndoReverts(s.books, key, p);
  }

  lemma MemberView(s: Room, key: Key)
    requires Inv(s) && s.running && key in s.books.Leases()
    ensures key in s.books.psks && key in s.books.states && key in s.world.peers
    ensures s.world.peers[key] == Peer(s.books.Leases()[key].ip, s.books.psks[key])
    ensures s.books.states[key] != NoState
  {
  }

  lemma FailureRestores(s: Room, later: Room, key: Key, a: Assignment, undo: bool, save: SaveEnv)
    requires Inv(s) && s.running && key in s.books.Leases() && ViewOf(s, key).pending.None?
    requires Inv(later) && later.running && ViewOf(later, key).pending == Some(s.books.AttemptFor(key))
    requires a.token == s.books.attempt + 1 && !a.created && Compensated(undo, save)
    ensures var after := later.Fail(key, a, undo, save);
            ViewOf(after, key) == ViewOf(s, key) && OnlyTouches(later, after, key)
  {
    MemberView(s, key);
    FailedView(later, key, a, undo, save);
    FailTouches(later, key, a, undo, save);
  }

  /**
    * Main result. A member's pairing that is granted and then fails, with any allowed steps on other
    * members in between, leaves the member's lease, PSK, state and peer as they were before it and
    * nothing pending, and keeps everything that happened to the others.
    */
  lemma FailedPairingRestores(s: Room, key: Key, name: seq<Byte>, pairKey: nat, existingAuth: bool, env: AssignEnv,
                              granted: Room, a: Assignment, between: seq<Event>, undo: bool, save: SaveEnv)
    requires Inv(s) && Allowed(s, Pair(key, name, pairKey, existingAuth, env)) && key in s.books.Leases()
    requires s.Assign(key, name, pairKey, existingAuth, env) == (granted, Ok(a))
    requires AllowedRun(granted, between) && AllElsewhere(between, key) && Compensated(undo, save)
    ensures var later := Run(granted, between);
            var after := later.Fail(key, a, undo, save);
            ViewOf(after, key) == ViewOf(s, key) && OnlyTouches(later, after, key)
  {
    GrantedView(s, key, name, pairKey, existingAuth, env, granted, a);
    RunElsewhere(granted, between, key);
    FailureRestores(s, Run(granted, between), key, a, undo, save);
  }

  /** What the files say about a key. */
  ghost function OnDisk(d: Disk, key: Key): (Option<Lease>, Option<Psk>) {
    (if d.main.Some? then Lookup(ByKey(d.main.value.members), key) else None,
     if d.secret.Some? then Lookup(d.secret.value.psks, key) else None)
  }

  lemma DiskSaysView(s: Room, key: Key)
    requires Inv(s) && DiskCurrent(s) && s.settings.fixedRoom && s.books.table.Some?
    ensures OnDisk(s.world.disk, key) == (ViewOf(s, key).lease, ViewOf(s, key).psk)
  {
    RecordMembers(s);
  }

  lemma AssignKeepsKind(s: Room, key: Key, name: seq<Byte>, pairKey: nat, existingAuth: bool, env: AssignEnv)
    ensures s.Assign(key, name, pairKey, existingAuth, env).0.settings == s.settings
  {
    AssignUnfolds(s, key, name, pairKey, existingAuth, env);
  }

  /** Only Create, Start and Stop change whether a room is fixed. */
  lemma StepKeepsKind(s: Room, e: Event)
    requires !e.Create? && !e.Start? && !e.Stop?
    ensures Step(s, e).settings.fixedRoom == s.settings.fixedRoom
  {
    if e.Pair? {
      AssignKeepsKind(s, e.key, e.name, e.pairKey, e.existingAuth, e.env);
    }
  }

  lemma {:induction false} RunKeepsKind(s: Room, events: seq<Event>, key: Key)
    requires AllElsewhere(events, key)
    ensures Run(s, events).settings.fixedRoom == s.settings.fixedRoom
    decreases |events|
  {
    if |events| > 0 {
      assert Elsewhere(events[0], key);
      StepKeepsKind(s, events[0]);
      RunKeepsKind(Step(s, events[0]), events[1..], key);
    }
  }

  lemma FailureRestoresDisk(s: Room, later: Room, key: Key, a: Assignment, undo: bool, save: SaveEnv)
    requires Inv(s) && s.running && key in s.books.Leases() && ViewOf(s, key).pending.None?
    requires Inv(later) && later.running && later.settings.fixedRoom == s.settings.fixedRoom
    requires ViewOf(later, key).pending == Some(s.books.AttemptFor(key))
    requires a.token == s.books.attempt + 1 && !a.created && Compensated(undo, save) && Saves(save)
    ensures s.settings.fixedRoom && DiskCurrent(s) && DiskCurrent(later) ==>
              OnDisk(later.Fail(key, a, undo, save).world.disk, key) == OnDisk(s.world.disk, key)
  {
    var after := later.Fail(key, a, undo, save);
    FailureRestores(s, later, key, a, undo, save);
    FailKeepsInv(later, key, a, undo, save);
    StepKeepsKind(later, Fail(key, a, undo, save));
    if s.settings.fixedRoom && DiskCurrent(s) && DiskCurrent(later) {
      DiskSaysView(s, key);
      DiskSaysView(after, key);
    }
  }

  /**
    * Main result. The same on disk: if the saves whose errors the room ignores succeed, the files of a fixed
    * room say about the member what they said before its pairing began.
    */
  lemma FailedPairingRestoresDisk(s: Room, key: Key, name: seq<Byte>, pairKey: nat, existingAuth: bool, env: AssignEnv,
                                  granted: Room, a: Assignment, between: seq<Event>, undo: bool, save: SaveEnv)
    requires Inv(s) && Allowed(s, Pair(key, name, pairKey, existingAuth, env)) && key in s.books.Leases()
    requires s.Assign(key, name, pairKey, existingAuth, env) == (granted, Ok(a))
    requires AllowedRun(granted, between) && AllElsewhere(between, key) && Compensated(undo, save)
    requires AllIgnoredSavesSucceed(between) && Saves(save)
    ensures s.settings.fixedRoom && DiskCurrent(s) ==>
              OnDisk(Run(granted, between).Fail(key, a, undo, save).world.disk, key) == OnDisk(s.world.disk, key)
  {
    GrantedView(s, key, name, pairKey, existingAuth, env, granted, a);
    AssignKeepsInv(s, key, name, pairKey, existingAuth, env);
    AssignKeepsKind(s, key, name, pairKey, existingAuth, env);
    RunElsewhere(granted, between, key);
    RunKeepsInv(granted, between);
    RunKeepsKind(granted, between, key);
    FailureRestoresDisk(s, Run(granted, between), key, a, undo, save);
  }

  lemma LapseKeepsView(s: Room, key: Key, a: Assignment, undo: bool, save: SaveEnv)
    requires Inv(s) && s.IsPending(key, a.token) && a.created
    ensures var after := s.Fail(key, a, undo, save);
            && Inv(after) && after.running == s.running && (key, a.revision) in after.armed
            && ViewOf(after, key) == ViewOf(s, key).(pending := None)
  {
    LapseKeepsInv(s, key, a.revision);
  }

  lemma ExpiryClears(s: Room, key: Key, revision: Revision, remove: bool, save: SaveEnv)
    requires Inv(s) && s.running && s.Expirable(key, revision) && ViewOf(s, key).pending.None? && remove
    ensures var after := s.Expire(key, revision, remove, save);
            ViewOf(after, key) == View(None, None, NoState, None, None) && OnlyTouches(s, after, key)
  {
    ExpireTouches(s, key, revision, remove, save);
  }

  /**
    * Main result. A first pairing that is granted and fails, and whose member is not heard of again
    * before its timer fires, leaves no trace of it, and the address is free again.
    */
  lemma FailedFirstPairingExpires(s: Room, key: Key, name: seq<Byte>, pairKey: nat, existingAuth: bool, env: AssignEnv,
                                  granted: Room, a: Assignment, between: seq<Event>, waiting: seq<Event>, undo: bool,
                                    save: SaveEnv)
    requires Inv(s) && Allowed(s, Pair(key, name, pairKey, existingAuth, env)) && key !in s.books.Leases()
    requires s.Assign(key, name, pairKey, existingAuth, env) == (granted, Ok(a))
    requires AllowedRun(granted, between) && AllElsewhere(between, key) && Compensated(undo, save)
    requires AllowedRun(Run(granted, between).Fail(key, a, undo, save), waiting) && AllElsewhere(waiting, key)
    ensures var lapsed := Run(Run(granted, between).Fail(key, a, undo, save), waiting);
            var after := lapsed.Expire(key, a.revision, undo, save);
            ViewOf(after, key) == View(None, None, NoState, None, None) && OnlyTouches(lapsed, after, key)
  {
    GrantedView(s, key, name, pairKey, existingAuth, env, granted, a);
    RunElsewhere(granted, between, key);
    FirstPairingExpires(s, Run(granted, between), key, a, waiting, undo, save);
  }

  lemma FirstPairingExpires(s: Room, failing: Room, key: Key, a: Assignment, waiting: seq<Event>, undo: bool,
                            save: SaveEnv)
    requires Inv(failing) && failing.running && failing.IsPending(key, a.token) && a.created
    requires ViewOf(failing, key).state == Pairing
    requires ViewOf(failing, key).lease.Some? && ViewOf(failing, key).lease.value.revision == a.revision
    requires Compensated(undo, save) && AllowedRun(failing.Fail(key, a, undo, save), waiting)
    requires AllElsewhere(waiting, key)
    ensures var lapsed := Run(failing.Fail(key, a, undo, save), waiting);
            var after := lapsed.Expire(key, a.revision, undo, save);
            ViewOf(after, key) == View(None, None, NoState, None, None) && OnlyTouches(lapsed, after, key)
  {
    LapseKeepsView(failing, key, a, undo, save);
    RunElsewhere(failing.Fail(key, a, undo, save), waiting, key);
    var lapsed := Run(failing.Fail(key, a, undo, save), waiting);
    assert lapsed.Expirable(key, a.revision);
    ExpiryClears(lapsed, key, a.revision, undo, save);
  }

  // ----- what the guard on expiry is for -----

  /**
    * The expiry callback does not look at pending attempts. Firing at a member that it can remove, it
    * keeps the members consistent exactly when that member is not pairing again.
    */
  lemma ExpiryNeedsItsGuard(s: Room, key: Key, revision: Revision, remove: bool, save: SaveEnv)
    requires Inv(s) && s.running && s.Expirable(key, revision) && Compensated(remove, save)
    ensures Inv(s.Expire(key, revision, remove, save)) <==> key !in s.books.pending
  {
    if key in s.books.pending {
      var after := s.Expire(key, revision, remove, save);
      assert after.books == s.books.Drop(key);
      assert !AttemptSound(after.books.pending[key], key, after.books.Leases(), after.books.attempt);
    } else {
      ExpireKeepsInv(s, key, revision, remove, save);
    }
  }
}
