/** Runs of the room: safety over every sequence of steps. */
module RoomRuns {
  import opened Bytes
  import opened Lease
  import opened RoomState
  import opened Room
  import opened RoomInvariant
  import opened RoomSteps

  /** One locked callback, with what the outside answers during it. */
  datatype Event =
    | Pair(key: Key, name: seq<Byte>, pairKey: nat, existingAuth: bool, env: AssignEnv)
    | Acknowledge(key: Key, a: Assignment)
    | Fail(key: Key, a: Assignment, undo: bool, save: SaveEnv)
    | Expire(key: Key, revision: Revision, remove: bool, save: SaveEnv)
    | Remove(key: Key, block: bool, removal: RemoveEnv)
    | Rename(key: Key, name: seq<Byte>, save: SaveEnv)
    | Rotate(next: nat, secretOk: bool)
    | SetJoin(enabled: bool, save: SaveEnv)
    | Unblock(uid: Uid, save: SaveEnv)
    | UpdateStats(seen: map<Key, bool>)
    | ReportStats(key: Key, uid: Uid, ip: Addr)
    | Stop
    | NetworkDown
    | Create(options: CreateOptions, start: StartEnv)
    | Start(hostKey: Key, start: StartEnv)

  ghost function Step(s: Room, e: Event): Room {
    match e
    case Pair(key, name, pairKey, existingAuth, env) => s.Assign(key, name, pairKey, existingAuth, env).0
    case Acknowledge(key, a) => s.Acknowledge(key, a)
    case Fail(key, a, undo, save) => s.Fail(key, a, undo, save)
    case Expire(key, revision, remove, save) => s.Expire(key, revision, remove, save)
    case Remove(key, block, removal) => s.RemoveMember(key, block, removal).0
    case Rename(key, name, save) => s.RenameMember(key, name, save).0
    case Rotate(next, secretOk) => s.RotateKey(next, secretOk).0
    case SetJoin(enabled, save) => s.SetJoinEnabled(enabled, save).0
    case Unblock(uid, save) => s.UnblockUid(uid, save).0
    case UpdateStats(seen) => s.UpdateStats(seen)
    case ReportStats(key, uid, ip) => s.ReportStats(key, uid, ip)
    case Stop => s.Stop()
    case NetworkDown => s.NetworkDown()
    case Create(options, start) => s.Create(options, start).0
    case Start(hostKey, start) => s.Start(hostKey, start).0
  }

  ghost function Run(s: Room, events: seq<Event>): Room
    decreases |events|
  {
    if |events| == 0 then s else Run(Step(s, events[0]), events[1..])
  }

  /** Compensating calls succeed, the revision counter has room, and no expiry fires for a key that is pairing again. */
  ghost predicate Allowed(s: Room, e: Event) {
    match e
    case Pair(key, _, _, _, env) =>
      Compensated(env.undo, env.save) && (key !in s.books.Leases() ==> s.books.Pool().revision < REVISIONS - 1)
    case Fail(_, _, undo, save) => Compensated(undo, save)
    case Expire(key, revision, remove, save) =>
      (key, revision) in s.armed && Compensated(remove, save) && key !in s.books.pending
    case Remove(_, _, removal) => Compensated(removal.undo, removal.save)
    case Rename(_, _, save) => save.undoOk
    case SetJoin(_, save) => save.undoOk
    case Unblock(_, save) => save.undoOk
    case Create(_, start) => start.save.undoOk
    case _ => true
  }

  ghost predicate AllowedRun(s: Room, events: seq<Event>)
    decreases |events|
  {
    |events| > 0 ==> Allowed(s, events[0]) && AllowedRun(Step(s, events[0]), events[1..])
  }

  /** The saves whose errors the room ignores succeed. */
  predicate IgnoredSavesSucceed(e: Event) {
    match e
    case Fail(_, _, _, save) => Saves(save)
    case Expire(_, _, _, save) => Saves(save)
    case _ => true
  }

  predicate AllIgnoredSavesSucceed(events: seq<Event>) {
    forall i :: 0 <= i < |events| ==> IgnoredSavesSucceed(events[i])
  }

  /** A service that has just been constructed, over whatever good files an earlier one left. */
  function Fresh(config: Config, disk: Disk): Room {
    Room(false, Settings(false, false, config, 0, 0, {}), Books(None, map[], map[], map[], 0), map[], map[], {},
         World(false, map[], disk))
  }

  // ----- the lifecycle steps -----

  lemma EmptyConsistent(b: Books)
    requires b.Leases() == map[] && b.psks == map[] && b.states == map[] && b.pending == map[]
    ensures Consistent(b)
  {
  }

  lemma ClearKeepsInv(s: Room)
    requires GoodDisk(s.world.disk)
    ensures Inv(s.Clear()) && DiskCurrent(s.Clear())
    ensures Inv(s.Clear().NetworkDown()) && DiskCurrent(s.Clear().NetworkDown())
  {
    EmptyConsistent(s.Clear().books);
  }

  lemma StopKeepsInv(s: Room)
    requires Inv(s)
    ensures Inv(s.Stop()) && (DiskCurrent(s) ==> DiskCurrent(s.Stop()))
    ensures Inv(s.NetworkDown()) && (DiskCurrent(s) ==> DiskCurrent(s.NetworkDown()))
  {
    ClearKeepsInv(s.(running := false, timers := map[]));
  }

  lemma CreateKeepsInv(s: Room, o: CreateOptions, env: StartEnv)
    requires Inv(s) && env.save.undoOk
    ensures var after := s.Create(o, env).0;
            Inv(after) && (DiskCurrent(s) ==> DiskCurrent(after))
  {
    var empty := s.(
      settings := Settings(o.fixedRoom, true, o.config.(relayPort := s.settings.config.relayPort), o.roomKey,
        o.hostPublic, {}),
      books := Books(Some(Table(map[], 0)), map[], map[], map[], s.books.attempt),
      uids := map[]);
    var up := empty.(world := s.world.(networkUp := true, peers := map[]));
    ClearKeepsInv(empty);
    ClearKeepsInv(up);
    if !s.running {
      EmptyConsistent(up.books);
      SaveKeepsDisk(up, env.save);
      var (saved, ok) := up.SaveIfFixed(env.save);
      ClearKeepsInv(saved);
      if ok {
        SavedKeepsInv(up.(running := true), saved.(running := true));
      }
    }
  }

  /** The members of good files are a valid table. */
  lemma LoadedTable(r: Record)
    requires ValidRecord(r) && ValidItems(r.members) && IsSnapshot(r.members, ByKey(r.members))
    ensures ValidLeases(ByKey(r.members)) && Issued(Table(ByKey(r.members), MaxRevision(r.members)))
    ensures SnapshotOf(ByKey(r.members)) == r.members
  {
    var leases := ByKey(r.members);
    ValidItemsGiveValidLeases(r.members);
    SnapshotUnique(SnapshotOf(leases), r.members, leases);
    MaxRevisionIsGreatest(r.members);
    forall k | k in leases
      ensures 1 <= leases[k].revision <= MaxRevision(r.members)
    {
      assert leases[k] in r.members;
    }
  }

  /**
    * What the loops of Start leave behind: every member is offline; an enabled one is a peer with its
    * address and its PSK, the stored one if there is one and one derived from the room key if not.
    */
  lemma {:induction false} StartLoops(items: seq<Lease>, secret: Secret, hostKey: Key, k: Key)
    requires ValidItems(items)
    ensures k in AllOffline(items) <==> k in ByKey(items)
    ensures k in AllOffline(items) ==> AllOffline(items)[k] == Offline
    ensures var psks := StartPsks(items, secret, hostKey);
            && (k in psks <==> k in secret.psks || IsEnabled(items, k))
            && (k in psks ==> psks[k] == if k in secret.psks then secret.psks[k] else Psk(secret.roomKey, hostKey, k))
    ensures k in StartPeers(items, secret, hostKey) <==> IsEnabled(items, k)
    ensures IsEnabled(items, k) ==>
              StartPeers(items, secret, hostKey)[k] == Peer(ByKey(items)[k].ip, StartPsks(items, secret, hostKey)[k])
  {
    if |items| > 0 {
      var front, item := items[..|items| - 1], items[|items| - 1];
      StartLoops(front, secret, hostKey, k);
      assert items == front + [item];
      ExtensionIsNew(front, item);
    }
  }

  predicate IsEnabled(items: seq<Lease>, k: Key) {
    k in ByKey(items) && ByKey(items)[k].enabled
  }

  lemma LoadedPsks(r: Record, secret: Secret, hostKey: Key)
    requires GoodFiles(r, secret)
    ensures StartPsks(r.members, secret, hostKey).Keys == ByKey(r.members).Keys
    ensures forall k :: k in secret.psks ==> StartPsks(r.members, secret, hostKey)[k] == secret.psks[k]
  {
    forall k
      ensures k in StartPsks(r.members, secret, hostKey) <==> k in ByKey(r.members)
      ensures k in secret.psks ==> StartPsks(r.members, secret, hostKey)[k] == secret.psks[k]
    {
      StartLoops(r.members, secret, hostKey, k);
    }
  }

  lemma LoadedStates(r: Record, secret: Secret, hostKey: Key)
    requires GoodFiles(r, secret) && ValidLeases(ByKey(r.members))
    ensures KeysAgree(ByKey(r.members), StartPsks(r.members, secret, hostKey), AllOffline(r.members))
  {
    LoadedPsks(r, secret, hostKey);
    forall k
      ensures k in AllOffline(r.members) <==> k in ByKey(r.members)
      ensures k in AllOffline(r.members) ==> AllOffline(r.members)[k] == Offline
    {
      StartLoops(r.members, secret, hostKey, k);
    }
  }

  lemma LoadedPeers(r: Record, secret: Secret, hostKey: Key)
    requires GoodFiles(r, secret)
    ensures PeersAre(StartPeers(r.members, secret, hostKey), ByKey(r.members), StartPsks(r.members, secret, hostKey))
  {
    LoadedPsks(r, secret, hostKey);
    forall k
      ensures k in StartPeers(r.members, secret, hostKey) <==> k in ByKey(r.members)
      ensures k in ByKey(r.members) ==>
                StartPeers(r.members, secret, hostKey)[k]
                  == Peer(ByKey(r.members)[k].ip, StartPsks(r.members, secret, hostKey)[k])
    {
      StartLoops(r.members, secret, hostKey, k);
    }
  }

  lemma LoadedBooks(s: Room, r: Record, secret: Secret, hostKey: Key)
    requires GoodFiles(r, secret)
    ensures Consistent(s.BringUp(r, secret, hostKey).books)
    ensures PeersMatch(s.BringUp(r, secret, hostKey).world, s.BringUp(r, secret, hostKey).books)
  {
    LoadedTable(r);
    LoadedStates(r, secret, hostKey);
    LoadedPeers(r, secret, hostKey);
    LoadedParts(s, r, secret, hostKey);
  }

  lemma LoadedParts(s: Room, r: Record, secret: Secret, hostKey: Key)
    ensures var up := s.BringUp(r, secret, hostKey);
            && up.books == Books(Some(Table(ByKey(r.members), MaxRevision(r.members))),
               StartPsks(r.members, secret, hostKey),
                                 AllOffline(r.members), map[], s.books.attempt)
            && up.world == World(true, StartPeers(r.members, secret, hostKey), s.world.disk)
  {
  }

  /** The room Start leaves running. */
  function Loaded(s: Room, r: Record, secret: Secret, hostKey: Key): Room {
    var up := s.BringUp(r, secret, hostKey);
    up.(running := true, world := up.world.(disk := up.world.disk.(secret := Some(up.Secret()))))
  }

  lemma LoadedKeepsInv(s: Room, hostKey: Key)
    requires GoodDisk(s.world.disk) && s.world.disk.main.Some?
    ensures var after := Loaded(s, s.world.disk.main.value, s.world.disk.secret.value, hostKey);
            Inv(after) && DiskCurrent(after)
  {
    var r, secret := s.world.disk.main.value, s.world.disk.secret.value;
    LoadedBooks(s, r, secret, hostKey);
    LoadedTable(r);
    LoadedPsks(r, secret, hostKey);
  }

  lemma StartSucceeds(s: Room, hostKey: Key, env: StartEnv)
    requires GoodDisk(s.world.disk)
    requires || s.Start(hostKey, env).1
             || (!s.running && !s.world.networkUp && s.world.disk.main.Some?
                 && env.ready && env.network && env.listen && env.refused == {} && env.save.secretOk)
    ensures s.Start(hostKey, env).1
    ensures s.world.disk.main.Some?
    ensures s.Start(hostKey, env).0 == Loaded(s, s.world.disk.main.value, s.world.disk.secret.value, hostKey)
  {
  }

  lemma OpenKeepsInv(up: Room, r: Record, secret: Secret, env: StartEnv)
    requires GoodDisk(up.world.disk) && up.world.disk.main == Some(r) && GoodFiles(r, secret)
    requires up.books.psks.Keys <= ByKey(r.members).Keys && !up.Open(env).1
    ensures Inv(up.Open(env).0) && DiskCurrent(up.Open(env).0)
  {
    ClearKeepsInv(up);
    if env.save.secretOk {
      ClearKeepsInv(up.(world := up.world.(disk := up.world.disk.(secret := Some(up.Secret())))));
    }
  }

  /** A Start that fails leaves the room alone or empty, and the files good. */
  lemma StartFails(s: Room, hostKey: Key, env: StartEnv)
    requires Inv(s) && !s.Start(hostKey, env).1
    ensures var after := s.Start(hostKey, env).0;
            Inv(after) && (DiskCurrent(s) ==> DiskCurrent(after))
  {
    if s.world.disk.main.Some? {
      var r, secret := s.world.disk.main.value, s.world.disk.secret.value;
      ClearKeepsInv(s.Load(r, secret, hostKey));
      LoadedPsks(r, secret, hostKey);
      var up := s.BringUp(r, secret, hostKey);
      if !up.Open(env).1 {
        OpenKeepsInv(up, r, secret, env);
      }
    }
  }

  lemma StartKeepsInv(s: Room, hostKey: Key, env: StartEnv)
    requires Inv(s)
    ensures var after := s.Start(hostKey, env).0;
            Inv(after) && (DiskCurrent(s) ==> DiskCurrent(after))
  {
    if s.Start(hostKey, env).1 {
      StartSucceeds(s, hostKey, env);
      LoadedKeepsInv(s, hostKey);
    } else {
      StartFails(s, hostKey, env);
    }
  }

  // ----- every step, every run -----

  lemma PairingStepKeepsInv(s: Room, e: Event)
    requires Inv(s) && Allowed(s, e) && (e.Pair? || e.Acknowledge? || e.Fail? || e.Expire?)
    ensures Inv(Step(s, e))
    ensures DiskCurrent(s) && IgnoredSavesSucceed(e) ==> DiskCurrent(Step(s, e))
  {
    match e
    case Pair(key, name, pairKey, existingAuth, env) => AssignKeepsInv(s, key, name, pairKey, existingAuth, env);
    case Acknowledge(key, a) => AcknowledgeKeepsInv(s, key, a);
    case Fail(key, a, undo, save) => FailKeepsInv(s, key, a, undo, save);
    case Expire(key, revision, remove, save) => ExpireKeepsInv(s, key, revision, remove, save);
  }

  lemma MemberStepKeepsInv(s: Room, e: Event)
    requires Inv(s) && Allowed(s, e) && (e.Remove? || e.Rename? || e.UpdateStats? || e.ReportStats?)
    ensures Inv(Step(s, e))
    ensures DiskCurrent(s) && IgnoredSavesSucceed(e) ==> DiskCurrent(Step(s, e))
  {
    match e
    case Remove(key, block, removal) => RemoveKeepsInv(s, key, block, removal);
    case Rename(key, name, save) => RenameKeepsInv(s, key, name, save);
    case UpdateStats(seen) => UpdateStatsKeepsInv(s, seen);
    case ReportStats(key, uid, ip) => MemoryStepKeepsInv(s, s.ReportStats(key, uid, ip));
  }

  lemma SettingsStepKeepsInv(s: Room, e: Event)
    requires Inv(s) && Allowed(s, e) && (e.Rotate? || e.SetJoin? || e.Unblock?)
    ensures Inv(Step(s, e))
    ensures DiskCurrent(s) && IgnoredSavesSucceed(e) ==> DiskCurrent(Step(s, e))
  {
    match e
    case Rotate(next, secretOk) => RotateKeyKeepsInv(s, next, secretOk);
    case SetJoin(enabled, save) => SetJoinKeepsInv(s, enabled, save);
    case Unblock(uid, save) => UnblockKeepsInv(s, uid, save);
  }

  lemma SetJoinKeepsInv(s: Room, enabled: bool, save: SaveEnv)
    requires Inv(s) && save.undoOk
    ensures Inv(s.SetJoinEnabled(enabled, save).0)
            && (DiskCurrent(s) ==> DiskCurrent(s.SetJoinEnabled(enabled, save).0))
  {
    if s.running {
      ChangeSettingsKeepsInv(s, s.settings.(joinEnabled := enabled), save);
    }
  }

  lemma UnblockKeepsInv(s: Room, uid: Uid, save: SaveEnv)
    requires Inv(s) && save.undoOk
    ensures Inv(s.UnblockUid(uid, save).0) && (DiskCurrent(s) ==> DiskCurrent(s.UnblockUid(uid, save).0))
  {
    if s.running && uid in s.settings.blocked {
      ChangeSettingsKeepsInv(s, s.settings.(blocked := s.settings.blocked - {uid}), save);
    }
  }

  lemma StepKeepsInv(s: Room, e: Event)
    requires Inv(s) && Allowed(s, e)
    ensures Inv(Step(s, e))
    ensures DiskCurrent(s) && IgnoredSavesSucceed(e) ==> DiskCurrent(Step(s, e))
  {
    match e
    case Stop => StopKeepsInv(s);
    case NetworkDown => StopKeepsInv(s);
    case Create(options, start) => CreateKeepsInv(s, options, start);
    case Start(hostKey, start) => StartKeepsInv(s, hostKey, start);
    case Rotate(_, _) => SettingsStepKeepsInv(s, e);
    case SetJoin(_, _) => SettingsStepKeepsInv(s, e);
    case Unblock(_, _) => SettingsStepKeepsInv(s, e);
    case Remove(_, _, _) => MemberStepKeepsInv(s, e);
    case Rename(_, _, _) => MemberStepKeepsInv(s, e);
    case UpdateStats(_) => MemberStepKeepsInv(s, e);
    case ReportStats(_, _, _) => MemberStepKeepsInv(s, e);
    case _ => PairingStepKeepsInv(s, e);
  }

  lemma {:induction false} RunKeepsInv(s: Room, events: seq<Event>)
    requires Inv(s) && AllowedRun(s, events)
    ensures Inv(Run(s, events))
    ensures DiskCurrent(s) && AllIgnoredSavesSucceed(events) ==> DiskCurrent(Run(s, events))
    decreases |events|
  {
    if |events| > 0 {
      StepKeepsInv(s, events[0]);
      RunKeepsInv(Step(s, events[0]), events[1..]);
    }
  }

  /**
    * Main result. In every allowed run of a new service the leased keys, the keys with a PSK and the
    * keys with a state are the same; pending attempts belong to members; and while the room runs
    * WireGuard has exactly the members, each with its lease's address and its stored PSK.
    */
  lemma MembersAgreeEverywhere(config: Config, disk: Disk, events: seq<Event>)
    requires GoodDisk(disk) && AllowedRun(Fresh(config, disk), events)
    ensures var s := Run(Fresh(config, disk), events);
            var b := s.books;
            && ValidLeases(b.Leases()) && |b.Leases()| <= CAPACITY
            && b.psks.Keys == b.states.Keys == b.Leases().Keys
            && b.pending.Keys <= b.Leases().Keys
            && (s.running ==> s.world.peers.Keys == b.Leases().Keys
                              && forall k :: k in s.world.peers
                                    ==> s.world.peers[k] == Peer(b.Leases()[k].ip, b.psks[k]))
  {
    var s0 := Fresh(config, disk);
    EmptyConsistent(s0.books);
    RunKeepsInv(s0, events);
    InvMeans(Run(s0, events));
  }

  lemma InvMeans(s: Room)
    requires Inv(s)
    ensures |s.books.Leases()| <= CAPACITY && s.books.pending.Keys <= s.books.Leases().Keys
  {
    FullIffCapacity(s.books.Leases());
    assert forall k :: k in s.books.pending ==> k in s.books.Leases();
  }

  /** Main result. If the saves whose errors are ignored succeed, a fixed room's files never lag behind memory. */
  lemma DiskFollowsMemory(s: Room, events: seq<Event>)
    requires Inv(s) && DiskCurrent(s) && AllowedRun(s, events) && AllIgnoredSavesSucceed(events)
    ensures var after := Run(s, events);
            after.settings.fixedRoom && after.books.table.Some? ==>
              && LoadRecord(after.world.disk) == Some(after.Record())
              && after.world.disk.secret == Some(after.Secret())
              && ValidMembers(after.Record().members) && ByKey(after.Record().members) == after.books.Leases()
  {
    RunKeepsInv(s, events);
    RecordMembers(Run(s, events));
  }
}
