/** The room's other calls: when each succeeds and what it leaves, told from what a caller can see. */
module RoomCalls {
  import opened Bytes
  import opened Lease
  import opened RoomState
  import opened Room
  import opened RoomInvariant
  import opened RoomSteps
  import opened RoomRuns
  import Text

  // ----- settings -----

  /** Main result. A new key is taken up, and written out by a fixed room, or nothing changes. */
  lemma RotateAnswers(s: Room, next: nat, secretOk: bool)
    ensures var (after, ok) := s.RotateKey(next, secretOk);
            && (ok <==> && s.running && ValidUid(s.settings.config.hostUID) && s.settings.config.pairPort != 0
                        && next != 0 && (s.settings.fixedRoom ==> secretOk))
            && (!ok ==> after == s)
            && (ok ==> && after.settings.roomKey == next
                       && after.settings.(roomKey := s.settings.roomKey) == s.settings
                       && after.world.(disk := s.world.disk) == s.world && after.books == s.books
                       && after.world.disk.main == s.world.disk.main)
            && (ok && s.settings.fixedRoom ==> after.world.disk.secret == Some(RoomState.Secret(next, s.books.psks)))
            && (ok && !s.settings.fixedRoom ==> after.world.disk.secret == s.world.disk.secret)
  {
  }

  /** What a change of settings leaves of everything else. */
  ghost predicate OnlySettings(s: Room, after: Room) {
    after == s.(settings := after.settings, world := s.world.(disk := after.world.disk))
  }

  /** A load of the files finds the room as it is. */
  ghost predicate OnDisk(s: Room) {
    DiskCurrent(s) && LoadRecord(s.world.disk) == Some(s.Record())
  }

  /** Main result. Joining is opened or closed, on disk too, exactly while the room runs. */
  lemma SetJoinAnswers(s: Room, enabled: bool, env: SaveEnv)
    requires Inv(s) && Savable(s) && Saves(env)
    ensures var (after, ok) := s.SetJoinEnabled(enabled, env);
            && (ok <==> s.running) && (!ok ==> after == s) && OnlySettings(s, after)
            && (ok ==> && after.settings == s.settings.(joinEnabled := enabled)
                       && (s.settings.fixedRoom ==> OnDisk(after)))
  {
    RecordIsGood(s.(settings := s.settings.(joinEnabled := enabled)));
  }

  /** Main result. A UID is unblocked, on disk too, exactly if the room runs and it is blocked; the others stay so. */
  lemma UnblockAnswers(s: Room, uid: Uid, env: SaveEnv)
    requires Inv(s) && Savable(s) && Saves(env)
    ensures var (after, ok) := s.UnblockUid(uid, env);
            && (ok <==> s.running && uid in s.settings.blocked) && (!ok ==> after == s) && OnlySettings(s, after)
            && (ok ==> && after.settings == s.settings.(blocked := s.settings.blocked - {uid})
                       && (s.settings.fixedRoom ==> OnDisk(after)))
  {
    RecordIsGood(s.(settings := s.settings.(blocked := s.settings.blocked - {uid})));
  }

  // ----- members -----

  /** Only this key's entries changed. */
  ghost predicate GoneFrom(s: Room, key: Key, after: Room) {
    && after.books.Leases() == s.books.Leases() - {key} && after.books.psks == s.books.psks - {key}
    && after.books.states == s.books.states - {key} && after.books.pending == s.books.pending - {key}
    && after.world.peers == s.world.peers - {key} && after.uids == s.uids - {key} && after.timers == s.timers - {key}
  }

  /**
    * Main result. When its calls are answered, a member can be removed exactly while the room runs; it can be blocked
    * too exactly if it has reported a UID, which in a fixed room must not be the host's. It is then gone from
    * everything, and nobody else is.
    */
  lemma RemoveAnswers(s: Room, key: Key, block: bool, env: RemoveEnv)
    requires Inv(s) && Savable(s) && env.remove && env.undo && Saves(env.save) && env.save.undoOk
    ensures var (after, ok) := s.RemoveMember(key, block, env);
            && (ok <==>
                  && s.running && key in s.books.Leases()
                  && (block ==> && key in s.uids && ValidUid(s.uids[key])
                                && (s.settings.fixedRoom ==> s.uids[key] != s.settings.config.hostUID)))
            && (ok ==> && GoneFrom(s, key, after)
                       && after.settings == if block then s.settings.(blocked := s.settings.blocked + {s.uids[key]})
                                            else s.settings)
  {
    if s.running && key in s.books.Leases() && (block ==> ValidUid(s.UidOf(key))) {
      RemoveUnfolds(s, key, block, env);
      ForgetKeeps(s.world, s.books, key);
      var now := s.Forget(key, block).(world := s.world.RemovePeer(key, true).0);
      ForgottenIs(s, key, block);
      SavedIff(now, env.save);
    }
  }

  /** A consistent room can be saved exactly if it need not be or its settings are valid. */
  lemma SavedIff(s: Room, env: SaveEnv)
    requires Consistent(s.books) && GoodDisk(s.world.disk) && Saves(env) && env.undoOk
    ensures var (after, ok) := s.SaveIfFixed(env);
            && (ok <==> (s.settings.fixedRoom ==> Savable(s)))
            && after == s.(world := s.world.(disk := after.world.disk))
  {
    SaveKeepsDisk(s, env);
  }

  /** The room without the member, as it is saved. */
  lemma ForgottenIs(s: Room, key: Key, block: bool)
    requires Inv(s) && Savable(s) && s.running && key in s.books.Leases() && (block ==> ValidUid(s.UidOf(key)))
    ensures var now := s.Forget(key, block).(world := s.world.RemovePeer(key, true).0);
            && GoneFrom(s, key, now) && Consistent(now.books) && now.world.disk == s.world.disk
            && now.settings == s.settings.(blocked := now.settings.blocked)
            && now.settings.blocked == (if block then s.settings.blocked + {s.uids[key]} else s.settings.blocked)
            && (Savable(now) <==> (block ==> s.uids[key] != s.settings.config.hostUID))
  {
    ForgetKeeps(s.world, s.books, key);
  }

  /** Main result. A member is renamed exactly if the name is one and the room runs; only its name changes. */
  lemma RenameAnswers(s: Room, key: Key, name: seq<Byte>, env: SaveEnv)
    requires Inv(s) && Savable(s) && Saves(env) && env.undoOk
    ensures var (after, ok) := s.RenameMember(key, name, env);
            && (ok <==> Text.ValidName(name) && s.running && key in s.books.Leases())
            && (!ok ==> after == s)
            && (ok ==> && after.books.Leases() == s.books.Leases()[key := s.books.Leases()[key].(name := name)]
                       && after.books.(table := s.books.table) == s.books && after.world.peers == s.world.peers
                       && after == s.(books := after.books, world := after.world))
  {
    if Text.ValidName(name) && s.running && key in s.books.Leases() {
      var t := s.books.Pool().Assign(key, name).0;
      RenamedRoom(s, key, name);
      SaveKeepsDisk(s.(books := s.books.(table := Some(t))), env);
    }
  }

  // ----- the UIDs the members report -----

  /** The member reports its UID from its own address. */
  ghost predicate SaysUid(s: Room, e: Event, key: Key) {
    e.ReportStats? && e.key == key && key in s.books.Leases() && s.books.Leases()[key].ip == e.ip
  }

  /** The member is removed, or the room forgets everyone. */
  ghost predicate LosesUid(s: Room, e: Event, key: Key) {
    match e
    case Remove(k, block, removal) => k == key && s.RemoveMember(key, block, removal).1
    case Stop => s.running && !s.settings.fixedRoom
    case Create(options, start) => Step(s, e) != s
    case Start(hostKey, start) => Step(s, e) != s
    case _ => false
  }

  lemma AssignKeepsUids(s: Room, key: Key, name: seq<Byte>, pairKey: nat, existingAuth: bool, env: AssignEnv)
    ensures s.Assign(key, name, pairKey, existingAuth, env).0.uids == s.uids
  {
    AssignUnfolds(s, key, name, pairKey, existingAuth, env);
  }

  /** Main result. Of every step: the UID a member is known under is the last one it reported from its own address. */
  lemma UidsExactly(s: Room, e: Event, key: Key)
    ensures Step(s, e).UidOf(key) == if SaysUid(s, e, key) then e.uid
                                     else if LosesUid(s, e, key) then ""
                                     else s.UidOf(key)
  {
    if e.Pair? {
      AssignKeepsUids(s, e.key, e.name, e.pairKey, e.existingAuth, e.env);
    } else if e.Remove? {
      RemoveKeepsUids(s, e, key);
    } else if e.Create? {
      CreateForgetsUids(s, e);
    } else if e.Start? {
      StartForgetsUids(s, e);
    }
  }

  lemma SettleKeepsUids(s: Room, k: Key, block: bool, w: World, env: RemoveEnv, key: Key)
    requires k in s.books.Leases()
    ensures var (after, ok) := s.Settle(k, s.Forget(k, block).(world := w), env);
            after.UidOf(key) == if k == key && ok then "" else s.UidOf(key)
  {
  }

  lemma RemoveKeepsUids(s: Room, e: Event, key: Key)
    requires e.Remove?
    ensures Step(s, e).UidOf(key) == if LosesUid(s, e, key) then "" else s.UidOf(key)
  {
    if e.key in s.books.Leases() {
      SettleKeepsUids(s, e.key, e.block, s.world.RemovePeer(e.key, e.removal.remove).0, e.removal, key);
    }
  }

  lemma CreateForgetsUids(s: Room, e: Event)
    requires e.Create?
    ensures Step(s, e) == s || Step(s, e).uids == map[]
  {
  }

  lemma StartForgetsUids(s: Room, e: Event)
    requires e.Start?
    ensures Step(s, e) == s || Step(s, e).uids == map[]
  {
  }

  // ----- the room's life -----

  /** Main result. What a room was made for is kept when it stops if it is fixed, and forgotten if not. */
  lemma StopLeaves(s: Room)
    requires s.running
    ensures var after := s.Stop().NetworkDown();
            && !after.running && after.timers == map[] && after.world.peers == map[] && !after.world.networkUp
            && after.world.disk == s.world.disk
            && if s.settings.fixedRoom then
                 after.settings == s.settings && after.books == s.books && after.uids == s.uids
               else
                 && after.books.Leases() == map[] && after.books.psks == map[] && after.books.states == map[]
                 && after.books.pending == map[] && after.uids == map[]
                 && after.settings.blocked == {} && after.settings.roomKey == 0 && after.settings.config.hostUID == ""
  {
  }

  /**
    * Main result. When a room can be made: none runs or is still closing, the settings are usable, and a fixed one has
    * a fixed host and can be saved. It is then open, empty and as it was asked for; otherwise nothing runs.
    */
  lemma CreateAnswers(s: Room, o: CreateOptions, env: StartEnv)
    requires Inv(s) && Saves(env.save) && env.save.undoOk
    ensures var (after, ok) := s.Create(o, env);
            var config := o.config.(relayPort := s.settings.config.relayPort);
            && (ok <==>
                  && !s.running && !s.world.networkUp && env.ready && env.network && env.listen
                  && ValidUid(o.config.hostUID) && o.config.pairPort != 0
                  && (o.fixedRoom ==> o.fixedHost && ValidConfig(config)))
            && (!ok ==> after.running == s.running)
            && (ok ==> && after.running
                       && after.settings == Settings(o.fixedRoom, true, config, o.roomKey, o.hostPublic, {})
                       && after.books.Leases() == map[] && after.books.psks == map[] && after.books.pending == map[]
                       && after.world.peers == map[] && after.world.networkUp && after.uids == map[]
                       && (o.fixedRoom ==> LoadRecord(after.world.disk) == Some(after.Record())))
  {
  }

  /**
    * Main result. When a room can be started: none runs or is still closing, its files can be read, WireGuard takes
    * every enabled member, the secret can be written back and the server listens. It then has the settings and the
    * members of the files, all of them offline, and every enabled one is a peer under its own address; otherwise
    * nothing runs that did not run before.
    */
  lemma StartAnswers(s: Room, hostKey: Key, env: StartEnv)
    requires Inv(s)
    ensures var (after, ok) := s.Start(hostKey, env);
            var r := LoadRecord(s.world.disk);
            && (ok <==>
                  && !s.running && !s.world.networkUp && env.ready && env.network && env.listen && env.save.secretOk
                  && r.Some? && s.world.disk.secret.Some? && ValidItems(r.value.members)
                  && forall x :: x in r.value.members && x.enabled ==> x.publicKey !in env.refused)
            && (!ok ==> after.running == s.running && after.world.disk.main == s.world.disk.main)
            && (ok ==> && after.running && after.world.networkUp && after.settings.fixedRoom
                       && after.settings.joinEnabled == r.value.joinEnabled && after.settings.config == r.value.config
                       && after.settings.roomKey == s.world.disk.secret.value.roomKey
                       && after.settings.hostPublic == hostKey && after.settings.blocked == r.value.blocked
                       && after.books.Leases() == ByKey(r.value.members) && after.books.pending == map[]
                       && after.uids == map[] && after.world.disk.secret == Some(after.Secret()))
  {
  }
}
