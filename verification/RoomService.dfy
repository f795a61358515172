/** The room service itself, its fields updated in place: internal/room/room.go. */
module RoomService {
  import opened Bytes
  import opened Lease
  import opened RoomState
  import opened Room
  import Text

  /** findLease: the first entry with the key. */
  method FindLease(items: seq<Lease>, key: Key) returns (r: Option<Lease>)
    ensures r.Some? ==> r.value in items && r.value.publicKey == key
    ensures r.None? ==> forall x :: x in items ==> x.publicKey != key
  {
    for i := 0 to |items|
      invariant forall j :: 0 <= j < i ==> items[j].publicKey != key
    {
      if items[i].publicKey == key {
        return Some(items[i]);
      }
    }
    return None;
  }

  /** What removeMember keeps of a member, to bring it back. */
  datatype Member = Member(previous: Lease, psk: Option<Psk>, state: MemberState, uid: Uid, wasBlocked: bool) {
    ghost predicate Of(s: Room, key: Key) {
      && key in s.books.Leases() && previous == s.books.Leases()[key] && psk == Lookup(s.books.psks, key)
      && state == s.books.StateOf(key) && uid == s.UidOf(key) && (wasBlocked <==> uid in s.settings.blocked)
    }
  }

  class Service {
    var running: bool
    // fixedRoom, joinEnabled, the ports and IDs, roomKey, hostPublic and blockedUIDs of the program
    var settings: Settings
    var allocator: Allocator?
    var memberStates: map<Key, MemberState>
    var memberPSKs: map<Key, Psk>
    var memberUIDs: map<Key, Uid>
    var pending: map<Key, Pending>
    var pairAttempt: nat
    var timers: map<Key, Revision>
    var world: World
    ghost var armed: set<(Key, Revision)>

    ghost function Repr(): set<object>
      reads this
    {
      {this} + if allocator == null then {} else {allocator as object, allocator.used}
    }

    /** The allocator is only ever absent from a room that is stopped and has nothing pending. */
    ghost predicate Valid()
      reads this, Repr()
    {
      && (allocator != null ==> allocator.Valid())
      && (running || pending != map[] ==> allocator != null)
    }

    /** The abstract room. */
    ghost function View(): Room
      reads this, Repr()
    {
      Room(
        running,
        settings,
        Books(if allocator == null then None else Some(allocator.Contents()), memberPSKs, memberStates, pending,
          pairAttempt),
        memberUIDs, timers, armed, world)
    }

    constructor (relayPort: nat, disk: Disk)
      ensures Valid() && fresh(Repr())
      ensures View() == Room(false, Settings(false, false, Config("", "", 0, 0, relayPort), 0, 0, {}),
                             Books(None, map[], map[], map[], 0), map[], map[], {}, World(false, map[], disk))
    {
      running, settings := false, Settings(false, false, Config("", "", 0, 0, relayPort), 0, 0, {});
      allocator, memberStates, memberPSKs, memberUIDs := null, map[], map[], map[];
      pending, pairAttempt, timers, armed := map[], 0, map[], {};
      world := World(false, map[], disk);
    }

    // ----- calls out of the room -----

    method ApplyPeer(item: Lease, psk: Psk, answer: bool) returns (ok: bool)
      modifies this`world
      ensures (world, ok) == old(world).Apply(item, psk, answer)
    {
      ok := answer && world.networkUp;
      if ok {
        world := world.(peers := world.peers[item.publicKey := Peer(item.ip, psk)]);
      }
    }

    method RemovePeer(key: Key, answer: bool) returns (ok: bool)
      modifies this`world
      ensures (world, ok) == old(world).RemovePeer(key, answer)
    {
      ok := answer && world.networkUp;
      if ok {
        world := world.(peers := world.peers - {key});
      }
    }

    /** secret.Save: the whole file or nothing. */
    method SaveSecret(answer: bool) returns (ok: bool)
      modifies this`world
      ensures ok == answer
      ensures var saved := old(world).disk.(secret := Some(Secret(settings.roomKey, memberPSKs)));
              world == if ok then old(world).(disk := saved) else old(world)
    {
      ok := answer;
      if ok {
        world := world.(disk := world.disk.(secret := Some(Secret(settings.roomKey, memberPSKs))));
      }
    }

    /** persistLocked. */
    method PersistLocked(env: SaveEnv) returns (ok: bool)
      requires Valid() && allocator != null
      modifies this`world
      ensures ok == Persist(old(world).disk, old(View()).Secret(), old(View()).Record(), env).1
      ensures world == old(world).(disk := Persist(old(world).disk, old(View()).Secret(), old(View()).Record(), env).0)
    {
      var previousSecret := world.disk.secret;
      var secretSaved := SaveSecret(env.secretOk);
      if !secretSaved {
        return false;
      }
      var members := allocator.Snapshot();
      var record := Record(SCHEMA_VERSION, settings.config, settings.joinEnabled, members, [], settings.blocked);
      var (disk, saved) := SaveRecord(world.disk, record, env);
      world := world.(disk := disk);
      if saved {
        return true;
      }
      if env.undoOk {
        world := world.(disk := world.disk.(secret := previousSecret));
      }
      return false;
    }

    /** Only fixed rooms are saved. */
    method SaveIfFixed(env: SaveEnv) returns (ok: bool)
      requires Valid() && allocator != null
      modifies this`world
      ensures Valid()
      ensures (View(), ok) == old(View()).SaveIfFixed(env)
    {
      if settings.fixedRoom {
        ok := PersistLocked(env);
      } else {
        ok := true;
      }
    }

    // ----- pairing -----

    /** A member's lease, looked up in a snapshot as the program does. */
    method Holder(key: Key) returns (r: Option<Lease>)
      requires Valid() && allocator != null
      ensures r == Lookup(View().books.Leases(), key)
    {
      var snapshot := allocator.Snapshot();
      r := FindLease(snapshot, key);
      assert forall x :: x in snapshot ==> allocator.byKey[x.publicKey] == x;
      assert key in allocator.byKey ==> allocator.byKey[key] in snapshot;
    }

    /** The allocator's part of a rollback. */
    method RollbackLease(key: Key, previous: Option<Lease>)
      requires Valid() && allocator != null
      modifies allocator, allocator.used
      ensures Valid()
      ensures allocator.Contents() == if previous.Some? then old(allocator.Contents()).Restore(previous.value).0
                                      else old(allocator.Contents()).Remove(key)
    {
      if previous.Some? {
        var _ := allocator.Restore(previous.value);
      } else {
        var _ := allocator.Remove(key);
      }
    }

    /** The peer's part of a rollback. */
    method RollbackPeer(key: Key, p: Pending, answer: bool)
      modifies this`world
      ensures world == old(world).Undo(key, p, answer)
    {
      if p.previous.Some? && p.previousPsk.Some? {
        var _ := ApplyPeer(p.previous.value, p.previousPsk.value, answer);
      } else {
        var _ := RemovePeer(key, answer);
      }
    }

    /** The maps' part of a rollback. */
    method RollbackMaps(key: Key, p: Pending)
      modifies this`pending, this`memberPSKs, this`memberStates
      ensures pending == old(pending) - {key}
      ensures memberPSKs == if p.previousPsk.Some? then old(memberPSKs)[key := p.previousPsk.value]
              else old(memberPSKs) - {key}
      ensures memberStates == if p.state == NoState then old(memberStates) - {key}
              else old(memberStates)[key := p.state]
    {
      pending := pending - {key};
      if p.previousPsk.Some? {
        memberPSKs := memberPSKs[key := p.previousPsk.value];
      } else {
        memberPSKs := memberPSKs - {key};
      }
      if p.state == NoState {
        memberStates := memberStates - {key};
      } else {
        memberStates := memberStates[key := p.state];
      }
    }

    /** rollbackPairLocked. */
    method RollbackPair(key: Key, p: Pending, answer: bool)
      requires Valid() && allocator != null
      modifies this`pending, this`memberPSKs, this`memberStates, this`world, allocator, allocator.used
      ensures Valid()
      ensures View() == old(View()).Rollback(key, p, answer)
    {
      RollbackLease(key, p.previous);
      RollbackMaps(key, p);
      assert View().books == old(View()).books.Undo(key, p);
      RollbackPeer(key, p, answer);
    }

    method Assign(key: Key, name: seq<Byte>, pairKey: nat, existingAuth: bool, env: AssignEnv)
      returns (reply: Result<Assignment, Refusal>)
      requires Valid()
      modifies this, Repr()
      ensures Valid() && Repr() == old(Repr())
      ensures (View(), reply) == old(View()).Assign(key, name, pairKey, existingAuth, env)
    {
      var refusal := Refusal(key, existingAuth);
      if refusal.Some? {
        return Err(refusal.value);
      }
      reply := Attempt(key, name, pairKey, existingAuth, env);
    }

    /** assign once its checks are passed. */
    method Attempt(key: Key, name: seq<Byte>, pairKey: nat, existingAuth: bool, env: AssignEnv)
      returns (reply: Result<Assignment, Refusal>)
      requires Valid() && allocator != null && (existingAuth ==> key in memberPSKs)
      modifies this, Repr()
      ensures Valid() && Repr() == old(Repr())
      ensures (View(), reply) == old(View()).Attempt(key, name, pairKey, existingAuth, env)
    {
      var previous := Holder(key);
      var p := Pending(pairAttempt + 1, previous, Lookup(memberPSKs, key),
                       if key in memberStates then memberStates[key] else NoState);
      assert p == View().books.AttemptFor(key);
      ghost var before := View();
      var r := allocator.Assign(key, name);
      assert (allocator.Contents(), r) == before.books.Pool().Assign(key, name);
      if r.Err? {
        return Err(if r.error.Full? then RoomFull else BadKey);
      }
      reply := Carry(key, r.value, p, pairKey, existingAuth, env, before);
    }

    /** The checks at the head of assign. */
    method Refusal(key: Key, existingAuth: bool) returns (r: Option<Refusal>)
      requires Valid()
      ensures r == View().Refusal(key, existingAuth)
    {
      if !running {
        return Some(JoinPaused);
      }
      var previous := Holder(key);
      if !settings.joinEnabled && previous.None? {
        return Some(JoinPaused);
      }
      if key in pending {
        return Some(Busy);
      }
      if existingAuth && (previous.None? || !previous.value.enabled || key !in memberPSKs) {
        return Some(MemberDisabled);
      }
      return None;
    }

    /** The rest of assign, once the allocator has answered; `before` is the room assign found. */
    method Carry(key: Key, grant: Assigned, p: Pending, pairKey: nat, existingAuth: bool, env: AssignEnv,
                 ghost before: Room)
      returns (reply: Result<Assignment, Refusal>)
      requires Valid() && allocator != null && (existingAuth ==> p.previousPsk.Some?)
      requires p == before.books.AttemptFor(key)
      requires View() == before.(books := before.books.(table := Some(allocator.Contents())))
      modifies this, Repr()
      ensures Valid() && Repr() == old(Repr())
      ensures (View(), reply) ==
                before.Carry(key, old(allocator.Contents()), grant, before.AttemptPsk(key, pairKey, existingAuth),
                  existingAuth, env)
    {
      var psk := if existingAuth then p.previousPsk.value else Psk(pairKey, settings.hostPublic, key);
      Begin(key, p, psk, before);
      var applied := Install(key, grant.lease, psk, p, existingAuth, env);
      if !applied {
        return Err(ApplyFailed);
      }
      reply := Conclude(key, grant, p, env);
    }

    /** The attempt takes its number and is pending; its PSK is in place. */
    method Begin(key: Key, p: Pending, psk: Psk, ghost before: Room)
      requires Valid() && allocator != null && p == before.books.AttemptFor(key)
      requires View() == before.(books := before.books.(table := Some(allocator.Contents())))
      modifies this`pairAttempt, this`pending, this`memberPSKs
      ensures Valid()
      ensures View() == before.(books := before.books.Begin(key, psk, allocator.Contents()))
    {
      pairAttempt := pairAttempt + 1;
      pending := pending[key := p];
      memberPSKs := memberPSKs[key := psk];
    }

    /** WireGuard takes the peer, unless it has it already, or the attempt is taken back. */
    method Install(key: Key, item: Lease, psk: Psk, p: Pending, existingAuth: bool, env: AssignEnv) returns (ok: bool)
      requires Valid() && allocator != null
      modifies this`pending, this`memberPSKs, this`memberStates, this`world, allocator, allocator.used
      ensures Valid()
      ensures var s := old(View());
              var (w, applied) := if existingAuth then (s.world, true) else s.world.Apply(item, psk, env.apply);
              && ok == applied
              && View() == if applied then s.(books := s.books.(states := s.books.states[key := Pairing]), world := w)
                           else s.(world := w).Rollback(key, p, env.undo)
    {
      if !existingAuth {
        var applied := ApplyPeer(item, psk, env.apply);
        if !applied {
          RollbackPair(key, p, env.undo);
          return false;
        }
      }
      memberStates := memberStates[key := Pairing];
      return true;
    }

    /** The last part of assign: save a fixed room, or take the attempt back. */
    method Conclude(key: Key, grant: Assigned, p: Pending, env: AssignEnv) returns (reply: Result<Assignment, Refusal>)
      requires Valid() && allocator != null
      modifies this`pending, this`memberPSKs, this`memberStates, this`world, allocator, allocator.used
      ensures Valid() && Repr() == old(Repr())
      ensures var (s, saved) := old(View()).SaveIfFixed(env.save);
              if saved
              then View() == s && reply == Ok(Assignment(grant.lease.ip, grant.lease.revision, grant.created, p.token))
              else View() == s.Rollback(key, p, env.undo) && reply == Err(SaveFailed)
    {
      var saved := SaveIfFixed(env.save);
      if !saved {
        RollbackPair(key, p, env.undo);
        return Err(SaveFailed);
      }
      return Ok(Assignment(grant.lease.ip, grant.lease.revision, grant.created, p.token));
    }

    // ----- how an attempt ends -----

    method PairingAcknowledged(key: Key, a: Assignment)
      requires Valid()
      modifies this`pending, this`timers, this`memberStates
      ensures Valid() && View() == old(View()).Acknowledge(key, a)
    {
      if !running || allocator == null {
        return;
      }
      if key !in pending || pending[key].token != a.token {
        return;
      }
      pending := pending - {key};
      timers := timers - {key};
      memberStates := memberStates[key := Configured];
    }

    /** pairingFailed: roll an existing member back, or leave a new one to its timer. */
    method PairingFailed(key: Key, a: Assignment, undo: bool, save: SaveEnv)
      requires Valid()
      modifies this, Repr()
      ensures Valid() && Repr() == old(Repr())
      ensures View() == old(View()).Fail(key, a, undo, save)
    {
      if key !in pending || pending[key].token != a.token {
        return;
      }
      var p := pending[key];
      if !a.created {
        RollbackPair(key, p, undo);
        var _ := SaveIfFixed(save);
        return;
      }
      pending := pending - {key};
      timers := timers[key := a.revision];
      armed := armed + {(key, a.revision)};
    }

    /** The callback of an expiry timer. */
    method ExpiryFires(key: Key, revision: Revision, remove: bool, save: SaveEnv)
      requires Valid()
      modifies this, Repr()
      ensures Valid() && Repr() == old(Repr())
      ensures View() == old(View()).Expire(key, revision, remove, save)
    {
      timers := timers - {key};
      if !running || allocator == null {
        return;
      }
      var item := Holder(key);
      if item.None? || item.value.revision != revision || (key in memberStates && memberStates[key] == Configured) {
        return;
      }
      Discard(key, revision, remove, save);
    }

    /** What the callback does to a member it removes. */
    method Discard(key: Key, revision: Revision, remove: bool, save: SaveEnv)
      requires Valid() && allocator != null && key in allocator.byKey && allocator.byKey[key].revision == revision
      modifies this`memberStates, this`memberPSKs, this`world, allocator, allocator.used
      ensures Valid()
      ensures View() == old(View()).Discard(key, remove, save)
    {
      var removed := allocator.RemoveIfRevision(key, revision);
      DropMember(key);
      assert View().books == old(View()).books.Drop(key);
      var _ := RemovePeer(key, remove);
      var _ := SaveIfFixed(save);
    }

    /** The deletions an expired member and a removed one have in common. */
    method DropMember(key: Key)
      modifies this`memberStates, this`memberPSKs
      ensures memberStates == old(memberStates) - {key} && memberPSKs == old(memberPSKs) - {key}
    {
      memberStates := memberStates - {key};
      memberPSKs := memberPSKs - {key};
    }

    // ----- membership management -----

    /** The map deletions only a removal makes. */
    method ForgetExtras(key: Key)
      modifies this`timers, this`memberUIDs, this`pending
      ensures timers == old(timers) - {key} && memberUIDs == old(memberUIDs) - {key} && pending == old(pending) - {key}
    {
      timers := timers - {key};
      memberUIDs := memberUIDs - {key};
      pending := pending - {key};
    }

    /** The deletions of removeMember. */
    method Forget(key: Key, block: bool)
      requires Valid() && allocator != null
      modifies this, Repr()
      ensures Valid() && Repr() == old(Repr())
      ensures View() == old(View()).Forget(key, block)
    {
      if block {
        settings := settings.(blocked := settings.blocked + {if key in memberUIDs then memberUIDs[key] else ""});
      }
      var _ := allocator.Remove(key);
      DropMember(key);
      assert View().books == old(View()).books.Drop(key);
      ForgetExtras(key);
    }

    /** The member's entries in the books, put back. */
    method UnforgetBooks(key: Key, m: Member, ghost before: Books)
      requires Valid() && allocator != null && key in before.Leases()
      requires m.previous == before.Leases()[key] && m.psk == Lookup(before.psks, key) && m.state == before.StateOf(key)
      modifies this`memberStates, this`memberPSKs, allocator, allocator.used
      ensures Valid()
      ensures View().books == old(View()).books.Undrop(key, before)
    {
      var _ := allocator.Restore(m.previous);
      memberStates := memberStates[key := m.state];
      if m.psk.Some? {
        memberPSKs := memberPSKs[key := m.psk.value];
      }
    }

    /** What both error paths of removeMember put back. */
    method Unforget(key: Key, block: bool, m: Member, ghost before: Room)
      requires Valid() && allocator != null && m.Of(before, key)
      requires View().settings == before.Forget(key, block).settings
      modifies this`settings, this`memberStates, this`memberUIDs, this`memberPSKs, allocator, allocator.used
      ensures Valid() && Repr() == old(Repr())
      ensures View() == old(View()).Unforget(key, before)
    {
      UnforgetBooks(key, m, before.books);
      if block && !m.wasBlocked {
        settings := settings.(blocked := settings.blocked - {m.uid});
      }
      memberUIDs := memberUIDs[key := m.uid];
      assert settings.blocked == before.settings.blocked;
    }

    /** removeMember; false stands for every error. */
    method RemoveMember(key: Key, block: bool, env: RemoveEnv) returns (ok: bool)
      requires Valid()
      modifies this, Repr()
      ensures Valid() && Repr() == old(Repr())
      ensures (View(), ok) == old(View()).RemoveMember(key, block, env)
    {
      if !running {
        return false;
      }
      var previous := Holder(key);
      if previous.None? {
        return false;
      }
      var uid := if key in memberUIDs then memberUIDs[key] else "";
      if block && !ValidUid(uid) {
        return false;
      }
      var m := Member(previous.value, Lookup(memberPSKs, key),
        if key in memberStates then memberStates[key] else NoState,
                      uid, uid in settings.blocked);
      ok := TakeOut(key, block, m, env);
    }

    /** removeMember once its checks are passed. */
    method TakeOut(key: Key, block: bool, m: Member, env: RemoveEnv) returns (ok: bool)
      requires Valid() && allocator != null && m.Of(View(), key)
      modifies this, Repr()
      ensures Valid() && Repr() == old(Repr())
      ensures (View(), ok) == old(View()).TakeOut(key, block, env)
    {
      ghost var before := View();
      Forget(key, block);
      var removed := RemovePeer(key, env.remove);
      if removed {
        ok := ConcludeRemoval(key, block, m, env, before);
      } else {
        Unforget(key, block, m, before);
        ok := false;
      }
    }

    /** The last part of removeMember: save a fixed room, or bring the member back. */
    method ConcludeRemoval(key: Key, block: bool, m: Member, env: RemoveEnv, ghost before: Room) returns (ok: bool)
      requires Valid() && allocator != null && m.Of(before, key)
      requires View().settings == before.Forget(key, block).settings
      modifies this`world, this`settings, this`memberStates, this`memberUIDs, this`memberPSKs, allocator, allocator.used
      ensures Valid() && Repr() == old(Repr())
      ensures (View(), ok) == before.Settle(key, old(View()), env)
    {
      ok := SaveIfFixed(env.save);
      if !ok {
        Unforget(key, block, m, before);
        if m.psk.Some? {
          var _ := ApplyPeer(m.previous, m.psk.value, env.undo);
        }
      }
    }

    method RenameMember(key: Key, name: seq<Byte>, env: SaveEnv) returns (ok: bool)
      requires Valid()
      modifies this, Repr()
      ensures Valid() && fresh(Repr() - old(Repr()))
      ensures (View(), ok) == old(View()).RenameMember(key, name, env)
    {
      if !Text.ValidName(name) || !running {
        return false;
      }
      var previous := allocator.Snapshot();
      var holder := Holder(key);
      if holder.None? {
        return false;
      }
      ghost var leases := allocator.byKey;
      var r := allocator.Assign(key, name);
      if r.Err? {
        return false;
      }
      ok := Keep(previous, leases, old(View()), env);
    }

    /** Save the renamed lease, or rebuild the allocator; `before` is the room renameMember found. */
    method Keep(previous: seq<Lease>, ghost leases: map<Key, Lease>, ghost before: Room, env: SaveEnv)
      returns (ok: bool)
      requires Valid() && allocator != null && ValidLeases(leases) && previous == SnapshotOf(leases)
               && before.books.Leases() == leases
      requires View() == before.(books := before.books.(table := Some(allocator.Contents())))
      modifies this`allocator, this`world
      ensures Valid() && fresh(Repr() - old(Repr()))
      ensures (View(), ok) == before.Keep(old(allocator.Contents()), env)
    {
      ok := SaveIfFixed(env);
      if !ok {
        Rebuild(previous, leases);
      }
    }

    /** A new allocator from an old snapshot. */
    method Rebuild(previous: seq<Lease>, ghost leases: map<Key, Lease>)
      requires ValidLeases(leases) && previous == SnapshotOf(leases)
      modifies this`allocator
      ensures allocator != null && fresh(allocator) && fresh(allocator.used) && allocator.Valid()
      ensures allocator.Contents() == Rebuilt(leases)
    {
      SnapshotRebuilds(previous, leases);
      var rebuilt := Allocator.New(previous);
      allocator := rebuilt.value;
    }

    // ----- settings -----

    method RotateKey(next: nat, secretOk: bool) returns (ok: bool)
      requires Valid()
      modifies this`settings, this`world
      ensures Valid()
      ensures (View(), ok) == old(View()).RotateKey(next, secretOk)
    {
      if !running || !ValidUid(settings.config.hostUID) || settings.config.pairPort == 0 || next == 0 {
        return false;
      }
      var previous := settings.roomKey;
      settings := settings.(roomKey := next);
      if settings.fixedRoom {
        var saved := SaveSecret(secretOk);
        if !saved {
          settings := settings.(roomKey := previous);
          return false;
        }
      }
      return true;
    }

    method SetJoinEnabled(enabled: bool, env: SaveEnv) returns (ok: bool)
      requires Valid()
      modifies this`settings, this`world
      ensures Valid()
      ensures (View(), ok) == old(View()).SetJoinEnabled(enabled, env)
    {
      if !running {
        return false;
      }
      var previous := settings.joinEnabled;
      settings := settings.(joinEnabled := enabled);
      ok := SaveIfFixed(env);
      if !ok {
        settings := settings.(joinEnabled := previous);
      }
    }

    method UnblockUID(uid: Uid, env: SaveEnv) returns (ok: bool)
      requires Valid()
      modifies this`settings, this`world
      ensures Valid()
      ensures (View(), ok) == old(View()).UnblockUid(uid, env)
    {
      if !running || uid !in settings.blocked {
        return false;
      }
      settings := settings.(blocked := settings.blocked - {uid});
      ok := SaveIfFixed(env);
      if !ok {
        settings := settings.(blocked := settings.blocked + {uid});
        assert settings.blocked == old(settings.blocked);
      }
    }

    method ReportStats(key: Key, uid: Uid, ip: Addr)
      requires Valid()
      modifies this`memberUIDs
      ensures Valid() && View() == old(View()).ReportStats(key, uid, ip)
    {
      if allocator == null {
        return;
      }
      var item := Holder(key);
      if item.None? || item.value.ip != ip {
        return;
      }
      memberUIDs := memberUIDs[key := uid];
    }

    // ----- lifecycle -----

    /** clearLocked. */
    method Clear()
      modifies this
      ensures Valid() && View() == old(View()).Clear()
      ensures Repr() == {this}
    {
      running, memberUIDs := false, map[];
      settings := Settings(false, false, settings.config.(roomID := "", hostUID := "", pairPort := 0), 0, 0, {});
      allocator, memberStates, memberPSKs, pending := null, map[], map[], map[];
    }

    /** The locked part of Stop. */
    method Stop()
      requires Valid()
      modifies this
      ensures Valid() && View() == old(View()).Stop()
      ensures Repr() <= old(Repr())
    {
      if !running {
        return;
      }
      running := false;
      timers := map[];
      if !settings.fixedRoom {
        Clear();
      }
    }

    /** stopNetwork. */
    method NetworkDown()
      requires Valid()
      modifies this`world
      ensures Valid() && View() == old(View()).NetworkDown()
    {
      if !running {
        world := world.(networkUp := false, peers := map[]);
      }
    }

    /** UpdateMemberStats: `seen` says of each reported key whether its handshake is recent. */
    method UpdateMemberStats(seen: map<Key, bool>)
      requires Valid()
      modifies this`memberStates
      ensures Valid() && View() == old(View()).UpdateStats(seen)
    {
      if allocator == null {
        NothingToReport();
        return;
      }
      var items := allocator.Snapshot();
      ReportMembers(items, seen);
    }

    /** The loop of UpdateMemberStats. */
    method ReportMembers(items: seq<Lease>, seen: map<Key, bool>)
      modifies this`memberStates
      ensures memberStates == Reported(items, old(memberStates), seen)
    {
      for i := 0 to |items|
        invariant memberStates == Reported(items[..i], old(memberStates), seen)
      {
        var key := items[i].publicKey;
        assert items[..i + 1][..i] == items[..i];
        if key in seen {
          memberStates := memberStates[key := if seen[key] then Online else Configured];
        }
      }
      assert items[..|items|] == items;
    }

    /** Create, its defaults chosen and its keys drawn. */
    method Create(o: CreateOptions, env: StartEnv) returns (ok: bool)
      requires Valid()
      modifies this
      ensures Valid() && fresh(Repr() - old(Repr()))
      ensures (View(), ok) == old(View()).Create(o, env)
    {
      if running || !env.ready || !ValidUid(o.config.hostUID) || o.config.pairPort == 0
        || (o.fixedRoom && !o.fixedHost) {
        return false;
      }
      Reset(o);
      if !env.network || world.networkUp {
        Clear();
        return false;
      }
      ok := Launch(env);
    }

    /** The assignments of Create. */
    method Reset(o: CreateOptions)
      modifies this
      ensures Valid() && allocator != null && fresh(Repr() - {this})
      ensures View() == old(View()).(
          settings := Settings(o.fixedRoom, true, o.config.(relayPort := old(settings).config.relayPort), o.roomKey,
            o.hostPublic, {}),
          books := Books(Some(Table(map[], 0)), map[], map[], map[], old(pairAttempt)),
          uids := map[])
    {
      var a := new Allocator();
      settings := Settings(o.fixedRoom, true, o.config.(relayPort := settings.config.relayPort), o.roomKey,
        o.hostPublic, {});
      allocator, memberStates, memberPSKs, memberUIDs, pending := a, map[], map[], map[], map[];
    }

    /** The end of Create: bring the network up, listen, save a fixed room. */
    method Launch(env: StartEnv) returns (ok: bool)
      requires Valid() && allocator != null && !running
      modifies this
      ensures Valid() && Repr() <= old(Repr())
      ensures (View(), ok) == old(View()).Launch(env)
    {
      world := world.(networkUp := true, peers := map[]);
      if env.listen {
        var saved := SaveIfFixed(env.save);
        if saved {
          running := true;
          return true;
        }
      }
      Clear();
      NetworkDown();
      return false;
    }

    /** Start: load the files, bring the network and the peers up, write the secret back, listen. */
    method Start(hostKey: Key, env: StartEnv) returns (ok: bool)
      requires Valid()
      modifies this
      ensures Valid() && fresh(Repr() - old(Repr()))
      ensures (View(), ok) == old(View()).Start(hostKey, env)
    {
      var loaded := LoadRecord(world.disk);
      if running || loaded.None? || world.disk.secret.None? || !env.ready {
        return false;
      }
      var r, secret := loaded.value, world.disk.secret.value;
      var created := Allocator.New(r.members);
      if created.None? {
        return false;
      }
      ok := Resume(created.value, r, secret, hostKey, env);
    }

    /** Start once the files are read and the allocator is made from them. */
    method Resume(a: Allocator, r: Record, secret: Secret, hostKey: Key, env: StartEnv) returns (ok: bool)
      requires Valid() && !running && a.Valid() && a.Contents() == Table(ByKey(r.members), MaxRevision(r.members))
      modifies this
      ensures Valid() && Repr() <= {this, a, a.used}
      ensures (View(), ok) == old(View()).Resume(r, secret, hostKey, env)
    {
      ghost var before := View();
      Load(a, r, secret, hostKey);
      assert View() == before.Load(r, secret, hostKey);
      if !env.network || world.networkUp {
        Clear();
        return false;
      }
      ok := ConnectMembers(r, secret, hostKey, env, before);
    }

    /** Start once memory is loaded and the network can be brought up; `before` is the room it found. */
    method ConnectMembers(r: Record, secret: Secret, hostKey: Key, env: StartEnv, ghost before: Room) returns (ok: bool)
      requires Valid() && allocator != null && !running && View() == before.Load(r, secret, hostKey)
      modifies this
      ensures Valid() && Repr() <= old(Repr())
      ensures (View(), ok) == if AnyRefused(r.members, env.refused)
              then (before.Load(r, secret, hostKey).Clear().NetworkDown(), false)
                              else before.BringUp(r, secret, hostKey).Open(env)
    {
      var applied := ApplyMembers(r.members, secret, hostKey, env.refused);
      if !applied {
        Clear();
        NetworkDown();
        return false;
      }
      assert View() == before.BringUp(r, secret, hostKey);
      ok := Open(env);
    }

    /** Bring the network up and apply every enabled member; the first refusal ends it. */
    method ApplyMembers(items: seq<Lease>, secret: Secret, hostKey: Key, refused: set<Key>) returns (ok: bool)
      requires memberPSKs == secret.psks
      modifies this`memberPSKs, this`world
      ensures ok == !AnyRefused(items, refused)
      ensures world.disk == old(world.disk)
      ensures ok ==> memberPSKs == StartPsks(items, secret, hostKey)
      ensures ok ==> world.networkUp && world.peers == StartPeers(items, secret, hostKey)
    {
      world := world.(networkUp := true, peers := map[]);
      for i := 0 to |items|
        invariant !AnyRefused(items[..i], refused)
        invariant world.networkUp && world.disk == old(world.disk)
        invariant memberPSKs == StartPsks(items[..i], secret, hostKey)
                  && world.peers == StartPeers(items[..i], secret, hostKey)
      {
        var item := items[i];
        assert items[..i + 1][..i] == items[..i];
        if item.enabled {
          if item.publicKey !in memberPSKs {
            memberPSKs := memberPSKs[item.publicKey := Psk(secret.roomKey, hostKey, item.publicKey)];
          }
          var applied := ApplyPeer(item, memberPSKs[item.publicKey], item.publicKey !in refused);
          if !applied {
            return false;
          }
        }
      }
      assert items[..|items|] == items;
      return true;
    }

    /** The end of Start: write the secret back, then listen. */
    method Open(env: StartEnv) returns (ok: bool)
      requires Valid() && allocator != null && !running
      modifies this
      ensures Valid() && Repr() <= old(Repr())
      ensures (View(), ok) == old(View()).Open(env)
    {
      ok := SaveSecret(env.save.secretOk);
      if !ok || !env.listen {
        Clear();
        NetworkDown();
        return false;
      }
      running := true;
    }

    /** The assignments of Start. */
    method Load(a: Allocator, r: Record, secret: Secret, hostKey: Key)
      modifies this
      ensures allocator == a && running == old(running) && world == old(world) && timers == old(timers)
              && armed == old(armed)
      ensures settings == Settings(true, r.joinEnabled, r.config, secret.roomKey, hostKey, r.blocked)
      ensures memberPSKs == secret.psks && memberStates == AllOffline(r.members)
      ensures memberUIDs == map[] && pending == map[] && pairAttempt == old(pairAttempt)
    {
      settings := Settings(true, r.joinEnabled, r.config, secret.roomKey, hostKey, r.blocked);
      allocator, memberPSKs, memberUIDs, pending, memberStates := a, secret.psks, map[], map[], map[];
      for i := 0 to |r.members|
        invariant allocator == a && running == old(running) && world == old(world) && timers == old(timers)
                  && armed == old(armed)
        invariant settings == Settings(true, r.joinEnabled, r.config, secret.roomKey, hostKey, r.blocked)
        invariant memberPSKs == secret.psks && memberUIDs == map[] && pending == map[]
                  && pairAttempt == old(pairAttempt)
        invariant memberStates == AllOffline(r.members[..i])
      {
        assert r.members[..i + 1][..i] == r.members[..i];
        memberStates := memberStates[r.members[i].publicKey := Offline];
      }
      assert r.members[..|r.members|] == r.members;
    }
  }

  /** An absent allocator has no members to report. */
  lemma NothingToReport()
    ensures SnapshotOf(map[]) == []
  {
    assert IsSnapshot([], map[]);
    SnapshotUnique(SnapshotOf(map[]), [], map[]);
  }
}
