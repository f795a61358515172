/**
  * The room as a state machine: internal/room/room.go. Every locked callback is one step; the
  * WireGuard peers and the disk are part of the state, and what the outside answers is part of
  * the event.
  */
module Room {
  import opened Bytes
  import opened Lease
  import opened RoomState
  import Text

  /** A member's entry in the state map; NoState is the empty string, which also stands for no entry. */
  datatype MemberState = NoState | Pairing | Configured | Online | Offline

  datatype Peer = Peer(ip: Addr, psk: Psk)

  /** What a pairing attempt must put back if it fails. */
  datatype Pending = Pending(token: nat, previous: Option<Lease>, previousPsk: Option<Psk>, state: MemberState)

  datatype Assignment = Assignment(ip: Addr, revision: Revision, created: bool, token: nat)

  datatype Refusal = JoinPaused | Busy | MemberDisabled | RoomFull | BadKey | ApplyFailed | SaveFailed

  function Lookup<K, V>(m: map<K, V>, k: K): Option<V> {
    if k in m then Some(m[k]) else None
  }

  /** The members and the pairing attempts: what assign changes and a rollback puts back. */
  datatype Books = Books(
    table: Option<Table>,
    psks: map<Key, Psk>,
    states: map<Key, MemberState>,
    pending: map<Key, Pending>,
    attempt: nat) {

    /** The allocator's table; an absent allocator holds nothing. */
    ghost function Pool(): Table {
      if table.Some? then table.value else Table(map[], 0)
    }

    ghost function Leases(): map<Key, Lease> {
      Pool().leases
    }

    function StateOf(key: Key): MemberState {
      if key in states then states[key] else NoState
    }

    /** What a new attempt for `key` remembers. */
    ghost function AttemptFor(key: Key): Pending {
      Pending(attempt + 1, Lookup(Leases(), key), Lookup(psks, key), StateOf(key))
    }

    /** An attempt begins: the allocator has answered with `t`, the PSK is in place. */
    ghost function Begin(key: Key, psk: Psk, t: Table): Books {
      Books(Some(t), psks[key := psk], states, pending[key := AttemptFor(key)], attempt + 1)
    }

    /** The part of rollbackPairLocked that is in memory. */
    ghost function Undo(key: Key, p: Pending): Books {
      Books(
        Some(if p.previous.Some? then Pool().Restore(p.previous.value).0 else Pool().Remove(key)),
        if p.previousPsk.Some? then psks[key := p.previousPsk.value] else psks - {key},
        if p.state == NoState then states - {key} else states[key := p.state],
        pending - {key},
        attempt)
    }

    ghost function Drop(key: Key): Books {
      Books(Some(Pool().Remove(key)), psks - {key}, states - {key}, pending, attempt)
    }

    /** Undoing a removal: a pairing that was pending is not brought back. */
    ghost function Undrop(key: Key, before: Books): Books
      requires key in before.Leases()
    {
      Books(
        Some(Pool().Restore(before.Leases()[key]).0),
        if key in before.psks then psks[key := before.psks[key]] else psks,
        states[key := before.StateOf(key)],
        pending,
        attempt)
    }
  }

  /** What the room is configured with and, if fixed, saves beside its members. */
  datatype Settings = Settings(
    fixedRoom: bool,
    joinEnabled: bool,
    config: Config,
    roomKey: nat,
    hostPublic: Key,
    blocked: set<Uid>)

  /** WireGuard and the disk. A call into WireGuard made while the network is down fails. */
  datatype World = World(networkUp: bool, peers: map<Key, Peer>, disk: Disk) {

    function Apply(item: Lease, psk: Psk, answer: bool): (World, bool) {
      if answer && networkUp then (this.(peers := peers[item.publicKey := Peer(item.ip, psk)]), true) else (this, false)
    }

    function RemovePeer(key: Key, answer: bool): (World, bool) {
      if answer && networkUp then (this.(peers := peers - {key}), true) else (this, false)
    }

    /** The part of rollbackPairLocked that is not in memory. */
    function Undo(key: Key, p: Pending, answer: bool): World {
      if p.previous.Some? && p.previousPsk.Some? then Apply(p.previous.value, p.previousPsk.value, answer).0
      else RemovePeer(key, answer).0
    }
  }

  /** Which of the calls made by assign, or by its rollback, succeed. */
  datatype AssignEnv = AssignEnv(apply: bool, undo: bool, save: SaveEnv)

  datatype RemoveEnv = RemoveEnv(remove: bool, undo: bool, save: SaveEnv)

  /** Ready: free ports and the host's key are to be had. WireGuard may refuse some of the peers. */
  datatype StartEnv = StartEnv(ready: bool, network: bool, listen: bool, refused: set<Key>, save: SaveEnv)

  datatype CreateOptions = CreateOptions(fixedRoom: bool, fixedHost: bool, config: Config, roomKey: nat,
                                         hostPublic: Key)

  datatype Room = Room(
    running: bool,
    settings: Settings,
    books: Books,
    uids: map<Key, Uid>,
    timers: map<Key, Revision>,
    // Expiry callbacks ever armed. Stopping a timer does not remove its callback from here: it may
    // already be waiting for the lock.
    armed: set<(Key, Revision)>,
    world: World) {

    ghost function Record(): Record {
      RoomState.Record(SCHEMA_VERSION, settings.config, settings.joinEnabled, SnapshotOf(books.Leases()), [],
        settings.blocked)
    }

    function Secret(): Secret {
      RoomState.Secret(settings.roomKey, books.psks)
    }

    /** Only fixed rooms are saved. */
    ghost function SaveIfFixed(env: SaveEnv): (Room, bool) {
      if settings.fixedRoom then
        var (d, ok) := Persist(world.disk, Secret(), Record(), env);
        (this.(world := world.(disk := d)), ok)
      else (this, true)
    }

    // ----- assign -----

    /** The checks assign makes before it touches anything. */
    ghost function Refusal(key: Key, existingAuth: bool): Option<Refusal> {
      if !running || (!settings.joinEnabled && key !in books.Leases()) then Some(JoinPaused)
      else if key in books.pending then Some(Busy)
      else if existingAuth && (key !in books.Leases() || !books.Leases()[key].enabled || key !in books.psks)
        then Some(MemberDisabled)
      else None
    }

    /** The PSK an attempt installs: a member who proved knowledge of its PSK keeps it. */
    function AttemptPsk(key: Key, pairKey: nat, existingAuth: bool): Psk {
      if existingAuth && key in books.psks then books.psks[key] else Psk(pairKey, settings.hostPublic, key)
    }

    ghost function Assign(key: Key, name: seq<Byte>, pairKey: nat, existingAuth: bool, env: AssignEnv)
      : (Room, Result<Assignment, Refusal>)
    {
      var refusal := Refusal(key, existingAuth);
      if refusal.Some? then (this, Err(refusal.value)) else Attempt(key, name, pairKey, existingAuth, env)
    }

    /** assign once its checks are passed. */
    ghost function Attempt(key: Key, name: seq<Byte>, pairKey: nat, existingAuth: bool, env: AssignEnv)
      : (Room, Result<Assignment, Refusal>)
    {
      var (t, r) := books.Pool().Assign(key, name);
      if r.Err? then (this, Err(if r.error.Full? then RoomFull else BadKey))
      else Carry(key, t, r.value, AttemptPsk(key, pairKey, existingAuth), existingAuth, env)
    }

    /** The rest of assign, from the attempt's start to its grant or its rollback. */
    ghost function Carry(key: Key, t: Table, r: Assigned, psk: Psk, existingAuth: bool, env: AssignEnv)
      : (Room, Result<Assignment, Refusal>)
    {
      var p := books.AttemptFor(key);
      var s1 := this.(books := books.Begin(key, psk, t));
      var (w, applied) := if existingAuth then (world, true) else world.Apply(r.lease, psk, env.apply);
      if !applied then (s1.(world := w).Rollback(key, p, env.undo), Err(ApplyFailed))
      else
        var s2 := s1.(books := s1.books.(states := s1.books.states[key := Pairing]), world := w);
        var (s3, saved) := s2.SaveIfFixed(env.save);
        if !saved then (s3.Rollback(key, p, env.undo), Err(SaveFailed))
        else (s3, Ok(Assignment(r.lease.ip, r.lease.revision, r.created, p.token)))
    }

    /** rollbackPairLocked. */
    ghost function Rollback(key: Key, p: Pending, answer: bool): Room {
      this.(books := books.Undo(key, p), world := world.Undo(key, p, answer))
    }

    // ----- how an attempt ends -----

    function IsPending(key: Key, token: nat): bool {
      key in books.pending && books.pending[key].token == token
    }

    function Acknowledge(key: Key, a: Assignment): Room {
      if !running || books.table.None? || !IsPending(key, a.token) then this
      else
        this.(books := books.(pending := books.pending - {key}, states := books.states[key := Configured]),
              timers := timers - {key})
    }

    ghost function Fail(key: Key, a: Assignment, undo: bool, save: SaveEnv): Room {
      if !IsPending(key, a.token) then this
      else if a.created then Lapse(key, a.revision)
      else Rollback(key, books.pending[key], undo).SaveIfFixed(save).0
    }

    /** A lease created for an attempt that failed stays until its expiry timer fires. */
    function Lapse(key: Key, revision: Revision): Room {
      this.(books := books.(pending := books.pending - {key}),
            timers := timers[key := revision], armed := armed + {(key, revision)})
    }

    /** The callback armed by a failed first pairing. */
    ghost function Expire(key: Key, revision: Revision, remove: bool, save: SaveEnv): Room {
      var s := this.(timers := timers - {key});
      if !running || !Expirable(key, revision) then s else s.Discard(key, remove, save)
    }

    /** What the callback does to a member it removes. */
    ghost function Discard(key: Key, remove: bool, save: SaveEnv): Room {
      this.(books := books.Drop(key), world := world.RemovePeer(key, remove).0).SaveIfFixed(save).0
    }

    ghost predicate Expirable(key: Key, revision: Revision) {
      key in books.Leases() && books.Leases()[key].revision == revision && books.StateOf(key) != Configured
    }

    // ----- membership management -----

    function UidOf(key: Key): Uid {
      if key in uids then uids[key] else ""
    }

    /** The part of removeMember before its calls. */
    ghost function Forget(key: Key, block: bool): Room {
      this.(books := books.Drop(key).(pending := books.pending - {key}),
            settings := if block then settings.(blocked := settings.blocked + {UidOf(key)}) else settings,
            timers := timers - {key},
            uids := uids - {key})
    }

    /** What both error paths of removeMember put back; `before` is the room it started from. */
    ghost function Unforget(key: Key, before: Room): Room
      requires key in before.books.Leases()
    {
      this.(books := books.Undrop(key, before.books), settings := before.settings,
        uids := uids[key := before.UidOf(key)])
    }

    ghost function RemoveMember(key: Key, block: bool, env: RemoveEnv): (Room, bool) {
      if !running || key !in books.Leases() || (block && !ValidUid(UidOf(key))) then (this, false)
      else TakeOut(key, block, env)
    }

    /** removeMember once its checks are passed. */
    ghost function TakeOut(key: Key, block: bool, env: RemoveEnv): (Room, bool)
      requires key in books.Leases()
    {
      var (w, removed) := world.RemovePeer(key, env.remove);
      if !removed then (Forget(key, block).Unforget(key, this), false)
      else Settle(key, Forget(key, block).(world := w), env)
    }

    /** The end of a removal from this room: `now` without the member is saved, or the member is brought back. */
    ghost function Settle(key: Key, now: Room, env: RemoveEnv): (Room, bool)
      requires key in books.Leases()
    {
      var (s, saved) := now.SaveIfFixed(env.save);
      if saved then (s, true)
      else
        var back := s.Unforget(key, this);
        if key in books.psks then
          (back.(world := back.world.Apply(books.Leases()[key], books.psks[key], env.undo).0), false)
        else (back, false)
    }

    ghost function RenameMember(key: Key, name: seq<Byte>, env: SaveEnv): (Room, bool) {
      if !Text.ValidName(name) || !running || key !in books.Leases() then (this, false)
      else
        var (t, r) := books.Pool().Assign(key, name);
        if r.Err? then (this, false) else Keep(t, env)
    }

    /** Save the renamed lease, or rebuild the allocator from the leases there were. */
    ghost function Keep(t: Table, env: SaveEnv): (Room, bool) {
      var (s, saved) := this.(books := books.(table := Some(t))).SaveIfFixed(env);
      if saved then (s, true) else (s.(books := books.(table := Some(Rebuilt(books.Leases())))), false)
    }

    // ----- settings -----

    function RotateKey(next: nat, secretOk: bool): (Room, bool) {
      if !running || !ValidUid(settings.config.hostUID) || settings.config.pairPort == 0 || next == 0 then (this, false)
      else
        var s := this.(settings := settings.(roomKey := next));
        if !settings.fixedRoom then (s, true)
        else if secretOk then (s.(world := world.(disk := world.disk.(secret := Some(s.Secret())))), true)
        else (this, false)
    }

    ghost function SetJoinEnabled(enabled: bool, env: SaveEnv): (Room, bool) {
      if !running then (this, false) else ChangeSettings(settings.(joinEnabled := enabled), env)
    }

    ghost function UnblockUid(uid: Uid, env: SaveEnv): (Room, bool) {
      if !running || uid !in settings.blocked then (this, false)
      else ChangeSettings(settings.(blocked := settings.blocked - {uid}), env)
    }

    /** Change a setting, save, and change it back if the save fails. */
    ghost function ChangeSettings(next: Settings, env: SaveEnv): (Room, bool) {
      var (s, saved) := this.(settings := next).SaveIfFixed(env);
      if saved then (s, true) else (s.(settings := settings), false)
    }

    /** UpdateMemberStats: `seen` says of each reported key whether its handshake is recent. */
    ghost function UpdateStats(seen: map<Key, bool>): Room {
      this.(books := books.(states := Reported(SnapshotOf(books.Leases()), books.states, seen)))
    }

    ghost function ReportStats(key: Key, uid: Uid, ip: Addr): Room {
      if key !in books.Leases() || books.Leases()[key].ip != ip then this else this.(uids := uids[key := uid])
    }

    // ----- lifecycle -----

    /** clearLocked; the timers, the attempt counter and the relay settings survive it. */
    function Clear(): Room {
      this.(running := false,
            settings := Settings(false, false, settings.config.(roomID := "", hostUID := "", pairPort := 0), 0, 0, {}),
            books := Books(None, map[], map[], map[], books.attempt),
            uids := map[])
    }

    /** The locked part of Stop. */
    function Stop(): Room {
      if !running then this
      else
        var s := this.(running := false, timers := map[]);
        if settings.fixedRoom then s else s.Clear()
    }

    /** The network goes down: at the end of Stop, once every pairing connection has been closed. */
    function NetworkDown(): Room {
      if running then this else this.(world := world.(networkUp := false, peers := map[]))
    }

    /**
      * Create, its defaults chosen and its keys drawn; the network cannot be started while that of a
      * stopped room is still up.
      */
    ghost function Create(o: CreateOptions, env: StartEnv): (Room, bool) {
      if running || !env.ready || !ValidUid(o.config.hostUID) || o.config.pairPort == 0
        || (o.fixedRoom && !o.fixedHost) then (this, false)
      else
        var s := this.(
          settings := Settings(o.fixedRoom, true, o.config.(relayPort := settings.config.relayPort), o.roomKey,
            o.hostPublic, {}),
          books := Books(Some(Table(map[], 0)), map[], map[], map[], books.attempt),
          uids := map[]);
        if !env.network || world.networkUp then (s.Clear(), false) else s.Launch(env)
    }

    /** The end of Create: bring the network up, listen, save a fixed room. */
    ghost function Launch(env: StartEnv): (Room, bool) {
      var up := this.(world := world.(networkUp := true, peers := map[]));
      if !env.listen then (up.Clear().NetworkDown(), false)
      else
        var (saved, ok) := up.SaveIfFixed(env.save);
        if ok then (saved.(running := true), true) else (saved.Clear().NetworkDown(), false)
    }

    /** Start: memory as the files have it; `hostKey` is the host's own key, kept in a file of its own. */
    function Load(r: Record, secret: Secret, hostKey: Key): Room {
      this.(
        settings := Settings(true, r.joinEnabled, r.config, secret.roomKey, hostKey, r.blocked),
        books := Books(Some(Table(ByKey(r.members), MaxRevision(r.members))), secret.psks, AllOffline(r.members),
          map[], books.attempt),
        uids := map[])
    }

    ghost function Start(hostKey: Key, env: StartEnv): (Room, bool) {
      var loaded := LoadRecord(world.disk);
      if running || !env.ready || loaded.None? || world.disk.secret.None?
        || !ValidItems(loaded.value.members) then (this, false)
      else Resume(loaded.value, world.disk.secret.value, hostKey, env)
    }

    /** Start once the files are read. */
    function Resume(r: Record, secret: Secret, hostKey: Key, env: StartEnv): (Room, bool) {
      if !env.network || world.networkUp then (Load(r, secret, hostKey).Clear(), false)
      else if AnyRefused(r.members, env.refused) then (Load(r, secret, hostKey).Clear().NetworkDown(), false)
      else BringUp(r, secret, hostKey).Open(env)
    }

    /** Memory loaded, the network up, every enabled member applied with its PSK. */
    function BringUp(r: Record, secret: Secret, hostKey: Key): Room {
      var s := Load(r, secret, hostKey);
      s.(books := s.books.(psks := StartPsks(r.members, secret, hostKey)),
         world := world.(networkUp := true, peers := StartPeers(r.members, secret, hostKey)))
    }

    /** The end of Start: write the secret back, then listen. */
    function Open(env: StartEnv): (Room, bool) {
      if !env.save.secretOk then (Clear().NetworkDown(), false)
      else
        var saved := this.(world := world.(disk := world.disk.(secret := Some(Secret()))));
        if env.listen then (saved.(running := true), true) else (saved.Clear().NetworkDown(), false)
    }
  }

  /**
    * What UpdateMemberStats makes of the members' states: `seen` says of each reported key whether its
    * handshake is recent.
    */
  function Reported(items: seq<Lease>, states: map<Key, MemberState>, seen: map<Key, bool>): map<Key, MemberState> {
    if |items| == 0 then states
    else
      var key, before := items[|items| - 1].publicKey, Reported(items[..|items| - 1], states, seen);
      if key in seen then before[key := if seen[key] then Online else Configured] else before
  }

  predicate AnyRefused(items: seq<Lease>, refused: set<Key>) {
    exists x :: x in items && x.enabled && x.publicKey in refused
  }

  /** The states Start gives the members. */
  function AllOffline(items: seq<Lease>): map<Key, MemberState> {
    if |items| == 0 then map[] else AllOffline(items[..|items| - 1])[items[|items| - 1].publicKey := Offline]
  }

  /** The PSKs after Start has gone through `items`: an enabled member without a stored one gets a derived one. */
  function StartPsks(items: seq<Lease>, secret: Secret, hostKey: Key): map<Key, Psk> {
    if |items| == 0 then secret.psks
    else
      var item, before := items[|items| - 1], StartPsks(items[..|items| - 1], secret, hostKey);
      if item.enabled && item.publicKey !in before
        then before[item.publicKey := Psk(secret.roomKey, hostKey, item.publicKey)] else before
  }

  /** The peers Start has applied by then. */
  function StartPeers(items: seq<Lease>, secret: Secret, hostKey: Key): map<Key, Peer> {
    if |items| == 0 then map[]
    else
      var item, before, psks := items[|items| - 1], StartPeers(items[..|items| - 1], secret, hostKey),
        StartPsks(items, secret, hostKey);
      if item.enabled && item.publicKey in psks then before[item.publicKey := Peer(item.ip, psks[item.publicKey])]
        else before
  }

  /** What lease.New makes of a snapshot of `leases`: the same leases, the counter at their greatest revision. */
  ghost function Rebuilt(leases: map<Key, Lease>): Table {
    Table(leases, MaxRevision(SnapshotOf(leases)))
  }
}
