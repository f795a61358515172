/** The invariant of the room, and what one pairing attempt does to it. */
module RoomInvariant {
  import opened Bytes
  import opened Lease
  import opened RoomState
  import opened Room

  // ----- the invariant -----

  /** The same lease, name aside. */
  predicate SameHolding(a: Lease, b: Lease) {
    a == b.(name := a.name)
  }

  /** A pending attempt belongs to a member and remembers that member as it still is, name and PSK aside. */
  predicate AttemptSound(p: Pending, key: Key, leases: map<Key, Lease>, attempt: nat) {
    && key in leases
    && 1 <= p.token <= attempt
    && (p.previous.Some? <==> p.previousPsk.Some?)
    && (p.previous.Some? <==> p.state != NoState)
    && (p.previous.Some? ==> SameHolding(p.previous.value, leases[key]))
  }

  predicate SameToken(pending: map<Key, Pending>, j: Key, k: Key) {
    j in pending && k in pending && pending[j].token == pending[k].token
  }

  ghost predicate AttemptsSound(pending: map<Key, Pending>, leases: map<Key, Lease>, attempt: nat) {
    && (forall k :: k in pending ==> AttemptSound(pending[k], k, leases, attempt))
    && (forall j, k :: SameToken(pending, j, k) ==> j == k)
  }

  /** Leases, PSKs and states have the same keys. */
  ghost predicate KeysAgree(leases: map<Key, Lease>, psks: map<Key, Psk>, states: map<Key, MemberState>) {
    && ValidLeases(leases)
    && psks.Keys == leases.Keys
    && states.Keys == leases.Keys
    && (forall k :: k in states ==> states[k] != NoState)
    && (forall k :: k in leases ==> leases[k].enabled)
  }

  ghost predicate Consistent(b: Books) {
    && KeysAgree(b.Leases(), b.psks, b.states)
    && Issued(b.Pool())
    && AttemptsSound(b.pending, b.Leases(), b.attempt)
  }

  /** WireGuard has exactly the members, each with its address and its PSK. */
  ghost predicate PeersAre(peers: map<Key, Peer>, leases: map<Key, Lease>, psks: map<Key, Psk>) {
    && peers.Keys == psks.Keys == leases.Keys
    && forall k :: k in peers ==> peers[k] == Peer(leases[k].ip, psks[k])
  }

  ghost predicate PeersMatch(w: World, b: Books) {
    b.table.Some? && w.networkUp && PeersAre(w.peers, b.Leases(), b.psks)
  }

  /** The files decode to a room that blocks no keys and whose every PSK belongs to a member. */
  ghost predicate GoodDisk(d: Disk) {
    && (d.main.None? ==> d.backup.None?)
    && (d.main.Some? ==> d.secret.Some? && GoodFiles(d.main.value, d.secret.value))
  }

  ghost predicate GoodFiles(r: Record, secret: Secret) {
    && ValidRecord(r) && r.blockedMembers == []
    && ValidItems(r.members)
    && IsSnapshot(r.members, ByKey(r.members))
    && (forall k :: k in ByKey(r.members) ==> ByKey(r.members)[k].enabled)
    && secret.psks.Keys <= ByKey(r.members).Keys
  }

  /** A fixed room's members are all on disk. */
  ghost predicate Covered(settings: Settings, b: Books, d: Disk) {
    settings.fixedRoom && b.table.Some? ==> d.main.Some? && b.Leases().Keys <= ByKey(d.main.value.members).Keys
  }

  ghost predicate Inv(s: Room) {
    && Consistent(s.books)
    && (s.running ==> PeersMatch(s.world, s.books))
    && GoodDisk(s.world.disk)
    && Covered(s.settings, s.books, s.world.disk)
  }

  /** A fixed room's files say exactly what memory says. */
  ghost predicate DiskCurrent(s: Room) {
    s.settings.fixedRoom && s.books.table.Some? ==>
      s.world.disk.main == Some(s.Record()) && s.world.disk.secret == Some(s.Secret())
  }

  // ----- putting a member in, taking one out -----

  lemma KeysAgreePut(leases: map<Key, Lease>, psks: map<Key, Psk>, states: map<Key, MemberState>,
                     item: Lease, psk: Psk, state: MemberState)
    requires KeysAgree(leases, psks, states)
    requires ValidLeases(leases[item.publicKey := item]) && item.enabled && state != NoState
    ensures KeysAgree(leases[item.publicKey := item], psks[item.publicKey := psk], states[item.publicKey := state])
  {
  }

  lemma KeysAgreeDrop(leases: map<Key, Lease>, psks: map<Key, Psk>, states: map<Key, MemberState>, key: Key)
    requires KeysAgree(leases, psks, states)
    ensures KeysAgree(leases - {key}, psks - {key}, states - {key})
  {
    ValidAfterRemove(leases, key);
  }

  lemma PeersPut(peers: map<Key, Peer>, leases: map<Key, Lease>, psks: map<Key, Psk>, item: Lease, psk: Psk)
    requires PeersAre(peers, leases, psks)
    ensures PeersAre(peers[item.publicKey := Peer(item.ip, psk)], leases[item.publicKey := item],
            psks[item.publicKey := psk])
  {
  }

  lemma PeersDrop(peers: map<Key, Peer>, leases: map<Key, Lease>, psks: map<Key, Psk>, key: Key)
    requires PeersAre(peers, leases, psks)
    ensures PeersAre(peers - {key}, leases - {key}, psks - {key})
  {
  }

  /** Renaming a holder, or putting its earlier lease back, keeps the leases valid. */
  lemma ValidAfterSwap(leases: map<Key, Lease>, item: Lease)
    requires ValidLeases(leases) && item.publicKey in leases && SameHolding(item, leases[item.publicKey])
    ensures ValidLeases(leases[item.publicKey := item])
  {
    var after := leases[item.publicKey := item];
    forall j, k | SameAddress(after, j, k)
      ensures j == k
    {
      assert SameAddress(leases, j, k);
    }
  }

  /** Attempts stay sound when some end, others' leases change, and more tokens are handed out. */
  lemma AttemptsKept(pending: map<Key, Pending>, leases: map<Key, Lease>, attempt: nat,
                     pending': map<Key, Pending>, leases': map<Key, Lease>, attempt': nat)
    requires AttemptsSound(pending, leases, attempt) && attempt <= attempt'
    requires forall k :: k in pending' ==> k in pending && pending'[k] == pending[k]
    requires forall k :: k in pending' && k in leases ==> k in leases' && SameHolding(leases'[k], leases[k])
    ensures AttemptsSound(pending', leases', attempt')
  {
    forall j, k | SameToken(pending', j, k)
      ensures j == k
    {
      assert SameToken(pending, j, k);
    }
  }

  lemma AttemptsAdded(pending: map<Key, Pending>, leases: map<Key, Lease>, attempt: nat, key: Key, p: Pending)
    requires AttemptsSound(pending, leases, attempt) && p.token == attempt + 1
    requires AttemptSound(p, key, leases, attempt + 1)
    ensures AttemptsSound(pending[key := p], leases, attempt + 1)
  {
    var after := pending[key := p];
    forall j, k | SameToken(after, j, k)
      ensures j == k
    {
      if j != key && k != key {
        assert SameToken(pending, j, k);
      }
    }
  }

  lemma SameElsewhere<K, V>(now: map<K, V>, was: map<K, V>, key: K)
    requires now - {key} == was - {key}
    ensures key in was ==> now[key := was[key]] == was
    ensures key !in was ==> now - {key} == was
  {
    assert forall k :: k != key ==> (k in now <==> k in now - {key}) && (k in was <==> k in was - {key});
    assert forall k :: k in now && k != key ==> now[k] == (now - {key})[k];
    assert forall k :: k in was && k != key ==> was[k] == (was - {key})[k];
  }

  // ----- saving -----

  lemma RecordMembers(s: Room)
    requires ValidLeases(s.books.Leases()) && Issued(s.books.Pool())
    ensures ByKey(s.Record().members) == s.books.Leases()
    ensures ValidItems(s.Record().members) && ValidMembers(s.Record().members)
    ensures IsSnapshot(s.Record().members, s.books.Leases())
  {
    var items := SnapshotOf(s.books.Leases());
    SnapshotRebuilds(items, s.books.Leases());
    forall i | 0 <= i < |items|
      ensures items[i].revision != 0
    {
      assert items[i] in items;
    }
  }

  /** What a save leaves behind: current files, or the files as they were. */
  ghost predicate SavedOrNot(s: Room, after: Room, ok: bool) {
    && after == s.(world := s.world.(disk := after.world.disk))
    && GoodDisk(after.world.disk)
    && (ok ==> DiskCurrent(after))
    && (!ok ==> DiskUndone(s.world.disk, after.world.disk))
  }

  /** The same files, though the backup may have been refreshed. */
  predicate DiskUndone(d: Disk, after: Disk) {
    after == d.(backup := after.backup) && after.backup in {d.backup, d.main}
  }

  /** A save that nothing but an invalid record can stop. */
  predicate Saves(env: SaveEnv) {
    env.secretOk && env.backupOk && env.mainOk
  }

  /** The files' half of a save: a good disk stays good whether or not the save succeeds. */
  lemma PersistKeepsGood(d: Disk, secret: Secret, r: Record, env: SaveEnv)
    requires GoodDisk(d) && env.undoOk
    requires ValidRecord(r) ==> GoodFiles(r, secret)
    ensures var (after, ok) := Persist(d, secret, r, env);
            && GoodDisk(after)
            && (ok ==> after.main == Some(r) && after.secret == Some(secret))
            && (!ok ==> DiskUndone(d, after))
            && (Saves(env) && ValidRecord(r) ==> ok)
  {
  }

  /** A room whose settings can be saved. */
  predicate Savable(s: Room) {
    ValidConfig(s.settings.config) && ValidBlocked(s.settings.blocked, s.settings.config.hostUID)
  }

  lemma RecordIsGood(s: Room)
    requires Consistent(s.books)
    ensures ValidRecord(s.Record()) ==> GoodFiles(s.Record(), s.Secret())
    ensures Savable(s) ==> ValidRecord(s.Record())
  {
    RecordMembers(s);
  }

  /** Saving a consistent room keeps the disk good whether or not it succeeds. */
  lemma SaveKeepsDisk(s: Room, env: SaveEnv)
    requires Consistent(s.books) && GoodDisk(s.world.disk) && env.undoOk
    ensures var (after, ok) := s.SaveIfFixed(env);
            && SavedOrNot(s, after, ok)
            && (Saves(env) && Savable(s) ==> ok)
  {
    RecordIsGood(s);
    PersistKeepsGood(s.world.disk, s.Secret(), s.Record(), env);
  }

  lemma CurrentCovers(s: Room)
    requires Consistent(s.books) && DiskCurrent(s)
    ensures Covered(s.settings, s.books, s.world.disk)
  {
    RecordMembers(s);
  }

  // ----- undoing an attempt -----

  /** An attempt reverted: everything about `key` as the attempt remembered it. */
  ghost function Reverted(b: Books, key: Key, p: Pending): Books
    requires p.previous.Some? <==> p.previousPsk.Some?
  {
    if p.previous.Some? then
      Books(Some(b.Pool().(leases := b.Leases()[key := p.previous.value])), b.psks[key := p.previousPsk.value],
            b.states[key := p.state], b.pending - {key}, b.attempt)
    else
      Books(Some(b.Pool().Remove(key)), b.psks - {key}, b.states - {key}, b.pending - {key}, b.attempt)
  }

  /** rollbackPairLocked never fails to restore a lease that its holder still has. */
  lemma UndoReverts(b: Books, key: Key, p: Pending)
    requires ValidLeases(b.Leases()) && Issued(b.Pool()) && AttemptSound(p, key, b.Leases(), p.token)
    ensures b.Undo(key, p) == Reverted(b, key, p)
  {
  }

  /** `now` is `b` after an attempt for `key` touched nothing but that key and the counters. */
  ghost predicate InProgress(b: Books, key: Key, item: Lease, revision: Revision, now: Books) {
    && now.table == Some(Table(b.Leases()[key := item], revision))
    && now.psks - {key} == b.psks - {key}
    && now.states - {key} == b.states - {key}
    && now.pending == b.pending[key := b.AttemptFor(key)]
    && now.attempt == b.attempt + 1
  }

  /** Only the counters have moved on. */
  ghost function CountersMoved(b: Books, revision: Revision): Books {
    b.(table := Some(Table(b.Leases(), revision)), attempt := b.attempt + 1)
  }

  /** What a successful allocation for `key` looks like. */
  ghost predicate Allocated(t: Table, key: Key, item: Lease, revision: Revision) {
    && item.publicKey == key && ValidLeases(t.leases[key := item])
    && if key in t.leases then SameHolding(item, t.leases[key]) && revision == t.revision
       else item.enabled && item.revision == revision && t.revision < revision
  }

  lemma AllocationSucceeds(t: Table, key: Key, name: seq<Byte>)
    requires ValidLeases(t.leases) && t.Assign(key, name).1.Ok?
    requires key !in t.leases ==> t.revision < REVISIONS - 1
    ensures var (after, r) := t.Assign(key, name);
            && after == Table(t.leases[key := r.value.lease], after.revision)
            && Allocated(t, key, r.value.lease, after.revision)
            && (r.value.created <==> key !in t.leases)
  {
    AssignKeepsValid(t, key, name);
  }

  /** An attempt, however far it got with its key, is undone to the books it started from. */
  lemma AttemptUndone(b: Books, key: Key, item: Lease, revision: Revision, now: Books)
    requires Consistent(b) && key !in b.pending
    requires InProgress(b, key, item, revision, now) && Allocated(b.Pool(), key, item, revision)
    ensures now.Undo(key, b.AttemptFor(key)) == CountersMoved(b, revision)
  {
    assert now.pending - {key} == b.pending;
    SameElsewhere(now.psks, b.psks, key);
    SameElsewhere(now.states, b.states, key);
    TableUndone(b.Pool(), key, item, revision);
    assert key in b.Leases() ==> key in b.psks && key in b.states && b.states[key] != NoState;
    assert key !in b.Leases() ==> key !in b.psks && key !in b.states;
  }

  lemma TableUndone(t: Table, key: Key, item: Lease, revision: Revision)
    requires ValidLeases(t.leases) && Issued(t) && Allocated(t, key, item, revision)
    ensures var now := Table(t.leases[key := item], revision);
            if key in t.leases then now.Restore(t.leases[key]).0 == Table(t.leases, revision)
            else now.Remove(key) == Table(t.leases, revision)
  {
    if key in t.leases {
      assert t.leases[key := item][key := t.leases[key]] == t.leases;
    } else {
      assert t.leases[key := item] - {key} == t.leases;
    }
  }

  /** WireGuard follows: whatever the attempt did to the key's peer, undoing it brings back the old peers. */
  lemma PeersUndone(w: World, b: Books, key: Key, now: World)
    requires KeysAgree(b.Leases(), b.psks, b.states) && PeersMatch(w, b)
    requires now.networkUp && now.peers - {key} == w.peers - {key}
    ensures now.Undo(key, b.AttemptFor(key), true) == now.(peers := w.peers)
  {
    SameElsewhere(now.peers, w.peers, key);
    assert key in b.Leases() ==> w.peers[key] == Peer(b.Leases()[key].ip, b.psks[key]);
  }

  // ----- a granted attempt -----

  /** A granted attempt: the member has its lease and PSK and the attempt is pending. */
  ghost function GrantedBooks(b: Books, key: Key, item: Lease, revision: Revision, psk: Psk): Books {
    Books(Some(Table(b.Leases()[key := item], revision)), b.psks[key := psk], b.states[key := Pairing],
          b.pending[key := b.AttemptFor(key)], b.attempt + 1)
  }

  /** And WireGuard has the peer. */
  ghost function Granted(s: Room, key: Key, item: Lease, revision: Revision, psk: Psk): Room {
    s.(books := GrantedBooks(s.books, key, item, revision, psk),
       world := s.world.(peers := s.world.peers[key := Peer(item.ip, psk)]))
  }

  lemma GrantedConsistent(b: Books, key: Key, item: Lease, revision: Revision, psk: Psk)
    requires Consistent(b) && key !in b.pending && Allocated(b.Pool(), key, item, revision)
    ensures Consistent(GrantedBooks(b, key, item, revision, psk))
  {
    KeysAgreePut(b.Leases(), b.psks, b.states, item, psk, Pairing);
    GrantedIssued(b.Leases(), b.Pool().revision, item, revision);
    GrantedAttempts(b.pending, b.Leases(), b.psks, b.states, b.attempt, item, b.AttemptFor(key));
  }

  lemma GrantedAttempts(pending: map<Key, Pending>, leases: map<Key, Lease>, psks: map<Key, Psk>,
                        states: map<Key, MemberState>, attempt: nat, item: Lease, p: Pending)
    requires AttemptsSound(pending, leases, attempt) && KeysAgree(leases, psks, states)
    requires item.publicKey !in pending && (item.publicKey in leases ==> SameHolding(item, leases[item.publicKey]))
    requires p.token == attempt + 1 && p.previous == Lookup(leases, item.publicKey)
             && p.previousPsk == Lookup(psks, item.publicKey)
    requires p.state == if item.publicKey in states then states[item.publicKey] else NoState
    ensures AttemptsSound(pending[item.publicKey := p], leases[item.publicKey := item], attempt + 1)
  {
    AttemptsKept(pending, leases, attempt, pending, leases[item.publicKey := item], attempt);
    AttemptsAdded(pending, leases[item.publicKey := item], attempt, item.publicKey, p);
  }

  lemma GrantedIssued(leases: map<Key, Lease>, counter: Revision, item: Lease, revision: Revision)
    requires Issued(Table(leases, counter)) && counter <= revision
    requires if item.publicKey in leases then SameHolding(item, leases[item.publicKey])
             else item.revision == revision >= 1
    ensures Issued(Table(leases[item.publicKey := item], revision))
  {
  }
}
