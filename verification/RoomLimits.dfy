/** Two runs the room permits: an expiry that hits a member pairing again, and one that hits another's lease. */
module RoomLimits {
  import opened Bytes
  import opened Lease
  import opened RoomState
  import opened Room
  import opened RoomInvariant
  import opened RoomSteps
  import opened RoomRuns
  import opened RoomRollback
  import Text

  const ALL_SAVED := SaveEnv(true, true, true, true)
  const NOT_SAVED := SaveEnv(false, false, false, true)

  function First(key: Key, name: seq<Byte>, pairKey: nat): Event {
    Pair(key, name, pairKey, false, AssignEnv(true, true, ALL_SAVED))
  }

  /** A room that takes a new member. */
  ghost predicate Open(s: Room, key: Key) {
    && Inv(s) && s.running && s.settings.joinEnabled && Savable(s)
    && key != 0 && key !in s.books.pending
    && (key !in s.books.Leases() ==> |s.books.Leases()| < CAPACITY && s.books.Pool().revision < REVISIONS - 1)
  }

  /** Such a room grants the pairing. */
  lemma PairSucceeds(s: Room, key: Key, name: seq<Byte>, pairKey: nat)
    requires Open(s, key)
    ensures var (after, reply) := s.Assign(key, name, pairKey, false, AssignEnv(true, true, ALL_SAVED));
            var (t, r) := s.books.Pool().Assign(key, name);
            && reply.Ok? && r.Ok? && Allocated(s.books.Pool(), key, r.value.lease, t.revision)
            && SavedOrNot(Granted(s, key, r.value.lease, t.revision, s.AttemptPsk(key, pairKey, false)), after, true)
            && reply.value == Assignment(r.value.lease.ip, r.value.lease.revision, key !in s.books.Leases(),
               s.books.attempt + 1)
  {
    var t, r := s.books.Pool().Assign(key, name).0, s.books.Pool().Assign(key, name).1;
    FullIffCapacity(s.books.Leases());
    AllocationSucceeds(s.books.Pool(), key, name);
    var psk := s.AttemptPsk(key, pairKey, false);
    var now := Granted(s, key, r.value.lease, t.revision, psk);
    GrantedConsistent(s.books, key, r.value.lease, t.revision, psk);
    SaveKeepsDisk(now, ALL_SAVED);
    AssignUnfolds(s, key, name, pairKey, false, AssignEnv(true, true, ALL_SAVED));
    CarryUnfolds(s, key, t, r.value, psk, false, AssignEnv(true, true, ALL_SAVED));
  }

  /** The books of a room that has granted a pairing. */
  ghost predicate Paired(b: Books, key: Key, after: Books) {
    && key in after.pending && after.pending[key].token == b.attempt + 1 && after.attempt == b.attempt + 1
    && after.StateOf(key) == Pairing && after.table.Some?
    && key in after.Leases() && after.Leases() == b.Leases()[key := after.Leases()[key]]
    && (key in b.Leases() ==>
          && after.Leases()[key].revision == b.Leases()[key].revision
          && after.Pool().revision == b.Pool().revision)
    && (key !in b.Leases() ==> after.Leases()[key].revision == after.Pool().revision == b.Pool().revision + 1)
  }

  lemma GrantedIsPaired(b: Books, key: Key, name: seq<Byte>, psk: Psk)
    requires ValidLeases(b.Leases()) && b.Pool().Assign(key, name).1.Ok?
    requires key !in b.Leases() ==> b.Pool().revision < REVISIONS - 1
    ensures var (t, r) := b.Pool().Assign(key, name);
            Paired(b, key, GrantedBooks(b, key, r.value.lease, t.revision, psk))
  {
  }

  /** Where a granted pairing leaves a room that takes members. */
  lemma PairedRoom(s: Room, key: Key, name: seq<Byte>, pairKey: nat)
    requires Open(s, key)
    ensures var after := Step(s, First(key, name, pairKey));
            && Inv(after) && after.running && after.settings == s.settings && after.armed == s.armed
               && Paired(s.books, key, after.books)
  {
    PairSucceeds(s, key, name, pairKey);
    GrantedIsPaired(s.books, key, name, s.AttemptPsk(key, pairKey, false));
    AssignKeepsInv(s, key, name, pairKey, false, AssignEnv(true, true, ALL_SAVED));
  }

  // ----- an expiry that hits a member pairing again -----

  /** A first pairing that fails, as its handler reports it. */
  ghost function FirstFails(s: Room, key: Key): Event
    requires key in s.books.Leases() && key in s.books.pending
  {
    var item := s.books.Leases()[key];
    Fail(key, Assignment(item.ip, item.revision, true, s.books.pending[key].token), true, ALL_SAVED)
  }

  /** It leaves the lease to its timer. */
  lemma Lapsed(s: Room, key: Key)
    requires Inv(s) && s.running && key in s.books.Leases() && key in s.books.pending
    ensures var after, item := Step(s, FirstFails(s, key)), s.books.Leases()[key];
            && Inv(after) && after.running && after.settings == s.settings
               && after.armed == s.armed + {(key, item.revision)}
            && after.books == s.books.(pending := s.books.pending - {key})
  {
    var item := s.books.Leases()[key];
    assert Step(s, FirstFails(s, key)) == s.Lapse(key, item.revision);
    LapseKeepsInv(s, key, item.revision);
  }

  /**
    * Main result. From any room that takes a new member: it pairs, fails, and pairs again before its timer
    * fires. Every step so far was an allowed one. The timer's callback then removes the member under its
    * pairing, and the invariant is lost.
    */
  lemma ExpiryHitsPairing(s: Room, key: Key, name: seq<Byte>, pairKey: nat)
    requires Open(s, key) && key !in s.books.Leases()
    ensures var s1 := Step(s, First(key, name, pairKey));
            && key in s1.books.Leases() && key in s1.books.pending
            && var s2, revision := Step(s1, FirstFails(s1, key)), s1.books.Leases()[key].revision;
               var s3 := Step(s2, First(key, name, pairKey));
               && AllowedRun(s, [First(key, name, pairKey), FirstFails(s1, key), First(key, name, pairKey)])
               && Inv(s3) && (key, revision) in s3.armed
               && var s4 := Step(s3, Expire(key, revision, true, ALL_SAVED));
                  !Inv(s4) && key !in s4.books.Leases() && key in s4.books.pending
  {
    PairedRoom(s, key, name, pairKey);
    var s1 := Step(s, First(key, name, pairKey));
    Lapsed(s1, key);
    var s2 := Step(s1, FirstFails(s1, key));
    PairedRoom(s2, key, name, pairKey);
    var s3, revision := Step(s2, First(key, name, pairKey)), s1.books.Leases()[key].revision;
    ThreeAllowed(s, First(key, name, pairKey), FirstFails(s1, key), First(key, name, pairKey));
    assert s3.Expirable(key, revision);
    ExpiryNeedsItsGuard(s3, key, revision, true, ALL_SAVED);
    Discarded(s3, key, revision);
  }

  lemma ThreeAllowed(s: Room, e1: Event, e2: Event, e3: Event)
    requires Allowed(s, e1) && Allowed(Step(s, e1), e2) && Allowed(Step(Step(s, e1), e2), e3)
    ensures AllowedRun(s, [e1, e2, e3])
  {
    assert [e1, e2, e3][1..] == [e2, e3] && [e2, e3][1..] == [e3] && [e3][1..] == [];
    assert AllowedRun(Step(Step(s, e1), e2), [e3]);
    assert AllowedRun(Step(s, e1), [e2, e3]);
  }

  lemma Discarded(s: Room, key: Key, revision: Revision)
    requires s.running && s.Expirable(key, revision)
    ensures Step(s, Expire(key, revision, true, ALL_SAVED)).books == s.books.Drop(key)
  {
  }

  // ----- an expiry that hits another lease of its key -----

  function TakeOut(key: Key): Event {
    Event.Remove(key, false, RemoveEnv(true, true, ALL_SAVED))
  }

  lemma RemovalIs(s: Room, key: Key)
    requires Inv(s) && s.running && Savable(s) && key in s.books.Leases()
    ensures s.RemoveMember(key, false, RemoveEnv(true, true, ALL_SAVED)).0
         == s.Forget(key, false).(world := s.world.RemovePeer(key, true).0).SaveIfFixed(ALL_SAVED).0
  {
    var now := s.Forget(key, false).(world := s.world.RemovePeer(key, true).0);
    RemoveUnfolds(s, key, false, RemoveEnv(true, true, ALL_SAVED));
    ForgetKeeps(s.world, s.books, key);
    SaveKeepsDisk(now, ALL_SAVED);
  }

  lemma TakenOut(s: Room, key: Key)
    requires Inv(s) && s.running && Savable(s) && key in s.books.Leases()
    ensures var after := s.RemoveMember(key, false, RemoveEnv(true, true, ALL_SAVED)).0;
            && Inv(after) && SameRoom(s, after) && after.books == s.books.Drop(key).(pending := s.books.pending - {key})
  {
    RemoveKeepsInv(s, key, false, RemoveEnv(true, true, ALL_SAVED));
    RemovalIs(s, key);
    SavedSame(s.Forget(key, false).(world := s.world.RemovePeer(key, true).0));
  }

  /** What none of these steps changes. */
  predicate SameRoom(s: Room, after: Room) {
    after.running == s.running && after.settings == s.settings && after.armed == s.armed
  }

  lemma SavedSame(s: Room)
    ensures var after := s.SaveIfFixed(ALL_SAVED).0;
            SameRoom(s, after) && after.books == s.books
  {
  }

  lemma KeepFails(s: Room, t: Table)
    requires s.settings.fixedRoom
    ensures s.Keep(t, NOT_SAVED).0 == s.(books := s.books.(table := Some(Rebuilt(s.books.Leases()))))
  {
  }

  /** A rename whose save fails. */
  lemma RenameFails(s: Room, other: Key, name: seq<Byte>)
    requires Inv(s) && s.running && s.settings.fixedRoom && other in s.books.Leases() && Text.ValidName(name)
    ensures s.RenameMember(other, name, NOT_SAVED).0 == s.(books := s.books.(table := Some(Rebuilt(s.books.Leases()))))
  {
    var t := s.books.Pool().Assign(other, name).0;
    RenamedConsistent(s.books, other, name);
    KeepFails(s, t);
    assert s.RenameMember(other, name, NOT_SAVED) == s.Keep(t, NOT_SAVED);
  }

  function Confirmed(key: Key, item: Lease, token: nat): Assignment {
    Assignment(item.ip, item.revision, true, token)
  }

  lemma Acknowledged(s: Room, key: Key, item: Lease, token: nat)
    requires Inv(s) && s.running && s.IsPending(key, token)
    ensures var after := s.Acknowledge(key, Confirmed(key, item, token));
            && Inv(after) && SameRoom(s, after)
            && after.books == s.books.(pending := s.books.pending - {key}, states := s.books.states[key := Configured])
  {
    AcknowledgeKeepsInv(s, key, Confirmed(key, item, token));
    AcknowledgedIs(s, key, Confirmed(key, item, token));
  }

  lemma AcknowledgedIs(s: Room, key: Key, a: Assignment)
    requires s.running && PeersMatch(s.world, s.books) && s.IsPending(key, a.token)
    ensures var after := s.Acknowledge(key, a);
            SameRoom(s, after) && after.books
              == s.books.(pending := s.books.pending - {key}, states := s.books.states[key := Configured])
  {
  }

  /** A member whose handshake is seen. */
  lemma ComesOnline(s: Room, key: Key)
    requires Inv(s) && key in s.books.Leases()
    ensures var after := s.UpdateStats(map[key := true]);
            && Inv(after) && SameRoom(s, after)
            && after.books == s.books.(states := after.books.states) && after.books.StateOf(key) == Online
  {
    UpdateStatsKeepsInv(s, map[key := true]);
    ReportedPointwise(SnapshotOf(s.books.Leases()), s.books.states, map[key := true], key);
    SnapshotHas(s.books.Leases(), key);
  }

  lemma SnapshotHas(leases: map<Key, Lease>, key: Key)
    requires ValidLeases(leases) && key in leases
    ensures exists x :: x in SnapshotOf(leases) && x.publicKey == key
  {
    assert IsSnapshot(SnapshotOf(leases), leases);
    assert leases[key] in SnapshotOf(leases);
  }

  /** A fixed room that takes the new member `key`, whose last new member `other` is still in it. */
  ghost predicate Exposed(s: Room, key: Key, other: Key) {
    && Open(s, key) && key !in s.books.Leases() && s.settings.fixedRoom
    && other in s.books.Leases() && s.books.Leases()[other].revision == s.books.Pool().revision
  }

  lemma CounterIsGreatest(t: Table, other: Key)
    requires ValidLeases(t.leases) && Issued(t) && other in t.leases && t.leases[other].revision == t.revision
    ensures Rebuilt(t.leases).revision == t.revision
  {
    RebuiltIssued(t);
    MaxRevisionIsGreatest(SnapshotOf(t.leases));
    assert t.leases[other] in SnapshotOf(t.leases);
  }

  lemma {:induction false} Then(s: Room, events: seq<Event>, e: Event)
    requires AllowedRun(s, events) && Allowed(Run(s, events), e)
    ensures AllowedRun(s, events + [e]) && Run(s, events + [e]) == Step(Run(s, events), e)
    decreases |events|
  {
    var more := events + [e];
    if |events| == 0 {
      assert more == [e] && [e][1..] == [];
    } else {
      assert more[1..] == events[1..] + [e];
      Then(Step(s, events[0]), events[1..], e);
    }
  }

  /** An allowed run of the room that ends in `after`. */
  ghost predicate Reaches(s: Room, events: seq<Event>, after: Room) {
    AllowedRun(s, events) && Run(s, events) == after
  }

  lemma TakeOutStep(s: Room, events: seq<Event>, now: Room, key: Key)
    requires Reaches(s, events, now)
    ensures Reaches(s, events + [TakeOut(key)], now.RemoveMember(key, false, RemoveEnv(true, true, ALL_SAVED)).0)
  {
    Then(s, events, TakeOut(key));
  }

  lemma RenameStep(s: Room, events: seq<Event>, now: Room, other: Key, name: seq<Byte>)
    requires Reaches(s, events, now)
    ensures Reaches(s, events + [Rename(other, name, NOT_SAVED)], now.RenameMember(other, name, NOT_SAVED).0)
  {
    Then(s, events, Rename(other, name, NOT_SAVED));
  }

  lemma AcknowledgeStep(s: Room, events: seq<Event>, now: Room, key: Key, a: Assignment)
    requires Reaches(s, events, now)
    ensures Reaches(s, events + [Event.Acknowledge(key, a)], now.Acknowledge(key, a))
  {
    Then(s, events, Event.Acknowledge(key, a));
  }

  lemma SeenStep(s: Room, events: seq<Event>, now: Room, key: Key)
    requires Reaches(s, events, now)
    ensures Reaches(s, events + [UpdateStats(map[key := true])], now.UpdateStats(map[key := true]))
  {
    Then(s, events, UpdateStats(map[key := true]));
  }

  lemma PairStep(s: Room, events: seq<Event>, now: Room, key: Key, name: seq<Byte>, pairKey: nat)
    requires Reaches(s, events, now) && Open(now, key)
    ensures Reaches(s, events + [First(key, name, pairKey)], Step(now, First(key, name, pairKey)))
  {
    Then(s, events, First(key, name, pairKey));
  }

  lemma FailStep(s: Room, events: seq<Event>, now: Room, key: Key)
    requires Reaches(s, events, now) && key in now.books.Leases() && key in now.books.pending
    ensures Reaches(s, events + [FirstFails(now, key)], Step(now, FirstFails(now, key)))
  {
    Then(s, events, FirstFails(now, key));
  }

  /** The member pairs, fails, and is taken out; its timer has been armed. */
  lemma InAndOut(s: Room, key: Key, name: seq<Byte>, pairKey: nat)
    returns (events: seq<Event>, after: Room, revision: Revision)
    requires Open(s, key) && key !in s.books.Leases()
    ensures Reaches(s, events, after) && Inv(after) && after.running && after.settings == s.settings
    ensures revision == s.books.Pool().revision + 1 && (key, revision) in after.armed
    ensures after.books.Leases() == s.books.Leases() && key !in after.books.pending
  {
    PairedRoom(s, key, name, pairKey);
    PairStep(s, [], s, key, name, pairKey);
    var s1 := Step(s, First(key, name, pairKey));
    revision := s1.books.Leases()[key].revision;
    Lapsed(s1, key);
    FailStep(s, [] + [First(key, name, pairKey)], s1, key);
    var s2 := Step(s1, FirstFails(s1, key));
    TakenOut(s2, key);
    TakeOutStep(s, [] + [First(key, name, pairKey)] + [FirstFails(s1, key)], s2, key);
    events := [] + [First(key, name, pairKey)] + [FirstFails(s1, key)] + [TakeOut(key)];
    after := s2.RemoveMember(key, false, RemoveEnv(true, true, ALL_SAVED)).0;
    LeaseGone(s.books.Leases(), s1.books.Leases(), key);
  }

  lemma LeaseGone(leases: map<Key, Lease>, more: map<Key, Lease>, key: Key)
    requires key !in leases && key in more && more == leases[key := more[key]]
    ensures more - {key} == leases
  {
  }

  /** The pairing is acknowledged. */
  lemma Confirms(s: Room, before: seq<Event>, now: Room, key: Key) returns (events: seq<Event>, after: Room)
    requires Reaches(s, before, now) && Inv(now) && now.running && key in now.books.Leases() && key in now.books.pending
    ensures Reaches(s, events, after) && Inv(after) && SameRoom(now, after)
    ensures key !in after.books.pending && after.books.table == now.books.table
  {
    var item, token := now.books.Leases()[key], now.books.pending[key].token;
    Acknowledged(now, key, item, token);
    AcknowledgeStep(s, before, now, key, Confirmed(key, item, token));
    events, after := before + [Event.Acknowledge(key, Confirmed(key, item, token))],
      now.Acknowledge(key, Confirmed(key, item, token));
  }

  lemma Sees(s: Room, before: seq<Event>, now: Room, key: Key) returns (events: seq<Event>, after: Room)
    requires Reaches(s, before, now) && Inv(now) && key in now.books.Leases()
    ensures Reaches(s, events, after) && Inv(after) && SameRoom(now, after)
    ensures after.books.pending == now.books.pending && after.books.StateOf(key) == Online
            && after.books.table == now.books.table
  {
    ComesOnline(now, key);
    SeenStep(s, before, now, key);
    events, after := before + [UpdateStats(map[key := true])], now.UpdateStats(map[key := true]);
  }

  /** The pairing is acknowledged, and the member is seen online. */
  lemma Settles(s: Room, before: seq<Event>, now: Room, key: Key) returns (events: seq<Event>, after: Room)
    requires Reaches(s, before, now) && Inv(now) && now.running && key in now.books.Leases() && key in now.books.pending
    ensures Reaches(s, events, after) && Inv(after) && SameRoom(now, after)
    ensures key !in after.books.pending && after.books.StateOf(key) == Online && after.books.table == now.books.table
  {
    var confirmed;
    events, confirmed := Confirms(s, before, now, key);
    events, after := Sees(s, events, confirmed, key);
  }

  /** The member pairs anew, acknowledges, and is seen online. */
  lemma ComesBack(s: Room, before: seq<Event>, now: Room, key: Key, name: seq<Byte>, pairKey: nat)
    returns (events: seq<Event>, after: Room)
    requires Reaches(s, before, now) && Open(now, key) && key !in now.books.Leases()
    ensures Reaches(s, events, after) && Inv(after) && after.running && after.armed == now.armed
    ensures key !in after.books.pending && after.books.StateOf(key) == Online
    ensures key in after.books.Leases() && after.books.Leases()[key].revision == now.books.Pool().revision + 1
  {
    PairedRoom(now, key, name, pairKey);
    PairStep(s, before, now, key, name, pairKey);
    events, after := Settles(s, before + [First(key, name, pairKey)], Step(now, First(key, name, pairKey)), key);
  }

  /** Once `key` is out, its counter one ahead of `other`, whose revision is the greatest leased. */
  ghost predicate Ahead(now: Room, key: Key, other: Key, counter: Revision) {
    && Inv(now) && now.running && now.settings.joinEnabled && Savable(now)
    && key != 0 && key !in now.books.Leases() && key !in now.books.pending && |now.books.Leases()| < CAPACITY
    && other in now.books.Leases() && now.books.Leases()[other].revision == counter < REVISIONS - 1
    && Issued(Table(now.books.Leases(), counter))
  }

  /** The rename cannot be saved, and the counter starts again at the greatest revision leased. */
  lemma Rebuilds(s: Room, before: seq<Event>, now: Room, key: Key, other: Key, name: seq<Byte>, counter: Revision)
    returns (events: seq<Event>, after: Room)
    requires Ahead(now, key, other, counter) && Text.ValidName(name) && Reaches(s, before, now)
    ensures Reaches(s, events, after)
    ensures now.settings.fixedRoom ==>
              Open(after, key) && key !in after.books.Leases() && after.armed == now.armed
                && after.books.Pool().revision == counter
  {
    RenameStep(s, before, now, other, name);
    events, after := before + [Rename(other, name, NOT_SAVED)], now.RenameMember(other, name, NOT_SAVED).0;
    if now.settings.fixedRoom {
      RenameFails(now, other, name);
      RenameKeepsInv(now, other, name, NOT_SAVED);
      CounterIsGreatest(Table(now.books.Leases(), counter), other);
    }
  }

  lemma Expires(s: Room, events: seq<Event>, now: Room, key: Key, revision: Revision)
    requires Reaches(s, events, now) && now.running && now.Expirable(key, revision)
    requires (key, revision) in now.armed && key !in now.books.pending
    ensures Reaches(s, events + [Expire(key, revision, true, ALL_SAVED)],
            Step(now, Expire(key, revision, true, ALL_SAVED)))
    ensures key !in Step(now, Expire(key, revision, true, ALL_SAVED)).books.Leases()
  {
    Then(s, events, Expire(key, revision, true, ALL_SAVED));
    Discarded(now, key, revision);
  }

  /**
    * Main result. Stale expiries are harmless only within one allocator's life: a member pairs, fails and is
    * removed; a rename that cannot be saved rebuilds the allocator; the member pairs again, acknowledges and
    * is online, with the revision its old timer was armed for. If that timer was stopped too late, its
    * callback, an allowed step like all before it, removes the member.
    */
  lemma StaleExpiryHitsMember(s: Room, key: Key, other: Key, name: seq<Byte>, pairKey: nat)
    returns (events: seq<Event>, online: Room, revision: Revision)
    requires Exposed(s, key, other) && Text.ValidName(name)
    ensures Reaches(s, events, online) && online.running && key !in online.books.pending
    ensures key in online.books.Leases() && online.books.StateOf(key) == Online
    ensures Reaches(s, events + [Expire(key, revision, true, ALL_SAVED)],
            Step(online, Expire(key, revision, true, ALL_SAVED)))
    ensures key !in Step(online, Expire(key, revision, true, ALL_SAVED)).books.Leases()
  {
    var before, out;
    before, out, revision := InAndOut(s, key, name, pairKey);
    assert Ahead(out, key, other, s.books.Pool().revision);
    before, out := Rebuilds(s, before, out, key, other, name, s.books.Pool().revision);
    events, online := ComesBack(s, before, out, key, name, pairKey);
    Expires(s, events, online, key, revision);
  }
}
