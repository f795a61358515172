/** What assign answers and what it then holds, told from what its caller can see. */
module RoomAnswers {
  import opened Bytes
  import opened Lease
  import opened RoomState
  import opened Room
  import opened RoomInvariant
  import opened RoomSteps
  import opened RoomRuns
  import opened RoomRollback
  import Text

  // ----- assign -----

  /** WireGuard and the disk do what they are asked, and the revision counter has room. */
  ghost predicate Answered(s: Room, key: Key, env: AssignEnv) {
    && Savable(s) && env.apply && env.undo && Saves(env.save) && env.save.undoOk
    && (key !in s.books.Leases() ==> s.books.Pool().revision < REVISIONS - 1)
  }

  /** The checks of assign, in their order, say what they are for. */
  lemma CheckedInOrder(s: Room, key: Key, existingAuth: bool)
    requires Inv(s)
    ensures s.Refusal(key, existingAuth) ==
            if !s.running || (!s.settings.joinEnabled && key !in s.books.Leases()) then Some(JoinPaused)
            else if key in s.books.pending then Some(Busy)
            else if existingAuth && key !in s.books.Leases() then Some(MemberDisabled)
            else None
  {
  }

  lemma AllocatorAnswers(t: Table, key: Key, name: seq<Byte>)
    requires ValidLeases(t.leases)
    ensures t.Assign(key, name).1.Ok? <==> key != 0 && (key in t.leases || |t.leases| < CAPACITY)
    ensures t.Assign(key, name).1.Err? ==> t.Assign(key, name).1.error == if key == 0 then Invalid else Full
  {
    FullIffCapacity(t.leases);
  }

  /** A request that no check refuses and the allocator can serve is granted. */
  lemma ServedIsGranted(s: Room, key: Key, name: seq<Byte>, pairKey: nat, existingAuth: bool, env: AssignEnv)
    requires Inv(s) && Answered(s, key, env) && s.running && key !in s.books.pending
    requires s.Refusal(key, existingAuth).None? && s.books.Pool().Assign(key, name).1.Ok?
    requires existingAuth ==> key in s.books.Leases()
    ensures s.Assign(key, name, pairKey, existingAuth, env).1.Ok?
  {
    var (t, r) := s.books.Pool().Assign(key, name);
    var psk := s.AttemptPsk(key, pairKey, existingAuth);
    AllocationSucceeds(s.books.Pool(), key, name);
    GrantedConsistent(s.books, key, r.value.lease, t.revision, psk);
    SaveKeepsDisk(Granted(s, key, r.value.lease, t.revision, psk), env.save);
    AssignUnfolds(s, key, name, pairKey, existingAuth, env);
    CarryUnfolds(s, key, t, r.value, psk, existingAuth, env);
  }

  /**
    * Main result. When the calls it makes are answered, assign grants a request exactly when the room runs, it
    * takes new members or the key is one already, no attempt of the key is pending, who claims to be a member is
    * one, and the key is a key that has an address or can be given one. Otherwise nothing changes, and the
    * error says which of these failed first.
    */
  lemma AssignAnswers(s: Room, key: Key, name: seq<Byte>, pairKey: nat, existingAuth: bool, env: AssignEnv)
    requires Inv(s) && Answered(s, key, env)
    ensures var (after, reply) := s.Assign(key, name, pairKey, existingAuth, env);
            var member := key in s.books.Leases();
            && (reply.Ok? <==>
                  && s.running && (s.settings.joinEnabled || member) && key !in s.books.pending
                  && (existingAuth ==> member) && key != 0 && (member || |s.books.Leases()| < CAPACITY))
            && (reply.Err? ==> after == s)
            && (reply.Err? ==>
                  reply.error == if !s.running || !(s.settings.joinEnabled || member) then JoinPaused
                                 else if key in s.books.pending then Busy
                                 else if existingAuth && !member then MemberDisabled
                                 else if key == 0 then BadKey
                                 else RoomFull)
  {
    CheckedInOrder(s, key, existingAuth);
    AllocatorAnswers(s.books.Pool(), key, name);
    AssignUnfolds(s, key, name, pairKey, existingAuth, env);
    if s.Refusal(key, existingAuth).None? && s.books.Pool().Assign(key, name).1.Ok? {
      ServedIsGranted(s, key, name, pairKey, existingAuth, env);
    } else {
      RefusedAsIs(s, key, name, pairKey, existingAuth, env);
    }
  }

  lemma RefusedAsIs(s: Room, key: Key, name: seq<Byte>, pairKey: nat, existingAuth: bool, env: AssignEnv)
    ensures var refusal, r := s.Refusal(key, existingAuth), s.books.Pool().Assign(key, name).1;
            && (refusal.Some? ==> s.Assign(key, name, pairKey, existingAuth, env) == (s, Err(refusal.value)))
            && (refusal.None? && r.Err? ==>
                  s.Assign(key, name, pairKey, existingAuth, env)
                  == (s, Err(if r.error.Full? then RoomFull else BadKey)))
  {
  }

  /** The lease a key has after a grant: its own under the new name, or a new one at the least free address. */
  ghost predicate LeasedAs(before: Table, key: Key, name: seq<Byte>, item: Lease) {
    && item.publicKey == key && item.name == name && item.enabled
    && if key in before.leases then item.ip == before.leases[key].ip && item.revision == before.leases[key].revision
       else && MemberIP(item.ip) && item.revision == before.revision + 1
            && (forall k :: k in before.leases ==> before.leases[k].ip != item.ip)
            && (forall o: Byte :: 2 <= o < item.ip.b3 ==> Taken(before.leases, V4(10, 0, 23, o)))
  }

  ghost predicate Taken(leases: map<Key, Lease>, ip: Addr) {
    exists k :: k in leases && leases[k].ip == ip
  }

  lemma LeaseGranted(t: Table, key: Key, name: seq<Byte>)
    requires ValidLeases(t.leases) && Issued(t) && t.Assign(key, name).1.Ok?
    requires forall k :: k in t.leases ==> t.leases[k].enabled
    requires key !in t.leases ==> t.revision < REVISIONS - 1
    ensures LeasedAs(t, key, name, t.Assign(key, name).1.value.lease)
  {
    if key !in t.leases {
      FullIffCapacity(t.leases);
      AssignFresh(t, key, name);
      var item := t.Assign(key, name).1.value.lease;
      forall o: Byte | 2 <= o < item.ip.b3
        ensures Taken(t.leases, V4(10, 0, 23, o))
      {
        assert o in Octets(t.leases);
        var k :| k in t.leases && Octet(t.leases[k].ip) == o;
        assert t.leases[k].ip == V4(10, 0, 23, o);
      }
    }
  }

  /**
    * Main result. What a grant leaves: the lease, the PSK the member had if it proved that it knew it and the one
    * derived from the key the handler saw, the host's key and its own if not, the state, and a peer with just
    * that address and PSK; the reply says what the lease says; nothing else about anyone changes.
    */
  lemma GrantHolds(s: Room, key: Key, name: seq<Byte>, pairKey: nat, existingAuth: bool, env: AssignEnv)
    requires Inv(s) && Compensated(env.undo, env.save)
    requires s.Assign(key, name, pairKey, existingAuth, env).1.Ok?
    requires key !in s.books.Leases() ==> s.books.Pool().revision < REVISIONS - 1
    ensures var (after, reply) := s.Assign(key, name, pairKey, existingAuth, env);
            && key in after.books.Leases() && (existingAuth ==> key in s.books.psks)
            && var item := after.books.Leases()[key];
               var psk := if existingAuth then s.books.psks[key] else Psk(pairKey, s.settings.hostPublic, key);
               && LeasedAs(s.books.Pool(), key, name, item)
               && after.books.Leases() == s.books.Leases()[key := item]
               && after.books.psks == s.books.psks[key := psk] && after.books.states == s.books.states[key := Pairing]
               && after.world.peers == s.world.peers[key := Peer(item.ip, psk)]
               && key in after.books.pending && after.books.pending[key].token == reply.value.token
               && after.books.pending - {key} == s.books.pending - {key}
               && reply.value.ip == item.ip && reply.value.revision == item.revision
               && (reply.value.created <==> key !in s.books.Leases())
               && after.settings == s.settings && after.uids == s.uids && after.timers == s.timers
  {
    var (after, reply) := s.Assign(key, name, pairKey, existingAuth, env);
    var (t, r) := s.books.Pool().Assign(key, name);
    GrantedWasMember(s, key, name, pairKey, existingAuth, env);
    var psk := if existingAuth then s.books.psks[key] else Psk(pairKey, s.settings.hostPublic, key);
    AssignIsTransactional(s, key, name, pairKey, existingAuth, env);
    LeaseGranted(s.books.Pool(), key, name);
    GrantFields(s, key, r.value.lease, t.revision, psk, after);
  }

  lemma GrantFields(s: Room, key: Key, item: Lease, revision: Revision, psk: Psk, after: Room)
    requires item.publicKey == key && SavedOrNot(Granted(s, key, item, revision, psk), after, true)
    ensures after.books.Leases() == s.books.Leases()[key := item] && after.books.psks == s.books.psks[key := psk]
    ensures after.books.states == s.books.states[key := Pairing]
    ensures after.world.peers == s.world.peers[key := Peer(item.ip, psk)]
    ensures key in after.books.pending && after.books.pending[key].token == s.books.attempt + 1
    ensures after.books.pending - {key} == s.books.pending - {key}
    ensures after.settings == s.settings && after.uids == s.uids && after.timers == s.timers
  {
  }

  lemma GrantedWasMember(s: Room, key: Key, name: seq<Byte>, pairKey: nat, existingAuth: bool, env: AssignEnv)
    requires s.Assign(key, name, pairKey, existingAuth, env).1.Ok?
    ensures existingAuth ==> key in s.books.psks
  {
  }
}
