/** What stopping a fixed room and starting it again brings back, pairings in flight included. */
module RoomRestart {
  import opened Bytes
  import opened Lease
  import opened RoomState
  import opened Room
  import opened RoomInvariant
  import opened RoomSteps
  import opened RoomRuns

  // ----- starting a stopped room -----

  /** Every member's PSK is stored, so Start derives none. */
  lemma StoredPsks(s: Room, hostKey: Key)
    requires KeysAgree(s.books.Leases(), s.books.psks, s.books.states)
    requires ByKey(s.Record().members) == s.books.Leases()
    requires ValidItems(s.Record().members)
    ensures StartPsks(s.Record().members, s.Secret(), hostKey) == s.books.psks
  {
    var items := s.Record().members;
    forall k
      ensures k in StartPsks(items, s.Secret(), hostKey) <==> k in s.books.psks
      ensures k in s.books.psks ==> StartPsks(items, s.Secret(), hostKey)[k] == s.books.psks[k]
    {
      StartLoops(items, s.Secret(), hostKey, k);
    }
  }

  lemma PeersDetermined(p: map<Key, Peer>, q: map<Key, Peer>, leases: map<Key, Lease>, psks: map<Key, Psk>)
    requires PeersAre(p, leases, psks) && PeersAre(q, leases, psks)
    ensures p == q
  {
    assert forall k :: k in p ==> p[k] == q[k];
  }

  predicate AllWell(env: StartEnv) {
    env.ready && env.network && env.listen && env.refused == {} && env.save.secretOk
  }

  /** A stopped room whose files are current comes back as its memory says it is. */
  lemma StartRestores(t: Room, hostKey: Key, env: StartEnv)
    requires Inv(t) && DiskCurrent(t) && !t.running && t.settings.fixedRoom && t.books.table.Some? && AllWell(env)
    ensures var (after, ok) := t.NetworkDown().Start(hostKey, env);
            && ok && after.running && DiskCurrent(after)
            && after.books.Leases() == t.books.Leases() && after.books.psks == t.books.psks
            && after.settings == t.settings.(hostPublic := hostKey)
            && PeersAre(after.world.peers, t.books.Leases(), t.books.psks)
  {
    var down := t.NetworkDown();
    StopKeepsInv(t);
    StartSucceeds(down, hostKey, env);
    LoadedRestores(t, down, hostKey);
  }

  lemma LoadedRestores(t: Room, down: Room, hostKey: Key)
    requires Inv(t) && DiskCurrent(t) && t.settings.fixedRoom && t.books.table.Some? && down.world.disk == t.world.disk
    ensures var after := Loaded(down, t.Record(), t.Secret(), hostKey);
            && after.running && DiskCurrent(after)
            && after.books.Leases() == t.books.Leases() && after.books.psks == t.books.psks
            && after.settings == t.settings.(hostPublic := hostKey)
            && PeersAre(after.world.peers, t.books.Leases(), t.books.psks)
  {
    RecordMembers(t);
    LoadedKeepsInv(down, hostKey);
    StoredPsks(t, hostKey);
  }

  // ----- while the room closes -----

  /** What a key is left with once its attempt in flight, if it has one, has failed. */
  ghost function SettledLease(b: Books, k: Key): Option<Lease> {
    if k in b.pending && b.pending[k].previous.Some? then b.pending[k].previous else Lookup(b.Leases(), k)
  }

  ghost function SettledPsk(b: Books, k: Key): Option<Psk> {
    if k in b.pending && b.pending[k].previous.Some? then b.pending[k].previousPsk else Lookup(b.psks, k)
  }

  /** A key whose attempt is still pending has what it had; any other has what it is left with. */
  ghost predicate KeySettles(b: Books, after: Books, k: Key) {
    if k in after.pending then
      && k in b.pending && after.pending[k] == b.pending[k]
      && Lookup(after.Leases(), k) == Lookup(b.Leases(), k) && Lookup(after.psks, k) == Lookup(b.psks, k)
    else
      Lookup(after.Leases(), k) == SettledLease(b, k) && Lookup(after.psks, k) == SettledPsk(b, k)
  }

  ghost predicate Settles(b: Books, after: Books) {
    forall k :: KeySettles(b, after, k)
  }

  lemma SettlesOn(b: Books, mid: Books, after: Books)
    requires Settles(b, mid) && Settles(mid, after)
    ensures Settles(b, after)
  {
    forall k
      ensures KeySettles(b, after, k)
    {
      assert KeySettles(b, mid, k) && KeySettles(mid, after, k);
    }
  }

  /**
    * A step between the locked part of Stop and the end of the network, while the server closes its
    * connections. A handler reports of an attempt what assign told it; the room is neither created
    * nor started; nothing is asked of an expiry.
    */
  ghost predicate WhileClosing(s: Room, e: Event) {
    && !e.Create? && !e.Start?
    && (e.Expire? || (Allowed(s, e) && IgnoredSavesSucceed(e)))
    && (e.Fail? && s.IsPending(e.key, e.a.token) ==> (e.a.created <==> s.books.pending[e.key].previous.None?))
  }

  ghost predicate ClosingRun(s: Room, events: seq<Event>)
    decreases |events|
  {
    |events| > 0 ==> WhileClosing(s, events[0]) && ClosingRun(Step(s, events[0]), events[1..])
  }

  /** A fixed room that has been stopped and not cleared. */
  ghost predicate Stopped(s: Room) {
    Inv(s) && DiskCurrent(s) && !s.running && s.settings.fixedRoom && s.books.table.Some?
  }

  /** What a failure does to the books. */
  lemma FailedBooks(s: Room, key: Key, a: Assignment, undo: bool, save: SaveEnv)
    requires Consistent(s.books)
    ensures var after := s.Fail(key, a, undo, save);
            && after.running == s.running && after.settings == s.settings
            && after.books == if !s.IsPending(key, a.token) then s.books
                              else if a.created then s.books.(pending := s.books.pending - {key})
                              else Reverted(s.books, key, s.books.pending[key])
  {
    if s.IsPending(key, a.token) && !a.created {
      assert AttemptSound(s.books.pending[key], key, s.books.Leases(), s.books.attempt);
      UndoReverts(s.books, key, s.books.pending[key]);
    }
  }

  /** Either end of an attempt that failed settles its key as foreseen, and touches no other. */
  lemma EndSettles(b: Books, key: Key)
    requires key in b.pending && AttemptSound(b.pending[key], key, b.Leases(), b.attempt)
    ensures b.pending[key].previous.Some? ==> Settles(b, Reverted(b, key, b.pending[key]))
    ensures b.pending[key].previous.None? ==> Settles(b, b.(pending := b.pending - {key}))
  {
  }

  lemma FailSettles(s: Room, key: Key, a: Assignment, undo: bool, save: SaveEnv)
    requires Consistent(s.books) && !s.running && s.books.table.Some?
    requires s.IsPending(key, a.token) ==> (a.created <==> s.books.pending[key].previous.None?)
    ensures var after := s.Fail(key, a, undo, save);
            && !after.running && after.settings == s.settings && after.books.table.Some?
               && Settles(s.books, after.books)
            && after.books.pending == if s.IsPending(key, a.token) then s.books.pending - {key} else s.books.pending
  {
    FailedBooks(s, key, a, undo, save);
    if s.IsPending(key, a.token) {
      assert AttemptSound(s.books.pending[key], key, s.books.Leases(), s.books.attempt);
      EndSettles(s.books, key);
    }
  }

  /** No other step does anything to what a stopped room saves. */
  lemma QuietWhenStopped(s: Room, e: Event)
    requires !s.running && !e.Fail? && !e.Create? && !e.Start?
    ensures var after := Step(s, e);
            && !after.running && after.settings == s.settings && after.books.table == s.books.table
            && after.books.psks == s.books.psks && after.books.pending == s.books.pending
  {
  }

  lemma QuietSettles(b: Books, after: Books)
    requires after.table == b.table && after.psks == b.psks && after.pending == b.pending
    ensures Settles(b, after)
  {
  }

  /** In a stopped room only failures of attempts change anything that is saved. */
  lemma ClosingStep(s: Room, e: Event)
    requires Stopped(s) && WhileClosing(s, e)
    ensures Kept(s, Step(s, e))
  {
    if e.Fail? {
      FailSettles(s, e.key, e.a, e.undo, e.save);
    } else {
      QuietWhenStopped(s, e);
      QuietSettles(s.books, Step(s, e).books);
    }
    ClosingKeepsInv(s, e);
  }

  lemma ClosingKeepsInv(s: Room, e: Event)
    requires Stopped(s) && WhileClosing(s, e)
    ensures Inv(Step(s, e)) && DiskCurrent(Step(s, e))
  {
    if e.Expire? {
      MemoryStepKeepsInv(s, s.(timers := s.timers - {e.key}));
    } else {
      StepKeepsInv(s, e);
    }
  }

  /** Still stopped, with the same settings, and every key on its way to what it is left with. */
  ghost predicate Kept(s: Room, after: Room) {
    Stopped(after) && after.settings == s.settings && Settles(s.books, after.books)
  }

  lemma KeptOn(s: Room, mid: Room, after: Room)
    requires Kept(s, mid) && Kept(mid, after)
    ensures Kept(s, after)
  {
    SettlesOn(s.books, mid.books, after.books);
  }

  lemma {:induction false} ClosingKeeps(s: Room, events: seq<Event>)
    requires Stopped(s) && ClosingRun(s, events)
    ensures Kept(s, Run(s, events))
    decreases |events|
  {
    if |events| == 0 {
      QuietSettles(s.books, s.books);
    } else {
      var mid := Step(s, events[0]);
      ClosingStep(s, events[0]);
      ClosingKeeps(mid, events[1..]);
      KeptOn(s, mid, Run(mid, events[1..]));
    }
  }

  /** What the handler of an attempt reports. */
  function Failure(key: Key, p: Pending): Event {
    Fail(key, Assignment(NoAddr, 0, p.previous.None?, p.token), true, SaveEnv(true, true, true, true))
  }

  lemma FailureCloses(s: Room, key: Key)
    requires key in s.books.pending
    ensures WhileClosing(s, Failure(key, s.books.pending[key]))
  {
  }

  lemma HandlerFails(s: Room, key: Key)
    requires Stopped(s) && key in s.books.pending
    ensures var e := Failure(key, s.books.pending[key]);
            WhileClosing(s, e) && Stopped(Step(s, e)) && Step(s, e).books.pending == s.books.pending - {key}
  {
    var e := Failure(key, s.books.pending[key]);
    FailureCloses(s, key);
    ClosingStep(s, e);
    FailSettles(s, key, e.a, e.undo, e.save);
  }

  lemma ClosingMore(s: Room, e: Event, rest: seq<Event>)
    requires WhileClosing(s, e) && ClosingRun(Step(s, e), rest)
    ensures ClosingRun(s, [e] + rest) && Run(s, [e] + rest) == Run(Step(s, e), rest)
  {
    assert ([e] + rest)[1..] == rest;
  }

  /** There is always such a run that ends every attempt: every handler fails. */
  lemma {:induction false} HandlersFail(s: Room) returns (closing: seq<Event>)
    requires Stopped(s)
    ensures ClosingRun(s, closing) && Run(s, closing).books.pending == map[]
    decreases s.books.pending.Keys
  {
    if key :| key in s.books.pending {
      var e := Failure(key, s.books.pending[key]);
      HandlerFails(s, key);
      closing := HandlersFail(Step(s, e));
      ClosingMore(s, e, closing);
      closing := [e] + closing;
    } else {
      closing := [];
      assert s.books.pending == map[];
    }
  }

  /**
    * Main result. A fixed room is stopped, pairings in flight fail while the server closes, the network goes
    * down, and the room is started again. It comes back with its settings. A key whose pairing has failed has
    * the lease and the PSK from before that pairing; any other, one acknowledged too late for the room to
    * notice among them, has those it had at the Stop; and WireGuard has exactly the members.
    */
  lemma RestartRestores(s: Room, closing: seq<Event>, hostKey: Key, env: StartEnv)
    requires Inv(s) && DiskCurrent(s) && s.running && s.settings.fixedRoom && AllWell(env)
    requires ClosingRun(s.Stop(), closing)
    ensures var t := Run(s.Stop(), closing);
            var (after, ok) := t.NetworkDown().Start(hostKey, env);
            && ok && after.running && DiskCurrent(after)
            && after.settings == s.settings.(hostPublic := hostKey)
            && (forall k :: Lookup(after.books.Leases(), k)
                   == if k in t.books.pending then Lookup(s.books.Leases(), k) else SettledLease(s.books, k))
            && (forall k :: Lookup(after.books.psks, k)
                   == if k in t.books.pending then Lookup(s.books.psks, k) else SettledPsk(s.books, k))
            && PeersAre(after.world.peers, after.books.Leases(), after.books.psks)
  {
    var stopped := s.Stop();
    StopKeepsInv(s);
    ClosingKeeps(stopped, closing);
    var t := Run(stopped, closing);
    StartRestores(t, hostKey, env);
    KeysRestored(s.books, t.books);
  }

  lemma KeysRestored(b: Books, t: Books)
    requires Settles(b, t)
    ensures forall k :: Lookup(t.Leases(), k) == if k in t.pending then Lookup(b.Leases(), k) else SettledLease(b, k)
    ensures forall k :: Lookup(t.psks, k) == if k in t.pending then Lookup(b.psks, k) else SettledPsk(b, k)
  {
    forall k
      ensures Lookup(t.Leases(), k) == if k in t.pending then Lookup(b.Leases(), k) else SettledLease(b, k)
      ensures Lookup(t.psks, k) == if k in t.pending then Lookup(b.psks, k) else SettledPsk(b, k)
    {
      assert KeySettles(b, t, k);
    }
  }

  /** No attempt that has ended had changed the lease or the PSK of its member. */
  ghost predicate Unchanging(b: Books, still: map<Key, Pending>) {
    forall k :: k in b.pending && k !in still && b.pending[k].previous.Some? ==>
      Lookup(b.Leases(), k) == b.pending[k].previous && Lookup(b.psks, k) == b.pending[k].previousPsk
  }

  lemma SettledIff(b: Books, still: map<Key, Pending>, leases: map<Key, Lease>, psks: map<Key, Psk>)
    requires forall k :: Lookup(leases, k) == if k in still then Lookup(b.Leases(), k) else SettledLease(b, k)
    requires forall k :: Lookup(psks, k) == if k in still then Lookup(b.psks, k) else SettledPsk(b, k)
    ensures leases == b.Leases() && psks == b.psks <==> Unchanging(b, still)
  {
    if Unchanging(b, still) {
      assert forall k :: Lookup(leases, k) == Lookup(b.Leases(), k) && Lookup(psks, k) == Lookup(b.psks, k);
      SameLookups(leases, b.Leases());
      SameLookups(psks, b.psks);
    } else {
      var k :| k in b.pending && k !in still && b.pending[k].previous.Some?
               && !(Lookup(b.Leases(), k) == b.pending[k].previous && Lookup(b.psks, k) == b.pending[k].previousPsk);
      assert Lookup(leases, k) == SettledLease(b, k) && Lookup(psks, k) == SettledPsk(b, k);
    }
  }

  lemma SameLookups<K, V>(m: map<K, V>, n: map<K, V>)
    requires forall k :: Lookup(m, k) == Lookup(n, k)
    ensures m == n
  {
    forall k
      ensures (k in m <==> k in n) && (k in m ==> m[k] == n[k])
    {
      assert Lookup(m, k) == Lookup(n, k);
    }
  }

  /**
    * Main result. Leases and PSKs are what they were at the Stop if and only if no pairing that failed while
    * the server closed had changed a member's; then so are the peers.
    */
  lemma RestartUnchangedIff(s: Room, closing: seq<Event>, hostKey: Key, env: StartEnv)
    requires Inv(s) && DiskCurrent(s) && s.running && s.settings.fixedRoom && AllWell(env)
    requires ClosingRun(s.Stop(), closing)
    ensures var t := Run(s.Stop(), closing);
            var after := t.NetworkDown().Start(hostKey, env).0;
            && (after.books.Leases() == s.books.Leases() && after.books.psks == s.books.psks
               <==> Unchanging(s.books, t.books.pending))
            && (Unchanging(s.books, t.books.pending) ==> after.world.peers == s.world.peers)
  {
    RestartRestores(s, closing, hostKey, env);
    var t := Run(s.Stop(), closing);
    var after := t.NetworkDown().Start(hostKey, env).0;
    SettledIff(s.books, t.books.pending, after.books.Leases(), after.books.psks);
    if Unchanging(s.books, t.books.pending) {
      PeersDetermined(after.world.peers, s.world.peers, s.books.Leases(), s.books.psks);
    }
  }
}
