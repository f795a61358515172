/** What callbacks from the past can and cannot do to the room. */
module RoomHistory {
  import opened Bytes
  import opened Lease
  import opened RoomState
  import opened Room
  import opened RoomInvariant
  import opened RoomSteps
  import opened RoomRuns
  import Text

  // ----- what one step may introduce -----

  /** A lease of `key`, present or remembered by a pending attempt, was created with `revision`. */
  ghost predicate HasRevision(b: Books, key: Key, revision: Revision) {
    || (key in b.Leases() && b.Leases()[key].revision == revision)
    || (key in b.pending && b.pending[key].previous.Some? && b.pending[key].previous.value.revision == revision)
  }

  predicate HasToken(b: Books, key: Key, token: nat) {
    key in b.pending && b.pending[key].token == token
  }

  /** Leases and remembered leases are filed under their own key. */
  ghost predicate Keyed(b: Books) {
    && (forall k :: k in b.Leases() ==> b.Leases()[k].publicKey == k)
    && (forall k :: k in b.pending && b.pending[k].previous.Some? ==> b.pending[k].previous.value.publicKey == k)
  }

  /** Tokens are only ever new ones. */
  ghost predicate TokensFrom(b: Books, after: Books) {
    && b.attempt <= after.attempt
    && forall k: Key, token: nat :: HasToken(after, k, token) ==> HasToken(b, k, token) || token > b.attempt
  }

  /** Revisions are only ever new ones. */
  ghost predicate RevisionsFrom(b: Books, after: Books) {
    && Keyed(after)
    && b.Pool().revision <= after.Pool().revision
    && forall k: Key, r: Revision :: HasRevision(after, k, r) ==> HasRevision(b, k, r) || r > b.Pool().revision
  }

  lemma BeginIntroduces(b: Books, key: Key, name: seq<Byte>, psk: Psk)
    requires b.Pool().Assign(key, name).1.Ok?
    ensures TokensFrom(b, b.Begin(key, psk, b.Pool().Assign(key, name).0))
    ensures Keyed(b) && (key !in b.Leases() ==> b.Pool().revision < REVISIONS - 1)
            ==> RevisionsFrom(b, b.Begin(key, psk, b.Pool().Assign(key, name).0))
  {
  }

  lemma UndoIntroduces(b: Books, key: Key, p: Pending)
    requires key in b.pending && b.pending[key] == p
    ensures TokensFrom(b, b.Undo(key, p))
    ensures Keyed(b) ==> RevisionsFrom(b, b.Undo(key, p))
  {
    var after := b.Undo(key, p);
    forall k | k in after.Leases()
      ensures || (k in b.Leases() && after.Leases()[k] == b.Leases()[k])
              || (p.previous.Some? && after.Leases()[k] == p.previous.value && k == p.previous.value.publicKey)
    {
    }
  }

  lemma DropIntroduces(b: Books, key: Key)
    ensures TokensFrom(b, b.Drop(key)) && (Keyed(b) ==> RevisionsFrom(b, b.Drop(key)))
    ensures var after := b.Drop(key).(pending := b.pending - {key});
            TokensFrom(b, after) && (Keyed(b) ==> RevisionsFrom(b, after))
  {
    assert forall k :: k in b.Drop(key).Leases() ==> k in b.Leases() && b.Drop(key).Leases()[k] == b.Leases()[k];
  }

  lemma UndropIntroduces(b: Books, key: Key)
    requires key in b.Leases()
    ensures var after := b.Drop(key).(pending := b.pending - {key}).Undrop(key, b);
            TokensFrom(b, after) && (Keyed(b) ==> RevisionsFrom(b, after))
  {
  }

  lemma Introduces(b: Books, mid: Books, after: Books)
    requires TokensFrom(b, mid) && TokensFrom(mid, after)
    ensures TokensFrom(b, after)
    ensures RevisionsFrom(b, mid) && RevisionsFrom(mid, after) ==> RevisionsFrom(b, after)
  {
    forall k: Key, token: nat | HasToken(after, k, token)
      ensures HasToken(b, k, token) || token > b.attempt
    {
      assert HasToken(mid, k, token) || token > mid.attempt;
    }
    if RevisionsFrom(b, mid) && RevisionsFrom(mid, after) {
      forall k: Key, r: Revision | HasRevision(after, k, r)
        ensures HasRevision(b, k, r) || r > b.Pool().revision
      {
        assert HasRevision(mid, k, r) || r > mid.Pool().revision;
      }
    }
  }

  /** The books assign leaves: untouched, begun, or begun and undone; states are beside the point here. */
  lemma AssignBooks(s: Room, key: Key, name: seq<Byte>, pairKey: nat, existingAuth: bool, env: AssignEnv)
    ensures var after := s.Assign(key, name, pairKey, existingAuth, env).0.books;
            var (t, r) := s.books.Pool().Assign(key, name);
            var begun := s.books.Begin(key, s.AttemptPsk(key, pairKey, existingAuth), t);
            || after == s.books
            || (r.Ok? && after == begun.(states := after.states))
            || (r.Ok? && after == begun.Undo(key, s.books.AttemptFor(key)).(states := after.states))
  {
    AssignUnfolds(s, key, name, pairKey, existingAuth, env);
    var (t, r) := s.books.Pool().Assign(key, name);
    if s.Refusal(key, existingAuth).None? && r.Ok? {
      CarryBooks(s, key, t, r.value, s.AttemptPsk(key, pairKey, existingAuth), existingAuth, env);
    }
  }

  lemma CarryBooks(s: Room, key: Key, t: Table, r: Assigned, psk: Psk, existingAuth: bool, env: AssignEnv)
    ensures var after, begun := s.Carry(key, t, r, psk, existingAuth, env).0.books, s.books.Begin(key, psk, t);
            || after == begun.(states := after.states)
            || after == begun.Undo(key, s.books.AttemptFor(key)).(states := after.states)
  {
    var begun, p := s.books.Begin(key, psk, t), s.books.AttemptFor(key);
    var pairing := begun.(states := begun.states[key := Pairing]);
    UndoStates(begun, pairing.states, key, p);
    assert s.Carry(key, t, r, psk, existingAuth, env).0.books in {begun.Undo(key, p), pairing.Undo(key, p), pairing};
  }

  lemma UndoStates(b: Books, states: map<Key, MemberState>, key: Key, p: Pending)
    ensures var after := b.(states := states).Undo(key, p);
            after == b.Undo(key, p).(states := after.states)
  {
  }

  lemma AssignIntroduces(s: Room, key: Key, name: seq<Byte>, pairKey: nat, existingAuth: bool, env: AssignEnv)
    ensures var after := s.Assign(key, name, pairKey, existingAuth, env).0.books;
            && TokensFrom(s.books, after)
            && (Keyed(s.books) && (key !in s.books.Leases() ==> s.books.Pool().revision < REVISIONS - 1)
               ==> RevisionsFrom(s.books, after))
  {
    AssignBooks(s, key, name, pairKey, existingAuth, env);
    var b, t := s.books, s.books.Pool().Assign(key, name).0;
    if b.Pool().Assign(key, name).1.Ok? {
      var begun := b.Begin(key, s.AttemptPsk(key, pairKey, existingAuth), t);
      BeginIntroduces(b, key, name, s.AttemptPsk(key, pairKey, existingAuth));
      UndoIntroduces(begun, key, b.AttemptFor(key));
      Introduces(b, begun, begun.Undo(key, b.AttemptFor(key)));
      var undone := begun.Undo(key, b.AttemptFor(key));
      var after := s.Assign(key, name, pairKey, existingAuth, env).0.books;
      if after != b && after == begun.(states := after.states) {
        SameIntroduction(b, begun, after);
      } else if after != b {
        SameIntroduction(b, undone, after);
      }
    }
  }

  /** States and PSKs play no part. */
  lemma SameIntroduction(b: Books, a1: Books, a2: Books)
    requires TokensFrom(b, a1) && a2.table == a1.table && a2.pending == a1.pending && a2.attempt == a1.attempt
    ensures TokensFrom(b, a2)
    ensures RevisionsFrom(b, a1) ==> RevisionsFrom(b, a2)
  {
    assert forall k: Key, token: nat :: HasToken(a2, k, token) ==> HasToken(a1, k, token);
    assert forall k: Key, r: Revision :: HasRevision(a2, k, r) ==> HasRevision(a1, k, r);
    assert a2.Leases() == a1.Leases();
  }

  lemma NothingIntroduced(b: Books)
    ensures TokensFrom(b, b) && (Keyed(b) ==> RevisionsFrom(b, b))
  {
  }

  /** The revision counter is no further than the greatest revision leased. */
  ghost predicate CounterAtTop(b: Books) {
    MaxRevision(SnapshotOf(b.Leases())) == b.Pool().revision
  }

  /** A rename that comes as far as its save, and the save fails. */
  ghost predicate Unsaved(s: Room, key: Key, name: seq<Byte>, save: SaveEnv) {
    var (t, r) := s.books.Pool().Assign(key, name);
    && Text.ValidName(name) && s.running && key in s.books.Leases() && r.Ok?
    && !s.(books := s.books.(table := Some(t))).SaveIfFixed(save).1
  }

  /** The step stays within one allocator's life, and the revision counter has room. */
  ghost predicate SameLife(s: Room, e: Event) {
    match e
    case Pair(key, _, _, _, _) => key !in s.books.Leases() ==> s.books.Pool().revision < REVISIONS - 1
    case Rename(key, name, save) => CounterAtTop(s.books) || !Unsaved(s, key, name, save)
    case Stop => s.settings.fixedRoom
    case Create(_, _) => false
    case Start(_, _) => false
    case _ => true
  }

  lemma FailBooks(s: Room, key: Key, a: Assignment, undo: bool, save: SaveEnv)
    ensures var after := s.Fail(key, a, undo, save).books;
            || after == s.books
            || (key in s.books.pending && after == s.books.Undo(key, s.books.pending[key]))
            || after == s.books.(pending := s.books.pending - {key})
  {
  }

  lemma RemoveBooks(s: Room, key: Key, block: bool, env: RemoveEnv)
    ensures var (room, ok) := s.RemoveMember(key, block, env);
            var after, forgotten := room.books, s.books.Drop(key).(pending := s.books.pending - {key});
            || (!ok && after == s.books)
            || (ok && after == forgotten)
            || (!ok && key in s.books.Leases() && after == forgotten.Undrop(key, s.books))
  {
  }

  lemma RenameBooks(s: Room, key: Key, name: seq<Byte>, env: SaveEnv)
    ensures var after := s.RenameMember(key, name, env).0;
            var (t, r) := s.books.Pool().Assign(key, name);
            if Unsaved(s, key, name, env) then after.books == s.books.(table := Some(Rebuilt(s.books.Leases())))
            else after == s || (key in s.books.Leases() && r.Ok? && after.books == s.books.(table := Some(t)))
  {
  }

  /** A rebuilt allocator gives out only new revisions if its counter was at the top. */
  lemma RebuildIntroduces(b: Books)
    ensures var after := b.(table := Some(Rebuilt(b.Leases())));
            TokensFrom(b, after) && (Keyed(b) && CounterAtTop(b) ==> RevisionsFrom(b, after))
  {
    assert b.(table := Some(Rebuilt(b.Leases()))).Leases() == b.Leases();
  }

  lemma EndingIntroduces(b: Books, key: Key)
    ensures TokensFrom(b, b.(pending := b.pending - {key}))
    ensures Keyed(b) ==> RevisionsFrom(b, b.(pending := b.pending - {key}))
  {
    assert b.(pending := b.pending - {key}).Leases() == b.Leases();
  }

  lemma RenameIntroduces(b: Books, key: Key, name: seq<Byte>)
    requires key in b.Leases() && b.Pool().Assign(key, name).1.Ok?
    ensures var after := b.(table := Some(b.Pool().Assign(key, name).0));
            TokensFrom(b, after) && (Keyed(b) ==> RevisionsFrom(b, after))
  {
  }

  lemma PairingStepIntroduces(s: Room, e: Event)
    requires e.Pair? || e.Acknowledge? || e.Fail? || e.Expire?
    ensures TokensFrom(s.books, Step(s, e).books)
    ensures Keyed(s.books) && SameLife(s, e) ==> RevisionsFrom(s.books, Step(s, e).books)
  {
    var b := s.books;
    NothingIntroduced(b);
    match e
    case Pair(key, name, pairKey, existingAuth, env) => AssignIntroduces(s, key, name, pairKey, existingAuth, env);
    case Acknowledge(key, a) =>
      EndingIntroduces(b, key);
      var ended := b.(pending := b.pending - {key});
      SameIntroduction(b, ended, ended.(states := b.states[key := Configured]));
    case Fail(key, a, undo, save) =>
      FailBooks(s, key, a, undo, save);
      EndingIntroduces(b, key);
      if key in b.pending {
        UndoIntroduces(b, key, b.pending[key]);
      }
    case Expire(key, revision, remove, save) => DropIntroduces(b, key);
  }

  lemma MemberStepIntroduces(s: Room, e: Event)
    requires e.Remove? || e.Rename? || e.UpdateStats?
    ensures TokensFrom(s.books, Step(s, e).books)
    ensures Keyed(s.books) && SameLife(s, e) ==> RevisionsFrom(s.books, Step(s, e).books)
  {
    var b := s.books;
    NothingIntroduced(b);
    match e
    case Remove(key, block, removal) =>
      RemoveBooks(s, key, block, removal);
      DropIntroduces(b, key);
      if key in b.Leases() {
        UndropIntroduces(b, key);
      }
    case Rename(key, name, save) =>
      RenameBooks(s, key, name, save);
      RebuildIntroduces(b);
      if key in b.Leases() && b.Pool().Assign(key, name).1.Ok? {
        RenameIntroduces(b, key, name);
      }
    case UpdateStats(seen) => SameIntroduction(b, b, s.UpdateStats(seen).books);
  }

  predicate SameOrFresh(b: Books, after: Books) {
    after == b || (after.pending == map[] && after.attempt == b.attempt)
  }

  lemma CreateBooks(s: Room, o: CreateOptions, env: StartEnv)
    ensures SameOrFresh(s.books, s.Create(o, env).0.books)
  {
  }

  lemma StartBooks(s: Room, hostKey: Key, env: StartEnv)
    ensures SameOrFresh(s.books, s.Start(hostKey, env).0.books)
  {
  }

  /** Settings and lifecycle steps keep the books, or start new ones with no attempts. */
  lemma OtherStepBooks(s: Room, e: Event)
    requires e.Rotate? || e.SetJoin? || e.Unblock? || e.ReportStats? || e.Stop? || e.NetworkDown? || e.Create?
             || e.Start?
    ensures SameOrFresh(s.books, Step(s, e).books)
    ensures SameLife(s, e) ==> Step(s, e).books == s.books
  {
    match e
    case Create(options, start) => CreateBooks(s, options, start);
    case Start(hostKey, start) => StartBooks(s, hostKey, start);
    case _ =>
  }

  lemma StepIntroduces(s: Room, e: Event)
    ensures TokensFrom(s.books, Step(s, e).books)
    ensures Keyed(s.books) && SameLife(s, e) ==> RevisionsFrom(s.books, Step(s, e).books)
  {
    if e.Remove? || e.Rename? || e.UpdateStats? {
      MemberStepIntroduces(s, e);
    } else if e.Pair? || e.Acknowledge? || e.Fail? || e.Expire? {
      PairingStepIntroduces(s, e);
    } else {
      OtherStepBooks(s, e);
      NothingIntroduced(s.books);
    }
  }

  // ----- stale callbacks -----

  /** An attempt that was granted this token is over. */
  ghost predicate TokenSpent(b: Books, token: nat) {
    token <= b.attempt && forall k :: !HasToken(b, k, token)
  }

  /**
    * Main result. Once an attempt is over, in whatever way and whatever has failed, no later step
    * makes its token current again: an acknowledgement or failure that carries it changes nothing.
    */
  lemma {:induction false} StaleTokensAreHarmless(s: Room, events: seq<Event>, key: Key, a: Assignment, undo: bool,
                                                  save: SaveEnv)
    requires TokenSpent(s.books, a.token)
    ensures var later := Run(s, events);
            later.Acknowledge(key, a) == later && later.Fail(key, a, undo, save) == later
    decreases |events|
  {
    if |events| > 0 {
      StepIntroduces(s, events[0]);
      StaleTokensAreHarmless(Step(s, events[0]), events[1..], key, a, undo, save);
    } else {
      assert !HasToken(s.books, key, a.token);
    }
  }

  /** Ending an attempt spends its token. */
  lemma EndingSpendsToken(s: Room, key: Key, a: Assignment, undo: bool, save: SaveEnv)
    requires Inv(s) && s.running && s.IsPending(key, a.token)
    ensures TokenSpent(s.Acknowledge(key, a).books, a.token)
    ensures TokenSpent(s.Fail(key, a, undo, save).books, a.token)
  {
    FailBooks(s, key, a, undo, save);
    EndedSpendsToken(s.books, s.Acknowledge(key, a).books, key, a.token);
    EndedSpendsToken(s.books, s.Fail(key, a, undo, save).books, key, a.token);
  }

  lemma EndedSpendsToken(b: Books, after: Books, key: Key, token: nat)
    requires AttemptsSound(b.pending, b.Leases(), b.attempt) && HasToken(b, key, token)
    requires after.pending == b.pending - {key} && after.attempt == b.attempt
    ensures TokenSpent(after, token)
  {
    assert AttemptSound(b.pending[key], key, b.Leases(), b.attempt);
    forall k | k != key
      ensures !HasToken(after, k, token)
    {
      assert !SameToken(b.pending, k, key);
    }
  }

  /** No lease of `key`, present or remembered, was created with `revision`, and none will be. */
  ghost predicate RevisionSpent(b: Books, key: Key, revision: Revision) {
    Keyed(b) && revision <= b.Pool().revision && !HasRevision(b, key, revision)
  }

  ghost predicate OneLife(s: Room, events: seq<Event>)
    decreases |events|
  {
    |events| > 0 ==> SameLife(s, events[0]) && OneLife(Step(s, events[0]), events[1..])
  }

  /**
    * Main result. Within one allocator's life, once the lease that a timer was armed for is gone, the
    * timer's callback touches nothing but the timer map, however often its key has been leased again
    * and whether or not stopping the timer came in time.
    */
  lemma {:induction false} StaleExpiriesAreHarmless(s: Room, events: seq<Event>, key: Key, revision: Revision,
                                                    remove: bool, save: SaveEnv)
    requires RevisionSpent(s.books, key, revision) && OneLife(s, events)
    ensures var later := Run(s, events);
            later.Expire(key, revision, remove, save) == later.(timers := later.timers - {key})
    decreases |events|
  {
    if |events| > 0 {
      StepIntroduces(s, events[0]);
      StaleExpiriesAreHarmless(Step(s, events[0]), events[1..], key, revision, remove, save);
    } else {
      assert !s.Expirable(key, revision);
    }
  }

  /** Removing a member spends the revision of its lease. */
  lemma RemovalSpendsRevision(s: Room, key: Key, block: bool, env: RemoveEnv)
    requires Inv(s) && s.running && key in s.books.Leases() && s.RemoveMember(key, block, env).1
    ensures RevisionSpent(s.RemoveMember(key, block, env).0.books, key, s.books.Leases()[key].revision)
  {
    RemoveBooks(s, key, block, env);
    InvIsKeyed(s.books);
    DropIntroduces(s.books, key);
  }

  lemma InvIsKeyed(b: Books)
    requires Consistent(b)
    ensures Keyed(b)
  {
    forall k | k in b.pending && b.pending[k].previous.Some?
      ensures b.pending[k].previous.value.publicKey == k
    {
      assert AttemptSound(b.pending[k], k, b.Leases(), b.attempt);
    }
  }

  /**
    * A rename whose save fails rebuilds the allocator. Its next revision is then new, as the result
    * above needs, exactly when the counter was no further than the greatest revision still leased.
    */
  lemma RebuildReusesRevisions(t: Table, key: Key, name: seq<Byte>)
    requires ValidLeases(t.leases) && Issued(t) && t.revision < REVISIONS - 1
    requires key != 0 && key !in t.leases && |t.leases| < CAPACITY
    ensures var (after, r) := Rebuilt(t.leases).Assign(key, name);
            r.Ok? && (r.value.lease.revision > t.revision <==> t.revision == MaxRevision(SnapshotOf(t.leases)))
  {
    RebuiltIssued(t);
    FullIffCapacity(t.leases);
  }
}
