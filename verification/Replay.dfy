/** The replay cache: ReplayWindow in internal/discovery/frame.go. Times are integers on one clock. */
module Replay {
  import opened Bytes
  import opened Discovery

  /** A sender's four bytes and a sequence number. */
  datatype Key = Key(sender: Addr, sequence: nat)

  datatype Answer = Accepted | Duplicate | BadSender

  type Entries = map<Key, int>

  /** What an Accept keeps of the entries: those seen no earlier than the cutoff. */
  ghost function Kept(entries: Entries, cutoff: int): (kept: Entries)
    ensures forall k :: (k in kept <==> k in entries && entries[k] >= cutoff) && (k in kept ==> kept[k] == entries[k])
  {
    entries - set k | k in entries && entries[k] < cutoff
  }

  /** A key whose entry is as old as any. */
  predicate Oldest(entries: Entries, k: Key) {
    k in entries && forall j :: j in entries ==> entries[k] <= entries[j]
  }

  /** Room for one more: only a full cache gives up an entry, one of the oldest. */
  ghost predicate Evicted(before: Entries, max: nat, after: Entries) {
    if |before| >= max then exists k :: Oldest(before, k) && after == before - {k} else after == before
  }

  /** One call of Accept. Which of several oldest entries is given up is left open. */
  ghost predicate Step(before: Entries, max: nat, ttl: int, key: Key, now: int, answer: Answer, after: Entries) {
    if !ValidSender(key.sender) then answer == BadSender && after == before
    else if key in Kept(before, now - ttl) then answer == Duplicate && after == Kept(before, now - ttl)
    else answer == Accepted && Stored(Kept(before, now - ttl), max, key, now, after)
  }

  ghost predicate Stored(kept: Entries, max: nat, key: Key, now: int, after: Entries) {
    exists room :: Evicted(kept, max, room) && after == room[key := now]
  }

  const CACHE_ENTRIES: nat := 1024
  const CACHE_TTL: int := 5_000_000_000

  class ReplayWindow {
    var entries: Entries
    const max: nat
    const ttl: int
    // every call since the cache was made, and the entries between them
    ghost var log: seq<Attempt>
    ghost var states: seq<Entries>

    ghost predicate Valid()
      reads this
    {
      max >= 1 && ttl > 0 && |entries| <= max && IsRun(max, ttl, log, states) && states[|log|] == entries
    }

    constructor (max: int, ttl: int)
      ensures Valid() && entries == map[] && log == []
      ensures this.max == (if max < 1 then CACHE_ENTRIES else max)
      ensures this.ttl == (if ttl <= 0 then CACHE_TTL else ttl)
    {
      this.max := if max < 1 then CACHE_ENTRIES else max;
      this.ttl := if ttl <= 0 then CACHE_TTL else ttl;
      entries := map[];
      log, states := [], [map[]];
    }

    method Accept(sender: Addr, sequence: nat, now: int) returns (answer: Answer)
      requires Valid()
      modifies this
      ensures Valid()
      ensures Step(old(entries), max, ttl, Key(sender, sequence), now, answer, entries)
      ensures log == old(log) + [Attempt(Key(sender, sequence), now, answer)]
    {
      answer := Judge(sender, sequence, now);
      RunMore(max, ttl, log, states, Attempt(Key(sender, sequence), now, answer), entries);
      log, states := log + [Attempt(Key(sender, sequence), now, answer)], states + [entries];
    }

    method Judge(sender: Addr, sequence: nat, now: int) returns (answer: Answer)
      requires max >= 1 && |entries| <= max
      modifies this`entries
      ensures |entries| <= max
      ensures Step(old(entries), max, ttl, Key(sender, sequence), now, answer, entries)
    {
      if !ValidSender(sender) {
        return BadSender;
      }
      Purge(now - ttl);
      var key := Key(sender, sequence);
      if key in entries {
        return Duplicate;
      }
      Insert(key, now);
      return Accepted;
    }

    /** The end of Accept: make room if the cache is full, then remember the key. */
    method Insert(key: Key, now: int)
      requires max >= 1 && |entries| <= max && key !in entries
      modifies this`entries
      ensures |entries| <= max
      ensures Stored(old(entries), max, key, now, entries)
    {
      if |entries| >= max {
        var oldestKey := FindOldest();
        entries := entries - {oldestKey};
        assert old(entries).Keys == entries.Keys + {oldestKey};
      }
      ghost var room := entries;
      assert Evicted(old(entries), max, room);
      entries := entries[key := now];
      assert entries.Keys == room.Keys + {key};
    }

    /** The first loop: delete what was seen before the cutoff. */
    method Purge(cutoff: int)
      modifies this`entries
      ensures entries == Kept(old(entries), cutoff)
      ensures |entries| <= |old(entries)|
    {
      var left := entries.Keys;
      while left != {}
        invariant left <= entries.Keys <= old(entries).Keys
        invariant forall k :: k in entries ==> entries[k] == old(entries)[k]
        invariant forall k :: k in old(entries) && k !in left ==> (k in entries <==> old(entries)[k] >= cutoff)
        invariant |entries| <= |old(entries)|
        decreases left
      {
        var key :| key in left;
        left := left - {key};
        if entries[key] < cutoff {
          ghost var before := entries;
          entries := entries - {key};
          assert before.Keys == entries.Keys + {key};
        }
      }
    }

    /** The second loop: in whatever order the entries come, the first of the oldest. */
    method FindOldest() returns (oldestKey: Key)
      requires entries != map[]
      ensures Oldest(entries, oldestKey)
    {
      oldestKey :| oldestKey in entries;
      var left := entries.Keys - {oldestKey};
      while left != {}
        invariant oldestKey in entries && left <= entries.Keys
        invariant forall k :: k in entries && k !in left ==> entries[oldestKey] <= entries[k]
        decreases left
      {
        var candidate :| candidate in left;
        left := left - {candidate};
        if entries[candidate] < entries[oldestKey] {
          oldestKey := candidate;
        }
      }
    }
  }

  // ----- runs -----

  datatype Attempt = Attempt(key: Key, now: int, answer: Answer)

  /** A run from an empty cache: states[n] is the cache after n attempts. */
  ghost predicate IsRun(max: nat, ttl: int, log: seq<Attempt>, states: seq<Entries>) {
    && |states| == |log| + 1 && states[0] == map[]
    && forall n :: 0 <= n < |log| ==> Step(states[n], max, ttl, log[n].key, log[n].now, log[n].answer, states[n + 1])
  }

  lemma RunMore(max: nat, ttl: int, log: seq<Attempt>, states: seq<Entries>, a: Attempt, after: Entries)
    requires IsRun(max, ttl, log, states) && Step(states[|log|], max, ttl, a.key, a.now, a.answer, after)
    ensures IsRun(max, ttl, log + [a], states + [after])
  {
  }

  /** The clock never goes back. */
  predicate Clocked(log: seq<Attempt>) {
    forall i, j :: 0 <= i < j < |log| ==> log[i].now <= log[j].now
  }

  /** The accepts among the first n attempts that are still within the ttl at time `at`. */
  ghost function Live(log: seq<Attempt>, n: nat, ttl: int, at: int): set<int>
    requires n <= |log|
  {
    set i | 0 <= i < n && log[i].answer == Accepted && log[i].now >= at - ttl
  }

  /** No ttl-long window holds more accepts than the cache has room for. */
  ghost predicate NoBurst(max: nat, ttl: int, log: seq<Attempt>) {
    forall n :: 0 <= n < |log| ==> |Live(log, n + 1, ttl, log[n].now)| <= max
  }

  /** The cache after n attempts holds the accepts still within the ttl; whatever else it holds is an older accept. */
  ghost predicate Exact(log: seq<Attempt>, n: nat, ttl: int, entries: Entries)
    requires n <= |log|
  {
    && (forall i :: 0 <= i < n && log[i].answer == Accepted && log[i].now >= log[n - 1].now - ttl
          ==> log[i].key in entries && entries[log[i].key] == log[i].now)
    && (forall k :: k in entries ==> Backed(log, n, k, entries[k]))
  }

  ghost predicate Backed(log: seq<Attempt>, n: nat, k: Key, at: int)
    requires n <= |log|
  {
    exists i :: 0 <= i < n && log[i].answer == Accepted && log[i].key == k && log[i].now == at
  }

  lemma {:induction false} ImageSize(s: set<int>, log: seq<Attempt>)
    requires forall i :: i in s ==> 0 <= i < |log|
    ensures |KeysOf(s, log)| <= |s|
    decreases s
  {
    if i :| i in s {
      ImageSize(s - {i}, log);
      assert KeysOf(s, log) == KeysOf(s - {i}, log) + {log[i].key};
    } else {
      assert KeysOf(s, log) == {};
    }
  }

  ghost function KeysOf(s: set<int>, log: seq<Attempt>): set<Key>
    requires forall i :: i in s ==> 0 <= i < |log|
  {
    set i | i in s :: log[i].key
  }

  /** What survives a purge at the time of attempt n is no more than the live accepts before it. */
  lemma KeptAreLive(log: seq<Attempt>, n: nat, ttl: int, entries: Entries)
    requires n < |log| && Exact(log, n, ttl, entries)
    ensures |Kept(entries, log[n].now - ttl)| <= |Live(log, n, ttl, log[n].now)|
  {
    var kept, live := Kept(entries, log[n].now - ttl), Live(log, n, ttl, log[n].now);
    forall k | k in kept
      ensures k in KeysOf(live, log)
    {
      assert Backed(log, n, k, entries[k]);
      var i :| 0 <= i < n && log[i].answer == Accepted && log[i].key == k && log[i].now == entries[k];
      assert i in live;
    }
    ImageSize(live, log);
    SubsetSize(kept.Keys, KeysOf(live, log));
  }

  lemma {:induction false} SubsetSize(a: set<Key>, b: set<Key>)
    requires a <= b
    ensures |a| <= |b|
    decreases a
  {
    if k :| k in a {
      SubsetSize(a - {k}, b - {k});
    }
  }

  /** While no burst overruns it, the cache gives nothing live up. */
  lemma NothingEvicted(max: nat, ttl: int, log: seq<Attempt>, n: nat, entries: Entries)
    requires n < |log| && ttl > 0 && |Live(log, n + 1, ttl, log[n].now)| <= max && log[n].answer == Accepted
    requires Exact(log, n, ttl, entries)
    ensures |Kept(entries, log[n].now - ttl)| < max
  {
    KeptAreLive(log, n, ttl, entries);
    LiveMore(log, n, ttl, log[n].now);
  }

  lemma LiveMore(log: seq<Attempt>, n: nat, ttl: int, at: int)
    requires n < |log| && log[n].answer == Accepted && log[n].now >= at - ttl
    ensures |Live(log, n + 1, ttl, at)| == |Live(log, n, ttl, at)| + 1
  {
    assert Live(log, n + 1, ttl, at) == Live(log, n, ttl, at) + {n};
  }

  lemma StepKeepsExact(max: nat, ttl: int, log: seq<Attempt>, n: nat, before: Entries, after: Entries)
    requires n < |log| && ttl > 0 && Clocked(log) && |Live(log, n + 1, ttl, log[n].now)| <= max
    requires Exact(log, n, ttl, before) && Step(before, max, ttl, log[n].key, log[n].now, log[n].answer, after)
    ensures Exact(log, n + 1, ttl, after)
  {
    var kept := Kept(before, log[n].now - ttl);
    if log[n].answer == Accepted {
      NothingEvicted(max, ttl, log, n, before);
      AcceptKeepsExact(ttl, log, n, before);
      StoredWhole(kept, max, log[n].key, log[n].now, after);
    } else {
      RefusalKeepsExact(ttl, log, n, before, after);
    }
  }

  lemma StoredWhole(kept: Entries, max: nat, key: Key, now: int, after: Entries)
    requires Stored(kept, max, key, now, after) && |kept| < max
    ensures after == kept[key := now]
  {
  }

  lemma BackedLater(log: seq<Attempt>, n: nat, k: Key, at: int)
    requires n < |log| && Backed(log, n, k, at)
    ensures Backed(log, n + 1, k, at)
  {
    var i :| 0 <= i < n && log[i].answer == Accepted && log[i].key == k && log[i].now == at;
    assert 0 <= i < n + 1;
  }

  lemma RefusalKeepsExact(ttl: int, log: seq<Attempt>, n: nat, before: Entries, after: Entries)
    requires n < |log| && Clocked(log) && Exact(log, n, ttl, before) && log[n].answer != Accepted
    requires after == before || after == Kept(before, log[n].now - ttl)
    ensures Exact(log, n + 1, ttl, after)
  {
    forall k | k in after
      ensures Backed(log, n + 1, k, after[k])
    {
      BackedLater(log, n, k, before[k]);
    }
  }

  lemma AcceptKeepsExact(ttl: int, log: seq<Attempt>, n: nat, before: Entries)
    requires n < |log| && ttl > 0 && Clocked(log) && Exact(log, n, ttl, before) && log[n].answer == Accepted
    requires log[n].key !in Kept(before, log[n].now - ttl)
    ensures Exact(log, n + 1, ttl, Kept(before, log[n].now - ttl)[log[n].key := log[n].now])
  {
    var after := Kept(before, log[n].now - ttl)[log[n].key := log[n].now];
    forall k | k in after
      ensures Backed(log, n + 1, k, after[k])
    {
      if k == log[n].key {
        assert log[n].answer == Accepted && log[n].key == k;
      } else {
        BackedLater(log, n, k, before[k]);
      }
    }
  }

  lemma {:induction false} RunExact(max: nat, ttl: int, log: seq<Attempt>, states: seq<Entries>, n: nat)
    requires IsRun(max, ttl, log, states) && ttl > 0 && Clocked(log) && NoBurst(max, ttl, log) && n <= |log|
    ensures Exact(log, n, ttl, states[n])
    decreases n
  {
    if n > 0 {
      var m := n - 1;
      RunExact(max, ttl, log, states, m);
      assert |Live(log, m + 1, ttl, log[m].now)| <= max;
      assert Step(states[m], max, ttl, log[m].key, log[m].now, log[m].answer, states[m + 1]);
      StepKeepsExact(max, ttl, log, m, states[m], states[n]);
    }
  }

  /** The same key was accepted within the ttl before attempt n. */
  ghost predicate SeenRecently(ttl: int, log: seq<Attempt>, n: nat)
    requires n < |log|
  {
    exists i :: 0 <= i < n && log[i].answer == Accepted && log[i].key == log[n].key && log[i].now >= log[n].now - ttl
  }

  /**
    * Main result: if no ttl-long window holds more accepts than the cache has room for, the cache answers
    * as the full history would: a pair is refused as a duplicate exactly when it was accepted within the
    * ttl. So it is accepted at most once per ttl, whichever entries ties would give up.
    */
  lemma RefinesHistory(max: nat, ttl: int, log: seq<Attempt>, states: seq<Entries>, n: nat)
    requires IsRun(max, ttl, log, states) && ttl > 0 && Clocked(log) && NoBurst(max, ttl, log)
    requires n < |log| && ValidSender(log[n].key.sender)
    ensures log[n].answer == if SeenRecently(ttl, log, n) then Duplicate else Accepted
  {
    RunExact(max, ttl, log, states, n);
    CacheIsHistory(ttl, log, n, states[n]);
    assert Step(states[n], max, ttl, log[n].key, log[n].now, log[n].answer, states[n + 1]);
  }

  lemma CacheIsHistory(ttl: int, log: seq<Attempt>, n: nat, entries: Entries)
    requires n < |log| && Clocked(log) && Exact(log, n, ttl, entries)
    ensures log[n].key in Kept(entries, log[n].now - ttl) <==> SeenRecently(ttl, log, n)
  {
    var key := log[n].key;
    if key in Kept(entries, log[n].now - ttl) {
      assert Backed(log, n, key, entries[key]);
    }
    if i :| 0 <= i < n && log[i].answer == Accepted && log[i].key == key && log[i].now >= log[n].now - ttl {
      assert log[n - 1].now <= log[n].now;
      assert key in entries && entries[key] == log[i].now;
    }
  }

  lemma EvictedSize(kept: Entries, max: nat, room: Entries)
    requires max >= 1 && |kept| <= max && Evicted(kept, max, room)
    ensures |room| < max
  {
    if |kept| >= max {
      var k :| Oldest(kept, k) && room == kept - {k};
      assert kept.Keys == room.Keys + {k};
    }
  }

  lemma StoredSize(kept: Entries, max: nat, key: Key, now: int, after: Entries)
    requires max >= 1 && |kept| <= max && Stored(kept, max, key, now, after)
    ensures |after| <= max
  {
    var room :| Evicted(kept, max, room) && after == room[key := now];
    EvictedSize(kept, max, room);
    assert after.Keys == room.Keys + {key};
  }

  lemma StepSize(before: Entries, max: nat, ttl: int, key: Key, now: int, answer: Answer, after: Entries)
    requires max >= 1 && |before| <= max && Step(before, max, ttl, key, now, answer, after)
    ensures |after| <= max
  {
    var kept := Kept(before, now - ttl);
    SubsetSize(kept.Keys, before.Keys);
    if answer == Accepted {
      StoredSize(kept, max, key, now, after);
    }
  }

  /** In every run, burst or not, the cache never holds more than `max` entries. */
  lemma {:induction false} RunSize(max: nat, ttl: int, log: seq<Attempt>, states: seq<Entries>, n: nat)
    requires IsRun(max, ttl, log, states) && max >= 1 && n <= |log|
    ensures |states[n]| <= max
    decreases n
  {
    if n > 0 {
      var m := n - 1;
      RunSize(max, ttl, log, states, m);
      StepSize(states[m], max, ttl, log[m].key, log[m].now, log[m].answer, states[m + 1]);
    }
  }

  // ----- when bursts overrun the cache -----

  /** The other accepts among the first n attempts that are no older than attempt i. */
  ghost function Newer(log: seq<Attempt>, n: nat, i: nat): set<int>
    requires i < n <= |log|
  {
    set j | 0 <= j < n && j != i && log[j].answer == Accepted && log[i].now <= log[j].now
  }

  /** Only newer accepts can have pushed a live one out, and there must be enough of them. */
  ghost predicate Held(max: nat, log: seq<Attempt>, n: nat, i: nat, entries: Entries)
    requires i < n <= |log|
  {
    (log[i].key in entries && entries[log[i].key] == log[i].now) || |Newer(log, n, i)| >= max
  }

  ghost predicate AllBacked(log: seq<Attempt>, n: nat, entries: Entries)
    requires n <= |log|
  {
    forall k :: k in entries ==> Backed(log, n, k, entries[k])
  }

  ghost predicate HoldsRecent(max: nat, ttl: int, log: seq<Attempt>, n: nat, entries: Entries)
    requires n <= |log|
  {
    && AllBacked(log, n, entries)
    && (forall i :: 0 <= i < n && log[i].answer == Accepted && log[i].now >= log[n - 1].now - ttl
          ==> Held(max, log, n, i, entries))
  }

  lemma NewerMore(log: seq<Attempt>, n: nat, i: nat)
    requires i < n < |log|
    ensures |Newer(log, n, i)| <= |Newer(log, n + 1, i)|
    ensures log[n].answer == Accepted && log[i].now <= log[n].now ==>
              |Newer(log, n + 1, i)| == |Newer(log, n, i)| + 1
  {
    if log[n].answer == Accepted && log[i].now <= log[n].now {
      assert Newer(log, n + 1, i) == Newer(log, n, i) + {n};
    } else {
      assert Newer(log, n + 1, i) == Newer(log, n, i);
    }
  }

  /** What is given up is older than everything that stays, so everything that stays is newer. */
  lemma OldestIsOutnumbered(log: seq<Attempt>, n: nat, i: nat, kept: Entries)
    requires i < n <= |log| && Oldest(kept, log[i].key) && kept[log[i].key] == log[i].now
    requires forall k :: k in kept ==> Backed(log, n, k, kept[k])
    ensures |kept| <= |Newer(log, n, i)| + 1
  {
    var newer, others := Newer(log, n, i), kept.Keys - {log[i].key};
    forall k | k in others
      ensures k in KeysOf(newer, log)
    {
      assert Backed(log, n, k, kept[k]);
      var j :| 0 <= j < n && log[j].answer == Accepted && log[j].key == k && log[j].now == kept[k];
      assert j in newer;
    }
    ImageSize(newer, log);
    SubsetSize(others, KeysOf(newer, log));
    assert kept.Keys == others + {log[i].key};
  }

  lemma HeldPastAccept(max: nat, log: seq<Attempt>, n: nat, i: nat, kept: Entries, after: Entries)
    requires i < n < |log| && log[i].answer == Accepted == log[n].answer && log[i].now <= log[n].now
    requires AllBacked(log, n, kept) && log[n].key !in kept && Stored(kept, max, log[n].key, log[n].now, after)
    requires log[i].key in kept && kept[log[i].key] == log[i].now
    ensures Held(max, log, n + 1, i, after)
  {
    NewerMore(log, n, i);
    var room :| Evicted(kept, max, room) && after == room[log[n].key := log[n].now];
    if log[i].key !in room {
      OldestIsOutnumbered(log, n, i, kept);
    }
  }

  lemma HeldStep(max: nat, ttl: int, log: seq<Attempt>, n: nat, i: nat, before: Entries, after: Entries)
    requires i < n < |log| && Held(max, log, n, i, before) && AllBacked(log, n, before)
    requires Step(before, max, ttl, log[n].key, log[n].now, log[n].answer, after)
    requires log[i].answer == Accepted && log[n].now - ttl <= log[i].now <= log[n].now
    ensures Held(max, log, n + 1, i, after)
  {
    NewerMore(log, n, i);
    if |Newer(log, n, i)| < max && log[n].answer == Accepted {
      HeldPastAccept(max, log, n, i, Kept(before, log[n].now - ttl), after);
    }
  }

  lemma StepKeepsBacked(max: nat, ttl: int, log: seq<Attempt>, n: nat, before: Entries, after: Entries)
    requires n < |log| && AllBacked(log, n, before)
    requires Step(before, max, ttl, log[n].key, log[n].now, log[n].answer, after)
    ensures AllBacked(log, n + 1, after)
  {
    forall k | k in after
      ensures Backed(log, n + 1, k, after[k])
    {
      if k == log[n].key && log[n].answer == Accepted {
        assert log[n].key == k && log[n].now == after[k];
      } else {
        BackedLater(log, n, k, before[k]);
      }
    }
  }

  lemma HeldOn(max: nat, ttl: int, log: seq<Attempt>, n: nat, i: nat, before: Entries, after: Entries)
    requires i <= n < |log| && ttl > 0 && Clocked(log) && HoldsRecent(max, ttl, log, n, before)
    requires Step(before, max, ttl, log[n].key, log[n].now, log[n].answer, after)
    requires log[i].answer == Accepted && log[i].now >= log[n].now - ttl
    ensures Held(max, log, n + 1, i, after)
  {
    if i < n {
      assert log[n - 1].now <= log[n].now;
      HeldStep(max, ttl, log, n, i, before, after);
    }
  }

  lemma StepHoldsRecent(max: nat, ttl: int, log: seq<Attempt>, n: nat, before: Entries, after: Entries)
    requires n < |log| && ttl > 0 && Clocked(log) && HoldsRecent(max, ttl, log, n, before)
    requires Step(before, max, ttl, log[n].key, log[n].now, log[n].answer, after)
    ensures HoldsRecent(max, ttl, log, n + 1, after)
  {
    StepKeepsBacked(max, ttl, log, n, before, after);
    forall i | 0 <= i < n + 1 && log[i].answer == Accepted && log[i].now >= log[n].now - ttl
      ensures Held(max, log, n + 1, i, after)
    {
      HeldOn(max, ttl, log, n, i, before, after);
    }
  }

  lemma {:induction false} RunHoldsRecent(max: nat, ttl: int, log: seq<Attempt>, states: seq<Entries>, n: nat)
    requires IsRun(max, ttl, log, states) && ttl > 0 && Clocked(log) && n <= |log|
    ensures HoldsRecent(max, ttl, log, n, states[n])
    decreases n
  {
    if n > 0 {
      var m := n - 1;
      RunHoldsRecent(max, ttl, log, states, m);
      assert Step(states[m], max, ttl, log[m].key, log[m].now, log[m].answer, states[m + 1]);
      StepHoldsRecent(max, ttl, log, m, states[m], states[n]);
    }
  }

  /**
    * Main result. Bursts or not: what is refused as a duplicate was accepted within the ttl; and what was accepted
    * within the ttl is refused as long as fewer than `max` others have been accepted at the same time or after it.
    */
  lemma BurstsForgetOldest(max: nat, ttl: int, log: seq<Attempt>, states: seq<Entries>, n: nat, i: nat)
    requires IsRun(max, ttl, log, states) && ttl > 0 && Clocked(log) && i < n < |log|
    requires ValidSender(log[n].key.sender)
    ensures log[n].answer == Duplicate ==> SeenRecently(ttl, log, n)
    ensures log[i].answer == Accepted && log[i].key == log[n].key && log[i].now >= log[n].now - ttl ==>
              |Newer(log, n, i)| >= max || log[n].answer == Duplicate
  {
    RunHoldsRecent(max, ttl, log, states, n);
    assert Step(states[n], max, ttl, log[n].key, log[n].now, log[n].answer, states[n + 1]);
    if log[n].answer == Duplicate {
      assert Backed(log, n, log[n].key, states[n][log[n].key]);
    }
    if log[i].answer == Accepted && log[i].key == log[n].key && log[i].now >= log[n].now - ttl {
      assert log[n - 1].now <= log[n].now;
      assert Held(max, log, n, i, states[n]);
    }
  }
}
