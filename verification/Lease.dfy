/** The room address pool: internal/lease/lease.go. */
module Lease {
  import opened Bytes

  /** Revisions are uint64 in the program and wrap around. */
  const REVISIONS: nat := 0x1_0000_0000_0000_0000
  const CAPACITY: nat := 253

  /** A 32-byte public key read as a number, so that 0 is the all-zero key. */
  type Key = nat

  type Revision = r: int | 0 <= r < REVISIONS

  datatype Lease = Lease(publicKey: Key, ip: Addr, name: seq<Byte>, enabled: bool, revision: Revision)

  /** The allocator without its redundant octet array: what it means. */
  datatype Table = Table(leases: map<Key, Lease>, revision: Revision) {

    /** Rename a holder in place, or give the least free address to a new key. */
    ghost function Assign(key: Key, name: seq<Byte>): (Table, Result<Assigned, Failure>) {
      if key == 0 then (this, Err(Invalid))
      else if key in leases then
        var item := leases[key].(name := name);
        (this.(leases := leases[key := item]), Ok(Assigned(item, false)))
      else
        var octet := LeastFree(Octets(leases));
        if octet == 255 then (this, Err(Full))
        else
          var next := (revision + 1) % REVISIONS;
          var item := Lease(key, MemberAddr(octet), name, true, next);
          (Table(leases[key := item], next), Ok(Assigned(item, true)))
    }

    ghost function Remove(key: Key): Table {
      this.(leases := leases - {key})
    }

    /** Put a lease back unless it is malformed, moves its holder, or its address is taken. */
    ghost function Restore(item: Lease): (Table, bool) {
      if !MemberIP(item.ip) || item.publicKey == 0 || item.revision == 0 then (this, false)
      else if item.publicKey in leases && leases[item.publicKey].ip != item.ip then (this, false)
      else if item.publicKey !in leases && Octet(item.ip) in Octets(leases) then (this, false)
      else (Table(leases[item.publicKey := item], Max(item.revision, revision)), true)
    }
  }

  datatype Failure = Full | Invalid

  datatype Assigned = Assigned(lease: Lease, created: bool)

  predicate MemberIP(ip: Addr) {
    ip.V4? && ip.b0 == 10 && ip.b1 == 0 && ip.b2 == 23 && 2 <= ip.b3 <= 254
  }

  function Octet(ip: Addr): (o: Byte) {
    if ip.V4? then ip.b3 else 0
  }

  function MemberAddr(octet: Byte): Addr {
    V4(10, 0, 23, octet)
  }

  ghost predicate ValidLeases(leases: map<Key, Lease>) {
    && (forall k :: k in leases ==> leases[k].publicKey == k && MemberIP(leases[k].ip) && k != 0)
    && (forall j, k :: SameAddress(leases, j, k) ==> j == k)
  }

  predicate SameAddress(leases: map<Key, Lease>, j: Key, k: Key) {
    j in leases && k in leases && leases[j].ip == leases[k].ip
  }

  lemma ValidAfterRemove(leases: map<Key, Lease>, key: Key)
    requires ValidLeases(leases)
    ensures ValidLeases(leases - {key})
  {
    forall j, k | SameAddress(leases - {key}, j, k)
      ensures j == k
    {
      assert SameAddress(leases, j, k);
    }
  }

  lemma ValidAfterPut(leases: map<Key, Lease>, item: Lease)
    requires ValidLeases(leases) && MemberIP(item.ip) && item.publicKey != 0
    requires if item.publicKey in leases then leases[item.publicKey].ip == item.ip
             else Octet(item.ip) !in Octets(leases)
    ensures ValidLeases(leases[item.publicKey := item])
  {
    var after := leases[item.publicKey := item];
    assert forall k :: k in leases ==> Octet(leases[k].ip) in Octets(leases);
    forall j, k | SameAddress(after, j, k)
      ensures j == k
    {
      if j in leases && k in leases {
        assert SameAddress(leases, j, k);
      }
    }
  }

  /** Every lease carries a revision that was issued: at least 1 and no later than the counter. */
  ghost predicate Issued(t: Table) {
    forall k :: k in t.leases ==> 1 <= t.leases[k].revision <= t.revision
  }

  ghost function Octets(leases: map<Key, Lease>): set<int> {
    set k | k in leases :: Octet(leases[k].ip)
  }

  /** 255 stands for a full pool. */
  ghost predicate IsLeastFree(taken: set<int>, octet: int) {
    && 2 <= octet <= 255
    && (octet == 255 || octet !in taken)
    && forall p :: 2 <= p < octet ==> p in taken
  }

  ghost function LeastFree(taken: set<int>): (octet: int)
    ensures IsLeastFree(taken, octet)
  {
    LeastFreeExists(taken, 2);
    var octet :| IsLeastFree(taken, octet);
    octet
  }

  lemma {:induction false} LeastFreeExists(taken: set<int>, from: int)
    requires 2 <= from <= 255 && forall p :: 2 <= p < from ==> p in taken
    ensures exists octet :: IsLeastFree(taken, octet)
    decreases 255 - from
  {
    if from == 255 || from !in taken {
      assert IsLeastFree(taken, from);
    } else {
      LeastFreeExists(taken, from + 1);
    }
  }

  function Max(a: Revision, b: Revision): Revision {
    if a < b then b else a
  }

  /** The greatest revision among `items`, the counter a rebuilt allocator starts from. */
  function MaxRevision(items: seq<Lease>): Revision {
    if |items| == 0 then 0 else Max(items[|items| - 1].revision, MaxRevision(items[..|items| - 1]))
  }

  lemma {:induction false} MaxRevisionIsGreatest(items: seq<Lease>)
    ensures forall x :: x in items ==> x.revision <= MaxRevision(items)
    ensures MaxRevision(items) == 0 || exists x :: x in items && x.revision == MaxRevision(items)
  {
    if |items| > 0 {
      var front, last := items[..|items| - 1], items[|items| - 1];
      MaxRevisionIsGreatest(front);
      assert items == front + [last];
      assert forall x :: x in items <==> x in front || x == last;
    }
  }

  /** What New demands of its initial leases. */
  ghost predicate ValidItems(items: seq<Lease>) {
    && (forall i :: 0 <= i < |items| ==> MemberIP(items[i].ip) && items[i].publicKey != 0)
    && (forall i, j :: 0 <= i < j < |items| ==> items[i].ip != items[j].ip && items[i].publicKey != items[j].publicKey)
  }

  function ByKey(items: seq<Lease>): map<Key, Lease> {
    if |items| == 0 then map[]
    else ByKey(items[..|items| - 1])[items[|items| - 1].publicKey := items[|items| - 1]]
  }

  lemma {:induction false} ByKeySource(items: seq<Lease>, key: Key)
    ensures key in ByKey(items) ==>
              exists i :: 0 <= i < |items| && items[i] == ByKey(items)[key] && items[i].publicKey == key
    ensures key !in ByKey(items) ==> forall i :: 0 <= i < |items| ==> items[i].publicKey != key
  {
    if |items| > 0 {
      ByKeySource(items[..|items| - 1], key);
      if items[|items| - 1].publicKey == key {
        assert items[|items| - 1] == ByKey(items)[key];
      } else if key in ByKey(items) {
        var i :| 0 <= i < |items| - 1 && items[..|items| - 1][i] == ByKey(items)[key];
        assert items[i] == ByKey(items)[key];
      }
    }
  }

  /** A snapshot lists every lease once, by strictly increasing address. */
  ghost predicate IsSnapshot(items: seq<Lease>, leases: map<Key, Lease>) {
    && Ascending(items)
    && (forall x :: x in items ==> x.publicKey in leases && leases[x.publicKey] == x)
    && (forall k :: k in leases ==> leases[k] in items)
  }

  ghost predicate Ascending(items: seq<Lease>) {
    forall i, j :: 0 <= i < j < |items| ==> Octet(items[i].ip) < Octet(items[j].ip)
  }

  /** The leases in address order. */
  ghost function SnapshotOf(leases: map<Key, Lease>): (items: seq<Lease>)
    ensures ValidLeases(leases) ==> IsSnapshot(items, leases)
  {
    if ValidLeases(leases) then
      SnapshotExists(leases);
      var items :| IsSnapshot(items, leases);
      items
    else []
  }

  lemma {:induction false} SnapshotExists(leases: map<Key, Lease>)
    requires ValidLeases(leases)
    ensures exists items :: IsSnapshot(items, leases)
    decreases |leases|
  {
    if leases == map[] {
      assert IsSnapshot([], leases);
    } else {
      var k :| k in leases;
      var others := leases - {k};
      assert k !in others && leases.Keys == others.Keys + {k};
      ValidAfterRemove(leases, k);
      SnapshotExists(others);
      var rest :| IsSnapshot(rest, others);
      SnapshotGrow(rest, leases, k);
    }
  }

  lemma SnapshotGrow(rest: seq<Lease>, leases: map<Key, Lease>, key: Key)
    requires ValidLeases(leases) && key in leases && IsSnapshot(rest, leases - {key})
    ensures IsSnapshot(Inserted(rest, leases[key]), leases)
  {
    var others := leases - {key};
    forall j | j in others
      ensures Octet(others[j].ip) != Octet(leases[key].ip)
    {
      DistinctOctets(leases, j, key);
    }
    SnapshotInsert(rest, others, leases[key]);
    assert others[key := leases[key]] == leases;
  }

  lemma DistinctOctets(leases: map<Key, Lease>, j: Key, k: Key)
    requires ValidLeases(leases) && j in leases && k in leases && j != k
    ensures Octet(leases[j].ip) != Octet(leases[k].ip)
  {
    assert !SameAddress(leases, j, k);
    assert leases[j].ip == MemberAddr(Octet(leases[j].ip));
    assert leases[k].ip == MemberAddr(Octet(leases[k].ip));
  }

  lemma SnapshotInsert(rest: seq<Lease>, leases: map<Key, Lease>, item: Lease)
    requires IsSnapshot(rest, leases) && item.publicKey !in leases
    requires forall k :: k in leases ==> Octet(leases[k].ip) != Octet(item.ip)
    ensures IsSnapshot(Inserted(rest, item), leases[item.publicKey := item])
  {
    assert forall x :: x in rest ==> leases[x.publicKey] == x;
    InsertedInOrder(rest, Position(rest, item), item);
  }

  function Inserted(sorted: seq<Lease>, item: Lease): seq<Lease> {
    sorted[..Position(sorted, item)] + [item] + sorted[Position(sorted, item)..]
  }

  /** Where `item` goes in an address-ordered list. */
  function Position(sorted: seq<Lease>, item: Lease): (i: nat)
    ensures i <= |sorted|
    ensures i < |sorted| ==> Octet(item.ip) <= Octet(sorted[i].ip)
    ensures forall j :: 0 <= j < i ==> Octet(sorted[j].ip) < Octet(item.ip)
  {
    if |sorted| == 0 || Octet(item.ip) <= Octet(sorted[0].ip) then 0
    else
      var i := Position(sorted[1..], item);
      assert forall j :: 1 <= j < i + 1 ==> sorted[j] == sorted[1..][j - 1];
      i + 1
  }

  /** Whatever order the map is walked in, there is only one snapshot. */
  lemma {:induction false} SnapshotUnique(s: seq<Lease>, t: seq<Lease>, leases: map<Key, Lease>)
    requires IsSnapshot(s, leases) && IsSnapshot(t, leases)
    ensures s == t
  {
    forall x
      ensures x in s <==> x in t
    {
      if x in s {
        assert leases[x.publicKey] == x;
      }
      if x in t {
        assert leases[x.publicKey] == x;
      }
    }
    AscendingUnique(s, t);
  }

  lemma {:induction false} AscendingUnique(s: seq<Lease>, t: seq<Lease>)
    requires Ascending(s) && Ascending(t)
    requires forall x :: x in s <==> x in t
    ensures s == t
  {
    assert |s| > 0 ==> s[0] in s;
    assert |t| > 0 ==> t[0] in t;
    if |s| > 0 {
      assert s[0] == t[0];
      forall x
        ensures x in s[1..] <==> x in t[1..]
      {
        TailMembers(s, x);
        TailMembers(t, x);
      }
      AscendingUnique(s[1..], t[1..]);
      assert s == [s[0]] + s[1..] && t == [t[0]] + t[1..];
    }
  }

  lemma TailMembers(s: seq<Lease>, x: Lease)
    requires Ascending(s) && |s| > 0
    ensures x in s[1..] <==> x in s && x != s[0]
  {
    if x in s && x != s[0] {
      var i :| 0 <= i < |s| && s[i] == x;
      assert s[1..][i - 1] == x;
    }
  }

  /** A snapshot is acceptable to New and carries the whole table. */
  lemma SnapshotRebuilds(items: seq<Lease>, leases: map<Key, Lease>)
    requires ValidLeases(leases) && IsSnapshot(items, leases)
    ensures ValidItems(items) && ByKey(items) == leases
  {
    SnapshotItemsValid(items, leases);
    var m := ByKey(items);
    forall k
      ensures k in m <==> k in leases
      ensures k in m ==> m[k] == leases[k]
    {
      ByKeySource(items, k);
      if k in leases {
        assert leases[k] in items;
      }
      assert forall i :: 0 <= i < |items| ==> items[i] in items;
    }
  }

  lemma SnapshotItemsValid(items: seq<Lease>, leases: map<Key, Lease>)
    requires ValidLeases(leases) && IsSnapshot(items, leases)
    ensures ValidItems(items)
  {
    forall i | 0 <= i < |items|
      ensures MemberIP(items[i].ip) && items[i].publicKey != 0 && leases[items[i].publicKey] == items[i]
    {
      assert items[i] in items;
    }
    forall i, j | 0 <= i < j < |items|
      ensures items[i].ip != items[j].ip && items[i].publicKey != items[j].publicKey
    {
      assert Octet(items[i].ip) < Octet(items[j].ip);
    }
  }

  lemma ValidItemsGiveValidLeases(items: seq<Lease>)
    requires ValidItems(items)
    ensures ValidLeases(ByKey(items))
  {
    var m := ByKey(items);
    forall k | k in m
      ensures m[k].publicKey == k && MemberIP(m[k].ip) && k != 0
    {
      ByKeySource(items, k);
    }
    forall j, k | j in m && k in m && m[j].ip == m[k].ip
      ensures j == k
    {
      ByKeySource(items, j);
      ByKeySource(items, k);
    }
  }

  // ----- capacity -----

  lemma {:induction false} BoundedSetSize(s: set<int>, lo: int, hi: int)
    requires lo <= hi + 1 && forall o :: o in s ==> lo <= o <= hi
    ensures |s| <= hi + 1 - lo
    ensures |s| == hi + 1 - lo <==> forall o :: lo <= o <= hi ==> o in s
    decreases hi - lo
  {
    if lo <= hi {
      BoundedSetSize(s - {hi}, lo, hi - 1);
      assert forall o :: o in s - {hi} <==> o in s && o != hi;
    } else {
      assert forall o :: o !in s;
      assert s == {};
    }
  }

  lemma {:induction false} OctetsSize(leases: map<Key, Lease>)
    requires ValidLeases(leases)
    ensures |Octets(leases)| == |leases|
    decreases |leases|
  {
    if k :| k in leases {
      var rest := leases - {k};
      OctetsAfterRemove(leases, k);
      ValidAfterRemove(leases, k);
      OctetsSize(rest);
      assert Octet(leases[k].ip) in Octets(leases);
    } else {
      assert Octets(leases) == {};
    }
  }

  /** ErrFull is reported exactly when all 253 addresses are leased. */
  lemma FullIffCapacity(leases: map<Key, Lease>)
    requires ValidLeases(leases)
    ensures |leases| <= CAPACITY
    ensures LeastFree(Octets(leases)) == 255 <==> |leases| == CAPACITY
  {
    OctetsSize(leases);
    BoundedSetSize(Octets(leases), 2, 254);
  }

  // ----- the table over every operation -----

  lemma AssignKeepsValid(t: Table, key: Key, name: seq<Byte>)
    requires ValidLeases(t.leases)
    ensures ValidLeases(t.Assign(key, name).0.leases)
  {
    if t.Assign(key, name).1.Ok? {
      ValidAfterPut(t.leases, t.Assign(key, name).1.value.lease);
    }
  }

  lemma RestoreKeepsValid(t: Table, item: Lease)
    requires ValidLeases(t.leases)
    ensures ValidLeases(t.Restore(item).0.leases)
  {
    if t.Restore(item).1 {
      ValidAfterPut(t.leases, item);
    }
  }

  /** One call on the allocator. */
  datatype Call = Assign(key: Key, name: seq<Byte>) | Remove(key: Key) | Restore(item: Lease)
                         | RemoveIfRevision(key: Key, expected: Revision)

  ghost function After(t: Table, c: Call): Table {
    match c
    case Assign(key, name) => t.Assign(key, name).0
    case Remove(key) => t.Remove(key)
    case Restore(item) => t.Restore(item).0
    case RemoveIfRevision(key, expected) =>
      if key in t.leases && t.leases[key].revision == expected then t.Remove(key) else t
  }

  ghost function AfterAll(t: Table, calls: seq<Call>): Table {
    if |calls| == 0 then t else After(AfterAll(t, calls[..|calls| - 1]), calls[|calls| - 1])
  }

  /** No call of the run makes the revision counter wrap around. */
  ghost predicate NeverWraps(t: Table, calls: seq<Call>) {
    |calls| > 0 ==>
      && NeverWraps(t, calls[..|calls| - 1])
      && (calls[|calls| - 1].Assign? ==> AfterAll(t, calls[..|calls| - 1]).revision < REVISIONS - 1)
  }

  /**
    * Over every sequence of calls: distinct keys have distinct member addresses, at most 253 are
    * leased, and, until the counter wraps, it never goes back and bounds every lease's revision.
    */
  lemma {:induction false} CallsKeepTable(t: Table, calls: seq<Call>)
    requires ValidLeases(t.leases) && Issued(t)
    ensures var after := AfterAll(t, calls);
            && ValidLeases(after.leases) && |after.leases| <= CAPACITY
            && (NeverWraps(t, calls) ==> Issued(after) && t.revision <= after.revision)
  {
    if |calls| > 0 {
      CallsKeepTable(t, calls[..|calls| - 1]);
      CallKeepsValid(AfterAll(t, calls[..|calls| - 1]), calls[|calls| - 1]);
      if NeverWraps(t, calls) {
        CallKeepsIssued(AfterAll(t, calls[..|calls| - 1]), calls[|calls| - 1]);
      }
    }
    FullIffCapacity(AfterAll(t, calls).leases);
  }

  lemma CallKeepsValid(t: Table, c: Call)
    requires ValidLeases(t.leases)
    ensures ValidLeases(After(t, c).leases)
  {
    match c
    case Assign(key, name) => AssignKeepsValid(t, key, name);
    case Remove(key) => ValidAfterRemove(t.leases, key);
    case Restore(item) => RestoreKeepsValid(t, item);
    case RemoveIfRevision(key, _) => ValidAfterRemove(t.leases, key);
  }

  lemma CallKeepsIssued(t: Table, c: Call)
    requires Issued(t) && (c.Assign? ==> t.revision < REVISIONS - 1)
    ensures Issued(After(t, c)) && t.revision <= After(t, c).revision
  {
  }

  /** A new key gets the least free address; its revision is larger than every earlier one unless the counter wraps. */
  lemma AssignFresh(t: Table, key: Key, name: seq<Byte>)
    requires ValidLeases(t.leases) && Issued(t)
    requires key != 0 && key !in t.leases && |t.leases| < CAPACITY
    ensures t.Assign(key, name).1.Ok?
    ensures var (after, item) := (t.Assign(key, name).0, t.Assign(key, name).1.value.lease);
            && after.leases == t.leases[key := item]
            && MemberIP(item.ip)
            && Octet(item.ip) !in Octets(t.leases)
            && (forall o :: 2 <= o < Octet(item.ip) ==> o in Octets(t.leases))
            && (Issued(after) <==> t.revision < REVISIONS - 1)
            && ((forall k :: k in t.leases ==> t.leases[k].revision < item.revision) && item.revision > t.revision
                <==> t.revision < REVISIONS - 1)
  {
    FullIffCapacity(t.leases);
    var after := t.Assign(key, name).0;
    assert after.leases[key].revision == after.revision;
  }

  /**
    * Undoing a rename: Restore brings the lease back exactly when its revision is not 0
    * (or nothing was changed), and then the counter is untouched.
    */
  lemma RestoreUndoesRename(t: Table, key: Key, name: seq<Byte>)
    requires ValidLeases(t.leases) && key in t.leases && t.leases[key].revision <= t.revision
    ensures var previous := t.leases[key];
            t.Assign(key, name).0.Restore(previous).0 == t <==> previous.revision >= 1 || previous.name == name
  {
    var previous := t.leases[key];
    var (renamed, result) := t.Assign(key, name);
    assert renamed.leases[key] == previous.(name := name);
    if previous.revision >= 1 {
      assert renamed.leases[key := previous] == t.leases;
    } else {
      assert renamed.Restore(previous).0 == renamed;
      if previous.name == name {
        assert renamed.leases == t.leases;
      }
    }
  }

  // ----- the allocator -----

  /** One round of the loop in New. */
  lemma ItemsStep(items: seq<Lease>, i: nat)
    requires i < |items| && ValidItems(items[..i])
    ensures ValidItems(items[..i + 1]) <==>
            && MemberIP(items[i].ip) && items[i].publicKey != 0
            && Octet(items[i].ip) !in Octets(ByKey(items[..i])) && items[i].publicKey !in ByKey(items[..i])
  {
    var front, item := items[..i], items[i];
    assert items[..i + 1] == front + [item];
    if ValidItems(front + [item]) {
      ExtensionIsNew(front, item);
    } else if MemberIP(item.ip) && item.publicKey != 0 {
      NotValidItems(front, item);
    }
  }

  lemma ExtensionIsNew(front: seq<Lease>, item: Lease)
    requires ValidItems(front + [item])
    ensures MemberIP(item.ip) && item.publicKey != 0
    ensures Octet(item.ip) !in Octets(ByKey(front)) && item.publicKey !in ByKey(front)
  {
    var items, m := front + [item], ByKey(front);
    assert items[|front|] == item;
    forall k | k in m
      ensures k != item.publicKey && Octet(m[k].ip) != Octet(item.ip)
    {
      ByKeySource(front, k);
      var j :| 0 <= j < |front| && front[j] == m[k] && front[j].publicKey == k;
      assert items[j] == front[j];
      assert items[j].ip != items[|front|].ip;
    }
  }

  lemma NotValidItems(front: seq<Lease>, item: Lease)
    requires ValidItems(front) && !ValidItems(front + [item]) && MemberIP(item.ip) && item.publicKey != 0
    ensures Octet(item.ip) in Octets(ByKey(front)) || item.publicKey in ByKey(front)
  {
    var j :| 0 <= j < |front| && (front[j].ip == item.ip || front[j].publicKey == item.publicKey);
    ByKeyLookup(front, j);
    if front[j].ip == item.ip {
      assert Octet(ByKey(front)[front[j].publicKey].ip) in Octets(ByKey(front));
    }
  }

  lemma ItemsExtend(items: seq<Lease>, i: nat)
    requires i < |items|
    ensures ValidItems(items) ==> ValidItems(items[..i + 1])
    ensures ByKey(items[..i + 1]) == ByKey(items[..i])[items[i].publicKey := items[i]]
    ensures MaxRevision(items[..i + 1]) == Max(items[i].revision, MaxRevision(items[..i]))
  {
    assert items[..i + 1][..i] == items[..i];
  }

  lemma {:induction false} ByKeyLookup(items: seq<Lease>, i: nat)
    requires ValidItems(items) && i < |items|
    ensures items[i].publicKey in ByKey(items) && ByKey(items)[items[i].publicKey] == items[i]
  {
    var front := items[..|items| - 1];
    if i < |items| - 1 {
      ByKeyLookup(front, i);
      assert items[i].publicKey != items[|items| - 1].publicKey;
    }
  }

  class Allocator {
    var byKey: map<Key, Lease>
    const used: array<bool>
    var revision: Revision

    ghost predicate Valid()
      reads this, used
    {
      && used.Length == 256
      && ValidLeases(byKey)
      && forall o :: 0 <= o < 256 ==> (used[o] <==> o in {0, 1, 255} || o in Octets(byKey))
    }

    ghost function Contents(): Table
      reads this
    {
      Table(byKey, revision)
    }

    constructor ()
      ensures Valid() && fresh(used)
      ensures Contents() == Table(map[], 0)
    {
      byKey, revision := map[], 0;
      used := new bool[256](i => i == 0 || i == 1 || i == 255);
      new;
      assert Octets(byKey) == {};
    }

    /** lease.New: None is ErrInvalid. */
    static method New(initial: seq<Lease>) returns (r: Option<Allocator>)
      ensures r.Some? <==> ValidItems(initial)
      ensures r.Some? ==> fresh(r.value) && fresh(r.value.used) && r.value.Valid()
      ensures r.Some? ==> r.value.Contents() == Table(ByKey(initial), MaxRevision(initial))
    {
      var a := new Allocator();
      for i := 0 to |initial|
        invariant fresh(a) && fresh(a.used) && a.Valid()
        invariant ValidItems(initial[..i])
        invariant a.Contents() == Table(ByKey(initial[..i]), MaxRevision(initial[..i]))
      {
        var item := initial[i];
        ItemsStep(initial, i);
        ItemsExtend(initial, i);
        if !MemberIP(item.ip) || item.publicKey == 0 || a.used[Octet(item.ip)] {
          return None;
        }
        if item.publicKey in a.byKey {
          return None;
        }
        a.Claim(item);
        if item.revision > a.revision {
          a.revision := item.revision;
        }
      }
      assert initial[..|initial|] == initial;
      r := Some(a);
    }

    /** Marks the lease's octet and stores it under its key. */
    method Claim(item: Lease)
      requires Valid() && MemberIP(item.ip) && item.publicKey != 0
      requires item.publicKey in byKey ==> byKey[item.publicKey].ip == item.ip
      requires item.publicKey !in byKey ==> Octet(item.ip) !in Octets(byKey)
      modifies this`byKey, used
      ensures Valid()
      ensures byKey == old(byKey)[item.publicKey := item]
    {
      used[Octet(item.ip)] := true;
      ValidAfterPut(byKey, item);
      OctetsAfterPut(byKey, item);
      byKey := byKey[item.publicKey := item];
    }

    method Assign(publicKey: Key, name: seq<Byte>) returns (r: Result<Assigned, Failure>)
      requires Valid()
      modifies this, used
      ensures Valid()
      ensures (Contents(), r) == old(Contents()).Assign(publicKey, name)
    {
      if publicKey == 0 {
        return Err(Invalid);
      }
      if publicKey in byKey {
        var existing := byKey[publicKey];
        if existing.name != name {
          existing := existing.(name := name);
          ValidAfterPut(byKey, existing);
          OctetsAfterPut(byKey, existing);
          byKey := byKey[publicKey := existing];
        }
        assert byKey == old(byKey)[publicKey := existing];
        return Ok(Assigned(existing, false));
      }
      for octet: int := 2 to 255
        invariant forall p :: 2 <= p < octet ==> p in Octets(byKey)
        invariant unchanged(this) && unchanged(used)
      {
        if used[octet] {
          continue;
        }
        assert IsLeastFree(Octets(byKey), octet);
        revision := (revision + 1) % REVISIONS;
        var item := Lease(publicKey, MemberAddr(octet), name, true, revision);
        Claim(item);
        return Ok(Assigned(item, true));
      }
      assert IsLeastFree(Octets(byKey), 255);
      return Err(Full);
    }

    method Remove(publicKey: Key) returns (r: Option<Lease>)
      requires Valid()
      modifies this`byKey, used
      ensures Valid()
      ensures Contents() == old(Contents()).Remove(publicKey)
      ensures r == if publicKey in old(byKey) then Some(old(byKey)[publicKey]) else None
    {
      if publicKey !in byKey {
        assert byKey - {publicKey} == byKey;
        return None;
      }
      var item := byKey[publicKey];
      Release(item);
      return Some(item);
    }

    /** Clears the lease's octet and forgets its key. */
    method Release(item: Lease)
      requires Valid() && item.publicKey in byKey && byKey[item.publicKey] == item
      modifies this`byKey, used
      ensures Valid()
      ensures byKey == old(byKey) - {item.publicKey}
    {
      used[Octet(item.ip)] := false;
      ValidAfterRemove(byKey, item.publicKey);
      OctetsAfterRemove(byKey, item.publicKey);
      byKey := byKey - {item.publicKey};
    }

    method Restore(item: Lease) returns (ok: bool)
      requires Valid()
      modifies this, used
      ensures Valid()
      ensures (Contents(), ok) == old(Contents()).Restore(item)
    {
      if !MemberIP(item.ip) || item.publicKey == 0 || item.revision == 0 {
        return false;
      }
      if item.publicKey in byKey && byKey[item.publicKey].ip != item.ip {
        return false;
      }
      if used[Octet(item.ip)] && (item.publicKey !in byKey || byKey[item.publicKey].ip != item.ip) {
        return false;
      }
      Claim(item);
      if item.revision > revision {
        revision := item.revision;
      }
      return true;
    }

    method RemoveIfRevision(publicKey: Key, expected: Revision) returns (removed: bool)
      requires Valid()
      modifies this`byKey, used
      ensures Valid()
      ensures removed == (publicKey in old(byKey) && old(byKey)[publicKey].revision == expected)
      ensures Contents() == if removed then old(Contents()).Remove(publicKey) else old(Contents())
    {
      if publicKey !in byKey || byKey[publicKey].revision != expected {
        return false;
      }
      Release(byKey[publicKey]);
      return true;
    }

    /** Collects the leases in whatever order the map yields them, kept sorted by address. */
    method Snapshot() returns (result: seq<Lease>)
      requires Valid()
      ensures IsSnapshot(result, byKey)
      ensures result == SnapshotOf(byKey)
    {
      result := [];
      var left := byKey.Keys;
      while left != {}
        invariant left <= byKey.Keys
        invariant IsSnapshot(result, byKey - left)
        decreases left
      {
        var key :| key in left;
        forall k | k in byKey - left
          ensures Octet(byKey[k].ip) != Octet(byKey[key].ip)
        {
          DistinctOctets(byKey, k, key);
        }
        SnapshotInsert(result, byKey - left, byKey[key]);
        result := InsertByIP(result, byKey[key]);
        assert (byKey - left)[key := byKey[key]] == byKey - (left - {key});
        left := left - {key};
      }
      assert byKey - {} == byKey;
      SnapshotUnique(result, SnapshotOf(byKey), byKey);
    }
  }

  /** Inserts one more lease into an address-ordered list. */
  method InsertByIP(sorted: seq<Lease>, item: Lease) returns (result: seq<Lease>)
    ensures result == Inserted(sorted, item)
  {
    var i := 0;
    while i < |sorted| && Octet(sorted[i].ip) < Octet(item.ip)
      invariant 0 <= i <= |sorted|
      invariant forall j :: 0 <= j < i ==> Octet(sorted[j].ip) < Octet(item.ip)
    {
      i := i + 1;
    }
    assert i == Position(sorted, item);
    result := sorted[..i] + [item] + sorted[i..];
  }

  lemma InsertedInOrder(sorted: seq<Lease>, i: nat, item: Lease)
    requires Ascending(sorted) && i <= |sorted|
    requires forall j :: 0 <= j < i ==> Octet(sorted[j].ip) < Octet(item.ip)
    requires i < |sorted| ==> Octet(item.ip) <= Octet(sorted[i].ip)
    requires forall x :: x in sorted ==> Octet(x.ip) != Octet(item.ip)
    ensures Ascending(sorted[..i] + [item] + sorted[i..])
    ensures forall x :: x in sorted[..i] + [item] + sorted[i..] <==> x == item || x in sorted
  {
    assert sorted == sorted[..i] + sorted[i..];
    var result := sorted[..i] + [item] + sorted[i..];
    forall a, b | 0 <= a < b < |result|
      ensures Octet(result[a].ip) < Octet(result[b].ip)
    {
      assert i < |sorted| && i < b - 1 ==> Octet(sorted[i].ip) < Octet(sorted[b - 1].ip);
    }
  }

  lemma OctetsAfterPut(leases: map<Key, Lease>, item: Lease)
    requires item.publicKey in leases ==> leases[item.publicKey].ip == item.ip
    ensures Octets(leases[item.publicKey := item]) == Octets(leases) + {Octet(item.ip)}
  {
    var after := leases[item.publicKey := item];
    forall o | o in Octets(leases) + {Octet(item.ip)}
      ensures o in Octets(after)
    {
      if o == Octet(item.ip) {
        assert item.publicKey in after;
      } else {
        var k :| k in leases && Octet(leases[k].ip) == o;
        assert k in after && Octet(after[k].ip) == o;
      }
    }
  }

  lemma OctetsAfterRemove(leases: map<Key, Lease>, key: Key)
    requires ValidLeases(leases) && key in leases
    ensures Octets(leases - {key}) == Octets(leases) - {Octet(leases[key].ip)}
  {
    var after := leases - {key};
    forall o | o in Octets(leases) && o != Octet(leases[key].ip)
      ensures o in Octets(after)
    {
      var k :| k in leases && Octet(leases[k].ip) == o;
      assert k in after && Octet(after[k].ip) == o;
    }
    forall o | o in Octets(after)
      ensures o in Octets(leases) && o != Octet(leases[key].ip)
    {
      var k :| k in after && Octet(after[k].ip) == o;
      DistinctOctets(leases, k, key);
    }
  }
}
