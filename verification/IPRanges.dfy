/** What an interval index holds after any list of additions, and how the textual lists are read: iptree.go. */
module IPRanges {
  import opened Bytes
  import opened IPTree

  // ----- the stored ranges are a function of the set of added ranges -----

  /** Everything AddIntIP has stored after the additions; a reversed range adds nothing. */
  ghost function Added<V(!new)>(items: seq<Range<V>>): set<Range<V>> {
    if |items| == 0 then {}
    else
      var before, x := Added(items[..|items| - 1]), items[|items| - 1];
      if x.lo <= x.hi then Merged(before, x) else before
  }

  ghost predicate Stored<V>(s: set<Range<V>>, lo: int, hi: int) {
    exists e :: e in s && e.lo == lo && e.hi == hi
  }

  ghost predicate Member<V>(items: seq<Range<V>>, ip: int) {
    exists x :: x in items && x.Has(ip)
  }

  ghost predicate Neighbours<V>(items: seq<Range<V>>, ip: int) {
    exists x :: x in items && x.Links(ip)
  }

  /**
    * [lo, hi] is the hull of a connected component: a maximal run in which some added range holds each two
    * neighbours.
    */
  ghost predicate IsComponent<V>(items: seq<Range<V>>, lo: int, hi: int) {
    && lo <= hi && Member(items, lo)
    && (forall ip :: lo <= ip < hi ==> Neighbours(items, ip))
    && !Neighbours(items, lo - 1) && !Neighbours(items, hi)
  }

  lemma AddedDisjoint<V(!new)>(items: seq<Range<V>>)
    ensures Disjoint(Added(items))
  {
    if |items| > 0 {
      AddedDisjoint(items[..|items| - 1]);
      if items[|items| - 1].lo <= items[|items| - 1].hi {
        MergedDisjoint(Added(items[..|items| - 1]), items[|items| - 1]);
      }
    }
  }

  /** The covered addresses are the union of the added ranges. */
  lemma {:induction false} AddedCovers<V(!new)>(items: seq<Range<V>>, ip: int)
    ensures Covers(Added(items), ip) <==> Member(items, ip)
    ensures Linked(Added(items), ip) <==> Neighbours(items, ip)
  {
    if |items| > 0 {
      var front, x := items[..|items| - 1], items[|items| - 1];
      AddedCovers(front, ip);
      if x.lo <= x.hi {
        MergedCovers(Added(front), x, ip);
      }
      assert items == front + [x];
      assert forall y :: y in items <==> y in front || y == x;
    }
  }

  /** In a set of disjoint ranges each range is a maximal run, and each maximal run is a range. */
  lemma DisjointRuns<V(!new)>(s: set<Range<V>>, lo: int, hi: int)
    requires Disjoint(s)
    ensures Stored(s, lo, hi) <==>
              && lo <= hi && Covers(s, lo)
              && (forall ip :: lo <= ip < hi ==> Linked(s, ip))
              && !Linked(s, lo - 1) && !Linked(s, hi)
  {
    if e :| e in s && e.lo == lo && e.hi == hi {
      assert e.Has(lo) && forall ip :: lo <= ip < hi ==> e.Links(ip);
      forall f | f in s
        ensures !f.Links(lo - 1) && !f.Links(hi)
      {
        assert f != e ==> !Touch(s, e, f);
      }
    } else if lo <= hi && Covers(s, lo) && !Linked(s, lo - 1) && !Linked(s, hi) {
      var e :| e in s && e.Has(lo);
      assert !e.Links(lo - 1) && !e.Links(hi);
      assert e.hi < hi;
      forall f | f in s
        ensures !f.Links(e.hi)
      {
        assert f != e ==> !Touch(s, e, f);
      }
      assert !Linked(s, e.hi);
    }
  }

  /** Main result: the stored ranges are exactly the hulls of the connected components of what was added. */
  lemma StoredAreComponents<V(!new)>(items: seq<Range<V>>, lo: int, hi: int)
    ensures Stored(Added(items), lo, hi) <==> IsComponent(items, lo, hi)
  {
    AddedDisjoint(items);
    DisjointRuns(Added(items), lo, hi);
    forall ip
      ensures Covers(Added(items), ip) <==> Member(items, ip)
      ensures Linked(Added(items), ip) <==> Neighbours(items, ip)
    {
      AddedCovers(items, ip);
    }
  }

  /** Main result: neither the order of the additions nor repeating them changes a stored range. */
  lemma OrderDoesNotMatter<V(!new)>(items: seq<Range<V>>, others: seq<Range<V>>, lo: int, hi: int)
    requires forall x :: x in items <==> x in others
    ensures Stored(Added(items), lo, hi) <==> Stored(Added(others), lo, hi)
  {
    StoredAreComponents(items, lo, hi);
    StoredAreComponents(others, lo, hi);
    assert forall ip :: Neighbours(items, ip) <==> Neighbours(others, ip);
  }

  // ----- the same components, by chains of overlapping ranges -----

  /** Consecutive ranges of the chain overlap. */
  ghost predicate IsChain<V>(items: seq<Range<V>>, p: seq<Range<V>>) {
    && |p| > 0
    && (forall i :: 0 <= i < |p| ==> p[i] in items && p[i].lo <= p[i].hi)
    && forall i :: 0 <= i < |p| - 1 ==> p[i].Overlaps(p[i + 1])
  }

  lemma InsideOne<V(!new)>(items: seq<Range<V>>, x: Range<V>)
    requires x in items && x.lo <= x.hi
    ensures exists e :: e in Added(items) && e.Contains(x)
  {
    AddedDisjoint(items);
    AddedCovers(items, x.lo);
    assert x.Has(x.lo);
    var e :| e in Added(items) && e.Has(x.lo);
    if e.hi < x.hi {
      AddedCovers(items, e.hi);
      assert x.Links(e.hi);
      var f :| f in Added(items) && f.Links(e.hi);
      assert Touch(Added(items), e, f);
    }
    assert e.Contains(x);
  }

  lemma {:induction false} ChainStaysInside<V(!new)>(items: seq<Range<V>>, p: seq<Range<V>>, e: Range<V>)
    requires IsChain(items, p) && e in Added(items) && e.Contains(p[0])
    ensures e.Contains(p[|p| - 1])
    decreases |p|
  {
    if |p| > 1 {
      AddedDisjoint(items);
      InsideOne(items, p[1]);
      var f :| f in Added(items) && f.Contains(p[1]);
      assert p[0].Overlaps(p[1]);
      assert Touch(Added(items), e, f);
      ChainStaysInside(items, p[1..], e);
    }
  }

  lemma {:induction false} ChainInside<V(!new)>(items: seq<Range<V>>, x: Range<V>, y: Range<V>, e: Range<V>)
    returns (p: seq<Range<V>>)
    requires x in items && y in items && x.lo <= x.hi && y.lo <= y.hi && x.lo <= y.hi
    requires e in Added(items) && e.Contains(x) && e.Contains(y)
    ensures IsChain(items, p) && p[0] == x && p[|p| - 1] == y
    decreases y.lo - x.hi
  {
    if y.lo <= x.hi {
      p := [x, y];
    } else {
      assert e.Links(x.hi);
      AddedCovers(items, x.hi);
      var z :| z in items && z.Links(x.hi);
      InsideOne(items, z);
      var f :| f in Added(items) && f.Contains(z);
      AddedDisjoint(items);
      assert Touch(Added(items), e, f);
      var q := ChainInside(items, z, y, e);
      p := [x] + q;
    }
  }

  ghost predicate Joined<V(!new)>(items: seq<Range<V>>, x: Range<V>, y: Range<V>) {
    exists p :: IsChain(items, p) && ((p[0] == x && p[|p| - 1] == y) || (p[0] == y && p[|p| - 1] == x))
  }

  /**
    * Main result: two added ranges end up in one stored range exactly when a chain of overlapping added
    * ranges joins them.
    */
  lemma SharedIffJoined<V(!new)>(items: seq<Range<V>>, x: Range<V>, y: Range<V>)
    requires x in items && y in items && x.lo <= x.hi && y.lo <= y.hi
    ensures (exists e :: e in Added(items) && e.Contains(x) && e.Contains(y)) <==> Joined(items, x, y)
  {
    if e :| e in Added(items) && e.Contains(x) && e.Contains(y) {
      if x.lo <= y.hi {
        var p := ChainInside(items, x, y, e);
      } else {
        var p := ChainInside(items, y, x, e);
      }
    }
    if p :| IsChain(items, p) && ((p[0] == x && p[|p| - 1] == y) || (p[0] == y && p[|p| - 1] == x)) {
      InsideOne(items, p[0]);
      var e :| e in Added(items) && e.Contains(p[0]);
      ChainStaysInside(items, p, e);
    }
  }

  // ----- address lists -----

  /** What net.ParseIP and net.ParseCIDR make of one item; bytes are 4, 16, or none for text that is no address. */
  datatype Entry =
    | BadCidr
    | Cidr(ip: seq<Byte>, prefix: nat)
    | Between(first: seq<Byte>, last: seq<Byte>)
    | Single(ip: seq<Byte>)

  predicate ValidEntry(e: Entry) {
    e.Cidr? ==> (|e.ip| == 4 || |e.ip| == 16) && e.prefix <= 8 * |e.ip|
  }

  /** net.IP.To4: four bytes, or sixteen that are an IPv4 address mapped into IPv6. */
  function To4(ip: seq<Byte>): (r: Option<seq<Byte>>)
    ensures r.Some? ==> |r.value| == 4
  {
    if |ip| == 4 then Some(ip)
    else if |ip| == 16 && (forall i :: 0 <= i < 10 ==> ip[i] == 0) && ip[10] == 255 && ip[11] == 255 then Some(ip[12..])
    else None
  }

  /** The number Add works with: 0 for anything that is not an IPv4 address. */
  function IntOf(ip: seq<Byte>): Ip {
    match To4(ip)
    case None => 0
    case Some(b) => BEOfBytes(b); Widths(); FromBE(b)
  }

  /** How many values the host bits of byte `i` can take. */
  function Width(prefix: nat, i: nat): (w: int) {
    var fixedBits := prefix - 8 * i;
    if fixedBits <= 0 then 256
    else if fixedBits == 1 then 128
    else if fixedBits == 2 then 64
    else if fixedBits == 3 then 32
    else if fixedBits == 4 then 16
    else if fixedBits == 5 then 8
    else if fixedBits == 6 then 4
    else if fixedBits == 7 then 2
    else 1
  }

  /** The host bits cleared: ip under the mask. */
  function Floor(ip: seq<Byte>, prefix: nat): (r: seq<Byte>)
    ensures |r| == |ip|
  {
    if |ip| == 0 then [] else Floor(ip[..|ip| - 1], prefix) + [LowByte(ip[|ip| - 1], Width(prefix, |ip| - 1))]
  }

  /** The host bits set. */
  function Ceiling(ip: seq<Byte>, prefix: nat): (r: seq<Byte>)
    ensures |r| == |ip|
  {
    if |ip| == 0 then [] else Ceiling(ip[..|ip| - 1], prefix) + [HighByte(ip[|ip| - 1], Width(prefix, |ip| - 1))]
  }

  function LowByte(b: Byte, w: int): Byte
    requires w in {1, 2, 4, 8, 16, 32, 64, 128, 256}
  {
    b / w * w
  }

  function HighByte(b: Byte, w: int): Byte
    requires w in {1, 2, 4, 8, 16, 32, 64, 128, 256}
  {
    b / w * w + (w - 1)
  }

  /** calculateMaxIP: a copy with every host bit set. */
  method CalculateMaxIP(ip: array<Byte>, prefix: nat) returns (maxIP: array<Byte>)
    ensures fresh(maxIP) && maxIP[..] == Ceiling(ip[..], prefix)
  {
    maxIP := new Byte[ip.Length](i requires 0 <= i < ip.Length reads ip => ip[i]);
    for i := 0 to maxIP.Length
      invariant maxIP[..i] == Ceiling(ip[..i], prefix)
      invariant forall j :: i <= j < maxIP.Length ==> maxIP[j] == ip[j]
    {
      maxIP[i] := HighByte(maxIP[i], Width(prefix, i));
      assert ip[..i + 1][..i] == ip[..i];
    }
    assert ip[..ip.Length] == ip[..];
  }

  /** Main result: a CIDR block is exactly the addresses that agree with its base under the mask. */
  lemma {:induction false} CidrIsMask(ip: seq<Byte>, prefix: nat, a: seq<Byte>)
    requires |a| == |ip|
    ensures FromBE(Floor(ip, prefix)) <= FromBE(a) <= FromBE(Ceiling(ip, prefix))
            <==> Floor(a, prefix) == Floor(ip, prefix)
  {
    if |ip| > 0 {
      var n := |ip| - 1;
      var front, afront := ip[..n], a[..n];
      CidrIsMask(front, prefix, afront);
      assert Floor(a, prefix)[..n] == Floor(afront, prefix) && Floor(ip, prefix)[..n] == Floor(front, prefix);
      assert Ceiling(ip, prefix)[..n] == Ceiling(front, prefix);
      if Width(prefix, n) < 256 {
        FullBytes(front, prefix);
        FullBytes(afront, prefix);
        SameNumber(front, afront);
        FixedByte(FromBE(front), FromBE(afront), ip[n], a[n], Width(prefix, n));
      } else {
        FreeByte(FromBE(Floor(front, prefix)), FromBE(Ceiling(front, prefix)), FromBE(afront), ip[n], a[n]);
      }
    }
  }

  lemma SameNumber(a: seq<Byte>, b: seq<Byte>)
    requires |a| == |b|
    ensures FromBE(a) == FromBE(b) <==> a == b
  {
    BEOfBytes(a);
    BEOfBytes(b);
  }

  lemma FixedByte(front: nat, other: nat, b: Byte, x: Byte, w: int)
    requires w in {1, 2, 4, 8, 16, 32, 64, 128, 256}
    ensures 256 * front + LowByte(b, w) <= 256 * other + x <= 256 * front + HighByte(b, w)
            <==> other == front && LowByte(x, w) == LowByte(b, w)
  {
    SameBlock(b, x, w);
  }

  lemma FreeByte(low: nat, high: nat, other: nat, b: Byte, x: Byte)
    ensures LowByte(b, 256) == LowByte(x, 256)
    ensures 256 * low + LowByte(b, 256) <= 256 * other + x <= 256 * high + HighByte(b, 256) <==> low <= other <= high
  {
  }

  lemma SameBlock(b: Byte, x: Byte, w: int)
    requires w in {1, 2, 4, 8, 16, 32, 64, 128, 256}
    ensures LowByte(b, w) <= x <= HighByte(b, w) <==> LowByte(x, w) == LowByte(b, w)
  {
    SameQuotient(b, x, w);
  }

  lemma SameQuotient(b: nat, x: nat, w: nat)
    requires w > 0
    ensures b / w * w <= x <= b / w * w + (w - 1) <==> x / w * w == b / w * w
  {
    var q, r := x / w, b / w;
    assert x == q * w + x % w;
    if q < r {
      assert (q + 1) * w <= r * w;
    } else if q > r {
      assert (r + 1) * w <= q * w;
    }
  }

  lemma {:induction false} FullBytes(ip: seq<Byte>, prefix: nat)
    requires prefix >= 8 * |ip|
    ensures Floor(ip, prefix) == ip == Ceiling(ip, prefix)
  {
    if |ip| > 0 {
      FullBytes(ip[..|ip| - 1], prefix);
    }
  }

  /** The range NewIPTree adds for an entry. */
  function RangeOf(e: Entry): Option<Range<()>> {
    match e
    case BadCidr => None
    case Cidr(ip, prefix) => Some(Range(IntOf(Floor(ip, prefix)), IntOf(Ceiling(ip, prefix)), ()))
    case Between(first, last) => Some(Range(IntOf(first), IntOf(last), ()))
    case Single(ip) => Some(Range(IntOf(ip), IntOf(ip), ()))
  }

  function RangesOf(entries: seq<Entry>): seq<Range<()>> {
    if |entries| == 0 then []
    else
      var before, r := RangesOf(entries[..|entries| - 1]), RangeOf(entries[|entries| - 1]);
      if r.Some? then before + [r.value] else before
  }

  method NewIPTree(entries: seq<Entry>) returns (t: IPTree<()>)
    requires forall i :: 0 <= i < |entries| ==> ValidEntry(entries[i])
    ensures fresh(t) && t.Valid()
    ensures Entries(t.tree) == Added(RangesOf(entries))
  {
    t := new IPTree<()>();
    for i := 0 to |entries|
      invariant fresh(t) && t.Valid()
      invariant Entries(t.tree) == Added(RangesOf(entries[..i]))
    {
      assert entries[..i + 1][..i] == entries[..i];
      var r := RangeOf(entries[i]);
      if r.Some? {
        var _ := t.AddIntIP(r.value.lo, r.value.hi, ());
        assert (RangesOf(entries[..i]) + [r.value])[..|RangesOf(entries[..i])|] == RangesOf(entries[..i]);
      }
    }
    assert entries[..|entries|] == entries;
  }

  /** Which addresses an entry stands for. */
  ghost predicate EntryHas(e: Entry, a: seq<Byte>)
    requires |a| == 4
  {
    match e
    case BadCidr => false
    case Cidr(ip, prefix) =>
      if |ip| == 4 then Floor(a, prefix) == Floor(ip, prefix)
      else IntOf(Floor(ip, prefix)) <= FromBE(a) <= IntOf(Ceiling(ip, prefix))
    case Between(first, last) => IntOf(first) <= FromBE(a) <= IntOf(last)
    case Single(ip) => To4(ip) == Some(a) || (To4(ip).None? && a == [0, 0, 0, 0])
  }

  lemma EntryHasRange(e: Entry, a: seq<Byte>)
    requires |a| == 4
    ensures EntryHas(e, a) <==> RangeOf(e).Some? && RangeOf(e).value.Has(FromBE(a))
  {
    BEOfBytes(a);
    match e
    case Cidr(ip, prefix) =>
      if |ip| == 4 {
        CidrIsMask(ip, prefix, a);
      }
    case Single(ip) =>
      if To4(ip).Some? {
        BEOfBytes(To4(ip).value);
      } else {
        BEOfBytes([0, 0, 0, 0]);
        ZeroAddress();
      }
    case _ =>
  }

  lemma ZeroAddress()
    ensures FromBE([0, 0, 0, 0]) == 0
  {
    assert [0, 0, 0, 0][..3] == [0, 0, 0] && [0, 0, 0][..2] == [0, 0] && [0, 0][..1] == [0];
    assert FromBE([0]) == 0 && FromBE([0, 0]) == 0 && FromBE([0, 0, 0]) == 0;
  }

  /** Main result: the index built from a list contains an address exactly when some entry stands for it. */
  lemma {:induction false} ListCovers(entries: seq<Entry>, a: seq<Byte>)
    requires |a| == 4
    ensures Covers(Added(RangesOf(entries)), FromBE(a)) <==> exists i :: 0 <= i < |entries| && EntryHas(entries[i], a)
  {
    AddedCovers(RangesOf(entries), FromBE(a));
    RangesMember(entries, a);
  }

  lemma {:induction false} RangesMember(entries: seq<Entry>, a: seq<Byte>)
    requires |a| == 4
    ensures Member(RangesOf(entries), FromBE(a)) <==> exists i :: 0 <= i < |entries| && EntryHas(entries[i], a)
  {
    if |entries| > 0 {
      var front, e := entries[..|entries| - 1], entries[|entries| - 1];
      RangesMember(front, a);
      EntryHasRange(e, a);
      assert forall i :: 0 <= i < |front| ==> entries[i] == front[i];
      if RangeOf(e).Some? {
        assert forall x :: x in RangesOf(entries) <==> x in RangesOf(front) || x == RangeOf(e).value;
      }
    }
  }
}
