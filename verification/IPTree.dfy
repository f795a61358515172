/** The interval index: internal/openp2pengine/iptree.go. */
module IPTree {
  import opened Bytes

  type Ip = i: int | 0 <= i < 0x1_0000_0000

  datatype Range<V> = Range(lo: Ip, hi: Ip, v: V) {
    predicate Has(ip: int) {
      lo <= ip <= hi
    }

    /** Both ip and its successor. */
    predicate Links(ip: int) {
      lo <= ip < hi
    }

    predicate Contains(r: Range<V>) {
      lo <= r.lo && r.hi <= hi
    }

    predicate Overlaps(r: Range<V>) {
      lo <= r.hi && r.lo <= hi
    }
  }

  /** A search tree on the lower ends. How the program's tree is balanced makes no difference to it. */
  datatype Tree<V> = Leaf | Node(left: Tree<V>, range: Range<V>, right: Tree<V>)

  ghost function Entries<V>(t: Tree<V>): set<Range<V>> {
    if t.Leaf? then {} else Entries(t.left) + {t.range} + Entries(t.right)
  }

  /** Stored ranges are not empty, do not overlap, and lie in order. */
  ghost predicate Ordered<V>(t: Tree<V>) {
    t.Node? ==>
      && Ordered(t.left) && Ordered(t.right)
      && t.range.lo <= t.range.hi
      && (forall e :: e in Entries(t.left) ==> e.hi < t.range.lo)
      && (forall e :: e in Entries(t.right) ==> t.range.hi < e.lo)
  }

  ghost predicate Disjoint<V(!new)>(s: set<Range<V>>) {
    && (forall e :: e in s ==> e.lo <= e.hi)
    && (forall e, f :: Touch(s, e, f) ==> e == f)
  }

  ghost predicate Touch<V>(s: set<Range<V>>, e: Range<V>, f: Range<V>) {
    e in s && f in s && e.Overlaps(f)
  }

  lemma {:induction false} OrderedDisjoint<V(!new)>(t: Tree<V>)
    requires Ordered(t)
    ensures Disjoint(Entries(t))
  {
    if t.Node? {
      OrderedDisjoint(t.left);
      OrderedDisjoint(t.right);
      forall e, f | Touch(Entries(t), e, f)
        ensures e == f
      {
        if e in Entries(t.left) && f in Entries(t.left) {
          assert Touch(Entries(t.left), e, f);
        } else if e in Entries(t.right) && f in Entries(t.right) {
          assert Touch(Entries(t.right), e, f);
        }
      }
    }
  }

  // ----- the tree's own operations -----

  function Put<V>(t: Tree<V>, r: Range<V>): Tree<V> {
    if t.Leaf? then Node(Leaf, r, Leaf)
    else if r.lo < t.range.lo then t.(left := Put(t.left, r))
    else if r.lo == t.range.lo then t.(range := r)
    else t.(right := Put(t.right, r))
  }

  lemma {:induction false} PutEntries<V>(t: Tree<V>, r: Range<V>)
    requires Ordered(t) && r.lo <= r.hi && forall e :: e in Entries(t) ==> !e.Overlaps(r)
    ensures Ordered(Put(t, r)) && Entries(Put(t, r)) == Entries(t) + {r}
  {
    if t.Node? {
      assert t.range in Entries(t);
      if r.lo < t.range.lo {
        PutEntries(t.left, r);
      } else {
        PutEntries(t.right, r);
      }
    }
  }

  function First<V>(t: Tree<V>): Range<V>
    requires t.Node?
  {
    if t.left.Leaf? then t.range else First(t.left)
  }

  function RemoveFirst<V>(t: Tree<V>): Tree<V>
    requires t.Node?
  {
    if t.left.Leaf? then t.right else t.(left := RemoveFirst(t.left))
  }

  function Remove<V>(t: Tree<V>, lo: Ip): Tree<V> {
    if t.Leaf? then Leaf
    else if lo < t.range.lo then t.(left := Remove(t.left, lo))
    else if lo > t.range.lo then t.(right := Remove(t.right, lo))
    else Join(t.left, t.right)
  }

  lemma {:induction false} RemoveFirstEntries<V>(t: Tree<V>)
    requires Ordered(t) && t.Node?
    ensures First(t) in Entries(t) && Ordered(RemoveFirst(t))
    ensures Entries(RemoveFirst(t)) == Entries(t) - {First(t)}
    ensures forall e :: e in Entries(RemoveFirst(t)) ==> First(t).hi < e.lo
    ensures First(t).lo <= First(t).hi
  {
    if t.left.Node? {
      RemoveFirstEntries(t.left);
    }
  }

  lemma {:induction false} EntryNotEmpty<V>(t: Tree<V>, r: Range<V>)
    requires Ordered(t) && r in Entries(t)
    ensures r.lo <= r.hi
  {
    if r in Entries(t.left) {
      EntryNotEmpty(t.left, r);
    } else if r in Entries(t.right) {
      EntryNotEmpty(t.right, r);
    }
  }

  /** Two ordered trees, one before the other, joined as Remove joins them. */
  function Join<V>(left: Tree<V>, right: Tree<V>): Tree<V> {
    if right.Leaf? then left else Node(left, First(right), RemoveFirst(right))
  }

  lemma JoinEntries<V>(left: Tree<V>, right: Tree<V>, ip: int)
    requires Ordered(left) && Ordered(right)
    requires forall e :: e in Entries(left) ==> e.hi < ip
    requires forall e :: e in Entries(right) ==> ip < e.lo
    ensures Ordered(Join(left, right)) && Entries(Join(left, right)) == Entries(left) + Entries(right)
  {
    if right.Node? {
      var first, rest := First(right), RemoveFirst(right);
      RemoveFirstEntries(right);
      assert Entries(right) == Entries(rest) + {first};
      assert Join(left, right) == Node(left, first, rest);
    }
  }

  lemma RemoveRootEntries<V>(t: Tree<V>)
    requires Ordered(t) && t.Node?
    ensures Ordered(Remove(t, t.range.lo)) && Entries(Remove(t, t.range.lo)) == Entries(t) - {t.range}
  {
    var left, right, r := t.left, t.right, t.range;
    JoinEntries(left, right, r.lo);
    assert r !in Entries(left) && r !in Entries(right);
    assert Entries(left) + {r} + Entries(right) - {r} == Entries(left) + Entries(right);
  }

  lemma {:induction false} RemoveEntries<V>(t: Tree<V>, r: Range<V>)
    requires Ordered(t) && r in Entries(t)
    ensures Ordered(Remove(t, r.lo)) && Entries(Remove(t, r.lo)) == Entries(t) - {r}
  {
    EntryNotEmpty(t, r);
    if r in Entries(t.left) {
      RemoveEntries(t.left, r);
    } else if r in Entries(t.right) {
      RemoveEntries(t.right, r);
    } else {
      RemoveRootEntries(t);
    }
  }

  // ----- what adding a range means -----

  ghost function Touching<V>(s: set<Range<V>>, x: Range<V>): set<Range<V>> {
    set e | e in s && e.Overlaps(x)
  }

  /** The smallest range around `x` and every stored range that overlaps it. */
  ghost predicate IsHull<V>(s: set<Range<V>>, x: Range<V>, h: Range<V>) {
    && h.Contains(x) && h.v == x.v
    && (forall e :: e in Touching(s, x) ==> h.Contains(e))
    && (h.lo == x.lo || exists e :: e in Touching(s, x) && e.lo == h.lo)
    && (h.hi == x.hi || exists e :: e in Touching(s, x) && e.hi == h.hi)
  }

  lemma {:induction false} HullExists<V>(s: set<Range<V>>, x: Range<V>)
    ensures exists h :: IsHull(s, x, h)
    decreases s
  {
    if s == {} {
      assert IsHull(s, x, x);
    } else {
      var e :| e in s;
      HullExists(s - {e}, x);
      var h :| IsHull(s - {e}, x, h);
      assert forall f :: f in Touching(s, x) ==> f == e || f in Touching(s - {e}, x);
      assert forall f :: f in Touching(s - {e}, x) ==> f in Touching(s, x);
      if e.Overlaps(x) {
        var wide := Range(if e.lo < h.lo then e.lo else h.lo, if h.hi < e.hi then e.hi else h.hi, x.v);
        assert e in Touching(s, x);
        assert IsHull(s, x, wide);
      } else {
        assert IsHull(s, x, h);
      }
    }
  }

  ghost function Hull<V(!new)>(s: set<Range<V>>, x: Range<V>): (h: Range<V>)
    ensures IsHull(s, x, h)
  {
    HullExists(s, x);
    var h :| IsHull(s, x, h);
    h
  }

  lemma HullUnique<V>(s: set<Range<V>>, x: Range<V>, g: Range<V>, h: Range<V>)
    requires IsHull(s, x, g) && IsHull(s, x, h)
    ensures g == h
  {
  }

  ghost predicate Absorbs<V(!new)>(s: set<Range<V>>, x: Range<V>) {
    exists e :: e in s && e.Contains(x)
  }

  /** Nothing new if a stored range contains `x`; otherwise the ranges it overlaps become one. */
  ghost function Merged<V(!new)>(s: set<Range<V>>, x: Range<V>): set<Range<V>> {
    if Absorbs(s, x) then s else s - Touching(s, x) + {Hull(s, x)}
  }

  lemma HullMeetsOnlyTouching<V(!new)>(s: set<Range<V>>, x: Range<V>, e: Range<V>)
    requires Disjoint(s) && e in s && x.lo <= x.hi && e.Overlaps(Hull(s, x))
    ensures e.Overlaps(x)
  {
    var h := Hull(s, x);
    if e.hi < x.lo {
      var f :| f in Touching(s, x) && f.lo == h.lo;
      assert Touch(s, e, f);
    } else if x.hi < e.lo {
      var f :| f in Touching(s, x) && f.hi == h.hi;
      assert Touch(s, e, f);
    }
  }

  lemma MergedDisjoint<V(!new)>(s: set<Range<V>>, x: Range<V>)
    requires Disjoint(s) && x.lo <= x.hi
    ensures Disjoint(Merged(s, x))
  {
    var after, h := Merged(s, x), Hull(s, x);
    forall e, f | Touch(after, e, f)
      ensures e == f
    {
      if e in s && f in s {
        assert Touch(s, e, f);
      } else if e in s && f == h {
        HullMeetsOnlyTouching(s, x, e);
      } else if f in s && e == h {
        HullMeetsOnlyTouching(s, x, f);
      }
    }
  }

  ghost predicate Covers<V>(s: set<Range<V>>, ip: int) {
    exists e :: e in s && e.Has(ip)
  }

  ghost predicate Linked<V>(s: set<Range<V>>, ip: int) {
    exists e :: e in s && e.Links(ip)
  }

  /** Adding a range covers its addresses and links its neighbours, and changes nothing else. */
  lemma MergedCovers<V(!new)>(s: set<Range<V>>, x: Range<V>, ip: int)
    requires x.lo <= x.hi
    ensures Covers(Merged(s, x), ip) <==> Covers(s, ip) || x.Has(ip)
    ensures Linked(Merged(s, x), ip) <==> Linked(s, ip) || x.Links(ip)
  {
    if !Absorbs(s, x) {
      var h, after := Hull(s, x), Merged(s, x);
      HullCovers(s, x, ip);
      assert h in after;
      assert forall e :: e in s ==> e in after || (e in Touching(s, x) && h.Contains(e));
      assert forall e :: e in after ==> e in s || e == h;
    }
  }

  lemma HullCovers<V(!new)>(s: set<Range<V>>, x: Range<V>, ip: int)
    requires x.lo <= x.hi
    ensures Hull(s, x).Has(ip) ==> Covers(s, ip) || x.Has(ip)
    ensures Hull(s, x).Links(ip) ==> Linked(s, ip) || x.Links(ip)
  {
    var h := Hull(s, x);
    if h.lo <= ip < x.lo {
      var e :| e in Touching(s, x) && e.lo == h.lo;
      assert e.Has(ip) && e.Links(ip);
    } else if x.hi <= ip <= h.hi && h.hi != x.hi {
      var e :| e in Touching(s, x) && e.hi == h.hi;
      assert e.Has(ip) && (ip < h.hi ==> e.Links(ip));
    }
  }

  // ----- the tree the program keeps -----

  class IPTree<V(!new)> {
    var tree: Tree<V>

    ghost predicate Valid()
      reads this
    {
      Ordered(tree)
    }

    constructor ()
      ensures Valid() && Entries(tree) == {}
    {
      tree := Leaf;
    }

    /** Walks down from the root; each overlapping range is taken out, merged, and the walk starts again. */
    method AddIntIP(minIP: Ip, maxIP: Ip, v: V) returns (ok: bool)
      requires Valid()
      modifies this
      ensures Valid()
      ensures ok == (minIP <= maxIP)
      ensures Entries(tree) == if ok then Merged(old(Entries(tree)), Range(minIP, maxIP, v)) else old(Entries(tree))
    {
      if minIP > maxIP {
        return false;
      }
      ghost var before, x := Entries(tree), Range(minIP, maxIP, v);
      WalkStarts(tree, x);
      var newMinIP, newMaxIP := minIP, maxIP;
      var cur := tree;
      ghost var removed: set<Range<V>> := {};
      while cur.Node?
        invariant Walk(before, x, removed, tree, cur, newMinIP, newMaxIP)
        decreases |Entries(tree)|, cur
      {
        var curMinIP, curMaxIP := cur.range.lo, cur.range.hi;
        if newMinIP >= curMinIP && newMaxIP <= curMaxIP {
          WalkContained(before, x, removed, tree, cur, newMinIP, newMaxIP);
          return true;
        }
        if newMinIP > curMaxIP {
          WalkDown(before, x, removed, tree, cur, newMinIP, newMaxIP);
          cur := cur.right;
          continue;
        }
        if newMaxIP < curMinIP {
          WalkDown(before, x, removed, tree, cur, newMinIP, newMaxIP);
          cur := cur.left;
          continue;
        }
        WalkRemoves(before, x, removed, tree, cur, newMinIP, newMaxIP);
        removed := removed + {cur.range};
        tree := Remove(tree, curMinIP);
        if curMinIP < newMinIP {
          newMinIP := curMinIP;
        }
        if curMaxIP > newMaxIP {
          newMaxIP := curMaxIP;
        }
        cur := tree;
      }
      WalkEnds(before, x, removed, tree, cur, newMinIP, newMaxIP);
      tree := Put(tree, Range(newMinIP, newMaxIP, v));
      return true;
    }

    method Load(ip: Ip) returns (r: Option<V>)
      requires Valid()
      ensures r.Some? ==> exists e :: e in Entries(tree) && e.Has(ip) && e.v == r.value
      ensures r.Some? <==> Covers(Entries(tree), ip)
    {
      var n := tree;
      while n.Node?
        invariant Ordered(n) && Entries(n) <= Entries(tree)
        invariant forall e :: e in Entries(tree) && e.Has(ip) ==> e in Entries(n)
        decreases n
      {
        assert n.range in Entries(n);
        if n.range.lo <= ip <= n.range.hi {
          return Some(n.range.v);
        } else if ip < n.range.lo {
          n := n.left;
        } else {
          n := n.right;
        }
      }
      return None;
    }
  }

  /** What the walk has taken out so far overlaps `x` without containing it, and [lo, hi] is the hull of both. */
  ghost predicate Grown<V>(x: Range<V>, removed: set<Range<V>>, lo: Ip, hi: Ip) {
    && lo <= x.lo <= x.hi <= hi
    && (forall e :: e in removed ==> e.Overlaps(x) && !e.Contains(x) && lo <= e.lo && e.hi <= hi)
    && (lo == x.lo || exists e :: e in removed && e.lo == lo)
    && (hi == x.hi || exists e :: e in removed && e.hi == hi)
  }

  /** The walk's invariant: whatever still overlaps [lo, hi] is below `cur`. */
  ghost predicate Walk<V(!new)>(before: set<Range<V>>, x: Range<V>, removed: set<Range<V>>, tree: Tree<V>,
                                cur: Tree<V>, lo: Ip, hi: Ip) {
    && Disjoint(before) && removed <= before && Grown(x, removed, lo, hi)
    && Ordered(tree) && Entries(tree) == before - removed
    && Ordered(cur) && Entries(cur) <= Entries(tree)
    && forall e :: e in Entries(tree) && e.Overlaps(Range(lo, hi, x.v)) ==> e in Entries(cur)
  }

  lemma WalkStarts<V(!new)>(tree: Tree<V>, x: Range<V>)
    requires Ordered(tree) && x.lo <= x.hi
    ensures Walk(Entries(tree), x, {}, tree, tree, x.lo, x.hi)
  {
    OrderedDisjoint(tree);
  }

  lemma WalkDown<V(!new)>(before: set<Range<V>>, x: Range<V>, removed: set<Range<V>>, tree: Tree<V>, cur: Tree<V>,
                          lo: Ip, hi: Ip)
    requires Walk(before, x, removed, tree, cur, lo, hi) && cur.Node?
    ensures lo > cur.range.hi ==> Walk(before, x, removed, tree, cur.right, lo, hi)
    ensures hi < cur.range.lo ==> Walk(before, x, removed, tree, cur.left, lo, hi)
  {
  }

  lemma WalkEnds<V(!new)>(before: set<Range<V>>, x: Range<V>, removed: set<Range<V>>, tree: Tree<V>, cur: Tree<V>,
                          lo: Ip, hi: Ip)
    requires Walk(before, x, removed, tree, cur, lo, hi) && cur.Leaf?
    ensures var after := Put(tree, Range(lo, hi, x.v));
            Ordered(after) && Entries(after) == Merged(before, x)
  {
    GrownIsHull(before, x, removed, lo, hi);
    PutEntries(tree, Range(lo, hi, x.v));
  }

  /** The early return never follows a removal. */
  lemma WalkContained<V(!new)>(before: set<Range<V>>, x: Range<V>, removed: set<Range<V>>, tree: Tree<V>, cur: Tree<V>,
                               lo: Ip, hi: Ip)
    requires Walk(before, x, removed, tree, cur, lo, hi) && cur.Node? && cur.range.lo <= lo && hi <= cur.range.hi
    ensures Entries(tree) == before == Merged(before, x)
  {
    var r := cur.range;
    assert r in Entries(cur);
    if e :| e in removed {
      assert Touch(before, e, r);
    }
    assert r.Contains(x);
  }

  lemma WalkRemoves<V(!new)>(before: set<Range<V>>, x: Range<V>, removed: set<Range<V>>, tree: Tree<V>, cur: Tree<V>,
                             lo: Ip, hi: Ip)
    requires Walk(before, x, removed, tree, cur, lo, hi) && cur.Node? && cur.range.lo <= hi && lo <= cur.range.hi
    requires !(cur.range.lo <= lo && hi <= cur.range.hi)
    ensures var r, after := cur.range, Remove(tree, cur.range.lo);
            && Walk(before, x, removed + {r}, after, after, if r.lo < lo then r.lo else lo,
               if r.hi > hi then r.hi else hi)
            && |Entries(after)| < |Entries(tree)|
  {
    var r := cur.range;
    assert r in Entries(cur);
    GrownMore(before, x, removed, lo, hi, r);
    RemoveEntries(tree, r);
    EntriesLeft(before, removed, r);
  }

  lemma EntriesLeft<V>(before: set<Range<V>>, removed: set<Range<V>>, r: Range<V>)
    requires r in before - removed
    ensures before - removed - {r} == before - (removed + {r})
    ensures |before - (removed + {r})| < |before - removed|
  {
    assert before - removed - {r} == before - (removed + {r});
  }

  lemma GrownMore<V(!new)>(before: set<Range<V>>, x: Range<V>, removed: set<Range<V>>, lo: Ip, hi: Ip, r: Range<V>)
    requires Disjoint(before) && removed <= before && Grown(x, removed, lo, hi)
    requires r in before - removed && r.lo <= hi && lo <= r.hi && !(r.lo <= lo && hi <= r.hi)
    ensures Grown(x, removed + {r}, if r.lo < lo then r.lo else lo, if r.hi > hi then r.hi else hi)
  {
    if e :| e in removed && e.lo == lo {
      assert !Touch(before, e, r);
    }
    if e :| e in removed && e.hi == hi {
      assert !Touch(before, e, r);
    }
    assert r in removed + {r};
    assert forall e :: e in removed ==> e in removed + {r};
  }

  lemma GrownIsHull<V(!new)>(before: set<Range<V>>, x: Range<V>, removed: set<Range<V>>, lo: Ip, hi: Ip)
    requires removed <= before && Grown(x, removed, lo, hi)
    requires forall e :: e in before - removed ==> !e.Overlaps(Range(lo, hi, x.v))
    ensures Merged(before, x) == before - removed + {Range(lo, hi, x.v)}
  {
    forall e | e in before && e.Overlaps(x)
      ensures e in removed
    {
      assert e.Overlaps(Range(lo, hi, x.v));
    }
    assert removed == Touching(before, x);
    HullUnique(before, x, Hull(before, x), Range(lo, hi, x.v));
    assert Absorbs(before, x) ==> exists e :: e in removed && e.Contains(x);
  }
}
