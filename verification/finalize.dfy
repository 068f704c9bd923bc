/** Finalization: the table of registered objects, and what a collection takes from it for finalization. */
module Finalization {

  // ---- The heap ----

  /** The objects each object points to. */
  type Graph = seq<seq<nat>>

  predicate WellFormed(g: Graph) {
    forall o, j :: 0 <= o < |g| && 0 <= j < |g[o]| ==> g[o][j] < |g|
  }

  function Ids(g: Graph): set<nat> {
    set o: nat | o < |g| && IsId(g, o)
  }

  predicate IsId(g: Graph, o: nat) {
    o < |g|
  }

  predicate PointsTo(g: Graph, a: nat, b: nat) {
    a < |g| && b in g[a]
  }

  /** p leads along pointers from a to b, over at least one. */
  predicate IsPath(g: Graph, p: seq<nat>, a: nat, b: nat) {
    |p| >= 2 && p[0] == a && p[|p| - 1] == b && forall i :: 0 <= i < |p| - 1 ==> PointsTo(g, p[i], p[i + 1])
  }

  /** b is reachable from a by one or more pointers. */
  ghost predicate Reaches(g: Graph, a: nat, b: nat) {
    exists p :: IsPath(g, p, a, b)
  }

  lemma ReachesFirst(g: Graph, a: nat, b: nat)
    requires PointsTo(g, a, b)
    ensures Reaches(g, a, b)
  {
    assert IsPath(g, [a, b], a, b);
  }

  lemma ReachesMore(g: Graph, a: nat, b: nat, c: nat)
    requires Reaches(g, a, b) && PointsTo(g, b, c)
    ensures Reaches(g, a, c)
  {
    var p :| IsPath(g, p, a, b);
    assert IsPath(g, p + [c], a, c);
  }

  /** Marked objects point to marked objects. */
  ghost predicate Closed(g: Graph, marked: set<nat>) {
    forall a, b :: a in marked && PointsTo(g, a, b) ==> b in marked
  }

  /** What an object points to is marked, and so is everything reachable from it. */
  lemma {:induction false} ClosedReaches(g: Graph, marked: set<nat>, p: seq<nat>, a: nat, b: nat)
    requires Closed(g, marked) && IsPath(g, p, a, b) && forall c :: PointsTo(g, a, c) ==> c in marked
    ensures b in marked
    decreases |p|
  {
    if |p| > 2 {
      var q := p[..|p| - 1];
      assert IsPath(g, q, a, q[|q| - 1]);
      ClosedReaches(g, marked, q, a, q[|q| - 1]);
      assert PointsTo(g, p[|p| - 2], p[|p| - 1]);
    } else {
      assert PointsTo(g, p[0], p[1]);
    }
  }

  // ---- The table ----

  /** A registration. */
  datatype Entry = Entry(obj: nat, fn: nat, data: nat)

  type Chain = seq<Entry>

  function Flat(head: seq<Chain>): seq<Entry> {
    if head == [] then [] else Flat(head[..|head| - 1]) + head[|head| - 1]
  }

  predicate DistinctObjects(c: Chain) {
    forall i, j :: 0 <= i < j < |c| ==> c[i].obj != c[j].obj
  }

  /** The registrations of marked objects. */
  function Keep(c: Chain, marked: set<nat>): Chain {
    if c == [] then []
    else Keep(c[..|c| - 1], marked) + (if c[|c| - 1].obj in marked then [c[|c| - 1]] else [])
  }

  /** The registrations of the others, last first, as they are put in front of a queue. */
  function Take(c: Chain, marked: set<nat>): Chain {
    if c == [] then []
    else (if c[|c| - 1].obj in marked then [] else [c[|c| - 1]]) + Take(c[..|c| - 1], marked)
  }

  lemma {:induction false} KeepTake(c: Chain, marked: set<nat>)
    ensures multiset(Keep(c, marked)) + multiset(Take(c, marked)) == multiset(c)
    ensures |Keep(c, marked)| + |Take(c, marked)| == |c|
    ensures forall e :: e in Keep(c, marked) <==> e in c && e.obj in marked
    ensures forall e :: e in Take(c, marked) <==> e in c && e.obj !in marked
  {
    if c != [] {
      var d, e := c[..|c| - 1], c[|c| - 1];
      KeepTake(d, marked);
      assert c == d + [e];
    }
  }

  lemma {:induction false} TakeConcat(c: Chain, d: Chain, marked: set<nat>)
    ensures Take(c + d, marked) == Take(d, marked) + Take(c, marked)
  {
    if d == [] {
      assert c + d == c;
    } else {
      var e := d[..|d| - 1];
      assert (c + d)[..|c + d| - 1] == c + e;
      TakeConcat(c, e, marked);
    }
  }

  lemma {:induction false} KeepDistinct(c: Chain, marked: set<nat>)
    requires DistinctObjects(c)
    ensures DistinctObjects(Keep(c, marked))
  {
    if c != [] {
      var d := c[..|c| - 1];
      KeepDistinct(d, marked);
      KeepTake(d, marked);
      forall i | 0 <= i < |Keep(d, marked)| ensures Keep(d, marked)[i].obj != c[|c| - 1].obj {
        assert Keep(d, marked)[i] in d;
      }
    }
  }

  function KeepAll(head: seq<Chain>, marked: set<nat>): (r: seq<Chain>)
    ensures |r| == |head|
  {
    seq(|head|, i requires 0 <= i < |head| => Keep(head[i], marked))
  }

  lemma {:induction false} KeepAllTake(head: seq<Chain>, marked: set<nat>)
    ensures multiset(Flat(KeepAll(head, marked))) + multiset(Take(Flat(head), marked)) == multiset(Flat(head))
    ensures |Flat(KeepAll(head, marked))| + |Take(Flat(head), marked)| == |Flat(head)|
  {
    if head != [] {
      var front, c := head[..|head| - 1], head[|head| - 1];
      KeepAllTake(front, marked);
      KeepTake(c, marked);
      TakeConcat(Flat(front), c, marked);
      assert KeepAll(head, marked)[..|head| - 1] == KeepAll(front, marked);
    }
  }

  lemma {:induction false} InFlat(head: seq<Chain>, e: Entry)
    ensures e in Flat(head) <==> exists i :: 0 <= i < |head| && e in head[i]
  {
    if head != [] {
      InFlat(head[..|head| - 1], e);
      assert forall i :: 0 <= i < |head| - 1 ==> head[..|head| - 1][i] == head[i];
    }
  }

  function Remove(c: Chain, j: nat): Chain
    requires j < |c|
  {
    c[..j] + c[j + 1..]
  }

  lemma {:induction false} EmptyTable(size: nat)
    ensures Flat(seq(size, _ => [])) == []
  {
    if size > 0 {
      var t: seq<Chain> := seq(size, _ => []);
      assert t[..size - 1] == seq(size - 1, _ => []);
      EmptyTable(size - 1);
    }
  }

  lemma FlatMembers(head: seq<Chain>)
    ensures forall e :: e in Flat(head) <==> exists i :: 0 <= i < |head| && e in head[i]
  {
    forall e ensures e in Flat(head) <==> exists i :: 0 <= i < |head| && e in head[i] {
      InFlat(head, e);
    }
  }

  lemma {:induction false} FlatLength(head: seq<Chain>, i: nat, c: Chain)
    requires i < |head|
    ensures |Flat(head[i := c])| == |Flat(head)| - |head[i]| + |c|
  {
    var front, n := head[..|head| - 1], |head| - 1;
    if i < n {
      FlatLength(front, i, c);
      assert head[i := c][..n] == front[i := c];
    } else {
      assert head[i := c][..n] == front;
    }
  }

  lemma FlatPushed(head: seq<Chain>, i: nat, e: Entry)
    requires i < |head|
    ensures |Flat(head[i := [e] + head[i]])| == |Flat(head)| + 1
    ensures forall d :: d in Flat(head[i := [e] + head[i]]) <==> d in Flat(head) || d == e
  {
    var after := head[i := [e] + head[i]];
    FlatLength(head, i, [e] + head[i]);
    FlatMembers(head);
    FlatMembers(after);
    forall d | d in Flat(head) ensures d in Flat(after) {
      var k :| 0 <= k < |head| && d in head[k];
      assert d in after[k];
    }
    assert e in after[i];
  }

  lemma FlatRemoved(head: seq<Chain>, i: nat, j: nat)
    requires i < |head| && j < |head[i]|
    ensures |Flat(head[i := Remove(head[i], j)])| == |Flat(head)| - 1
  {
    FlatLength(head, i, Remove(head[i], j));
  }

  lemma FlatReplaced(head: seq<Chain>, i: nat, j: nat, e: Entry)
    requires i < |head| && j < |head[i]|
    ensures |Flat(head[i := head[i][j := e]])| == |Flat(head)|
  {
    FlatLength(head, i, head[i][j := e]);
  }

  lemma NotYet(head: seq<Chain>, i: nat, j: nat)
    requires i < |head| && j < |head[i]| && DistinctObjects(Flat(head))
    ensures forall d :: d in Flat(head[..i]) + head[i][..j] ==> d.obj != head[i][j].obj
  {
    FlatPrefix(head, i);
    var f, done := Flat(head), Flat(head[..i]) + head[i][..j];
    assert f[|done|] == head[i][j];
    forall d | d in done ensures d.obj != head[i][j].obj {
      var k :| 0 <= k < |done| && done[k] == d;
      assert f[k] == d;
    }
  }

  lemma {:induction false} FlatPrefix(head: seq<Chain>, i: nat)
    requires i < |head|
    ensures |Flat(head[..i])| + |head[i]| <= |Flat(head)|
    ensures Flat(head)[..|Flat(head[..i])| + |head[i]|] == Flat(head[..i]) + head[i]
    decreases |head|
  {
    var front := head[..|head| - 1];
    if i < |front| {
      FlatPrefix(front, i);
      assert front[..i] == head[..i];
    }
  }

  function Objects(c: Chain): set<nat> {
    set e | e in c :: e.obj
  }

  /** The descendants of the registered objects in `table` are marked, and nothing else newly is but objects that
      spilled. */
  ghost predicate Passed(g: Graph, spills: nat -> bool, table: seq<Entry>, before: set<nat>, marked: set<nat>) {
    && Closed(g, marked) && before <= marked && (forall x :: x in marked ==> x < |g|)
    && (forall e, c :: e in table && PointsTo(g, e.obj, c) ==> c in marked)
    && (forall x :: x in marked && x !in before ==>
          exists e :: e in table && (Reaches(g, e.obj, x) || (x == e.obj && spills(x))))
  }

  lemma PassedMore(g: Graph, spills: nat -> bool, table: seq<Entry>, e: Entry, before: set<nat>, m0: set<nat>,
                   m1: set<nat>)
    requires Passed(g, spills, table, before, m0) && Closed(g, m1) && m0 <= m1 && (forall x :: x in m1 ==> x < |g|)
    requires forall c :: PointsTo(g, e.obj, c) ==> c in m1
    requires forall x :: x in m1 && x !in m0 ==> Reaches(g, e.obj, x) || (x == e.obj && spills(x))
    ensures Passed(g, spills, table + [e], before, m1)
  {
    forall x | x in m1 && x !in before
      ensures exists d :: d in table + [e] && (Reaches(g, d.obj, x) || (x == d.obj && spills(x)))
    {
      if x in m0 {
        var d :| d in table && (Reaches(g, d.obj, x) || (x == d.obj && spills(x)));
        assert d in table + [e];
      } else {
        assert e in table + [e];
      }
    }
  }

  /** The qth registration of a chain is not for an object that has been taken. */
  lemma NotTaken(c: Chain, q: nat, marked: set<nat>, earlier: Chain)
    requires q < |c| && DistinctObjects(c) && forall e :: e in c ==> e.obj !in Objects(earlier)
    ensures c[q].obj !in Objects(Take(c[..q], marked) + earlier)
  {
    KeepTake(c[..q], marked);
    assert c[q] in c;
    forall e | e in Take(c[..q], marked) ensures e.obj != c[q].obj {
      var i :| 0 <= i < q && c[i] == e;
    }
  }

  lemma FlatGrows(head: seq<Chain>, i: nat)
    requires i < |head|
    ensures |Flat(head[..i])| + |head[i]| <= |Flat(head)|
    decreases |head|
  {
    var front := head[..|head| - 1];
    if i < |front| {
      FlatGrows(front, i);
      assert front[..i] == head[..i];
    }
  }

  class Finalizers {
    const hash: (nat, nat) -> nat      // HASH2 and HASH3: an object's chain in a table of some size
    var head: seq<Chain>               // GC_fnlz_roots.fo_head; no chains before the first registration
    var entries: nat                   // GC_fo_entries
    var queue: Chain                   // GC_fnlz_roots.finalize_now
    var marked: set<nat>               // the objects with mark bits

    ghost predicate Valid()
      reads this
    {
      && (forall o, n :: n > 0 ==> hash(o, n) < n)
      && Hashed(head) && entries == |Flat(head)|
    }

    ghost predicate Hashed(chains: seq<Chain>)
      reads this
    {
      forall i :: 0 <= i < |chains| ==>
        DistinctObjects(chains[i]) && forall e :: e in chains[i] ==> hash(e.obj, |chains|) == i
    }

    constructor (hash: (nat, nat) -> nat)
      requires forall o, n :: n > 0 ==> hash(o, n) < n
      ensures Valid() && head == [] && queue == [] && marked == {}
    {
      this.hash := hash;
      head, entries, queue, marked := [], 0, [], {};
    }

    /** `GC_normal_finalize_mark_proc` and the draining of the mark stack: marks what is reachable from o by one or
        more pointers, but not o. */
    method MarkDescendants(g: Graph, o: nat)
      requires WellFormed(g) && Closed(g, marked) && o < |g| && forall x :: x in marked ==> x < |g|
      modifies this`marked
      ensures Closed(g, marked) && old(marked) <= marked && forall x :: x in marked ==> x < |g|
      ensures forall c :: PointsTo(g, o, c) ==> c in marked
      ensures forall x :: x in marked && x !in old(marked) ==> Reaches(g, o, x)
    {
      var stack: seq<nat> := [o];
      while stack != []
        invariant old(marked) <= marked && (forall x :: x in marked ==> x < |g|) && (forall x :: x in stack ==> x < |g|)
        invariant forall a, b :: a in marked && PointsTo(g, a, b) && a !in stack ==> b in marked
        invariant o !in stack ==> forall c :: PointsTo(g, o, c) ==> c in marked
        invariant forall x :: x in marked && x !in old(marked) ==> Reaches(g, o, x)
        invariant forall x :: x in stack && x != o ==> Reaches(g, o, x)
        decreases Ids(g) - marked, |stack|
      {
        var x := stack[|stack| - 1];
        var below := stack[..|stack| - 1];
        assert stack == below + [x] && x in stack && forall y :: y in below ==> y in stack;
        stack := ScanObject(g, o, x, below);
      }
    }

    /** Marks and pushes the unmarked objects that x points to. */
    method ScanObject(g: Graph, ghost o: nat, x: nat, below: seq<nat>) returns (stack: seq<nat>)
      requires WellFormed(g) && x < |g| && forall y :: y in marked ==> y < |g|
      requires x == o || Reaches(g, o, x)
      modifies this`marked
      ensures old(marked) <= marked && (forall y :: y in marked ==> y < |g|)
      ensures forall c :: PointsTo(g, x, c) ==> c in marked
      ensures forall y :: y in stack <==> y in below || (y in marked && y !in old(marked))
      ensures forall y :: y in marked && y !in old(marked) ==> Reaches(g, o, y)
      ensures marked == old(marked) ==> stack == below
    {
      stack := below;
      var i := 0;
      while i < |g[x]|
        invariant 0 <= i <= |g[x]| && old(marked) <= marked && forall y :: y in marked ==> y < |g|
        invariant forall j :: 0 <= j < i ==> g[x][j] in marked
        invariant forall y :: y in stack <==> y in below || (y in marked && y !in old(marked))
        invariant forall y :: y in marked && y !in old(marked) ==> Reaches(g, o, y)
        invariant marked == old(marked) ==> stack == below
      {
        var c := g[x][i];
        if c !in marked {
          if x == o {
            ReachesFirst(g, o, c);
          } else {
            ReachesMore(g, o, x, c);
          }
          marked := marked + {c};
          stack := stack + [c];
        }
        i := i + 1;
      }
    }

    /** Objects taken from earlier chains are not on chain i. */
    lemma OtherChains(before: seq<Chain>, i: nat, D: set<nat>)
      requires Hashed(before) && i < |before|
      ensures forall e :: e in before[i] ==> e.obj !in Objects(Take(Flat(before[..i]), D))
    {
      KeepTake(Flat(before[..i]), D);
      forall e, d | e in before[i] && d in Take(Flat(before[..i]), D) ensures e.obj != d.obj {
        InFlat(before[..i], d);
        var k :| 0 <= k < i && d in before[..i][k];
        assert d in before[k];
      }
    }

    lemma KeptHashed(before: seq<Chain>, D: set<nat>)
      requires Hashed(before)
      ensures Hashed(KeepAll(before, D))
    {
      forall i | 0 <= i < |before|
        ensures DistinctObjects(Keep(before[i], D)) && forall e :: e in Keep(before[i], D) ==>
                  hash(e.obj, |before|) == i
      {
        KeepTake(before[i], D);
        KeepDistinct(before[i], D);
      }
    }

    /** No object is registered twice. */
    lemma {:induction false} Unique(chains: seq<Chain>, size: nat)
      requires forall i :: 0 <= i < |chains| ==> DistinctObjects(chains[i]) && forall e :: e in chains[i] ==>
                 hash(e.obj, size) == i
      ensures DistinctObjects(Flat(chains))
    {
      if chains != [] {
        var front, last := chains[..|chains| - 1], chains[|chains| - 1];
        Unique(front, size);
        var f := Flat(front);
        forall i, j | 0 <= i < |f| && 0 <= j < |last| ensures f[i].obj != last[j].obj {
          InFlat(front, f[i]);
          var k :| 0 <= k < |front| && f[i] in front[k];
          assert front[k] == chains[k] && last[j] in last;
        }
      }
    }

    /** `GC_grow_table`: the registrations move to a table of twice the size. */
    method Grow()
      requires Valid()
      modifies this`head
      ensures Valid() && head != [] && forall e :: e in Flat(head) <==> e in Flat(old(head))
    {
      var size := if head == [] then 2 else 2 * |head|;
      var table: seq<Chain> := seq(size, _ => []);
      EmptyTable(size);
      Unique(head, |head|);
      var i := 0;
      while i < |head|
        invariant head == old(head) && 0 <= i <= |head| && Rehashed(table, size, Flat(head[..i]))
      {
        var j := 0;
        assert head[i][..0] == [] && Flat(head[..i]) + [] == Flat(head[..i]);
        while j < |head[i]|
          invariant head == old(head) && 0 <= j <= |head[i]| && Rehashed(table, size, Flat(head[..i]) + head[i][..j])
        {
          var e := head[i][j];
          NotYet(head, i, j);
          ghost var done := Flat(head[..i]) + head[i][..j];
          table := Rehash(table, size, e, done);
          assert done + [e] == Flat(head[..i]) + head[i][..j + 1];
          j := j + 1;
        }
        assert head[i][..j] == head[i] && head[..i + 1][..i] == head[..i];
        i := i + 1;
      }
      assert head[..i] == head;
      head := table;
    }

    method Rehash(table: seq<Chain>, size: nat, e: Entry, ghost done: seq<Entry>) returns (after: seq<Chain>)
      requires size > 0 && (forall o, n :: n > 0 ==> hash(o, n) < n)
      requires Rehashed(table, size, done) && forall d :: d in done ==> d.obj != e.obj
      ensures Rehashed(after, size, done + [e])
    {
      var h := hash(e.obj, size);
      after := table[h := [e] + table[h]];
      FlatPushed(table, h, e);
      forall d ensures d in Flat(after) <==> d in done + [e] {
        assert d in done + [e] <==> d in done || d == e;
      }
      forall k | 0 <= k < |table[h]| ensures table[h][k].obj != e.obj {
        InFlat(table, table[h][k]);
      }
    }

    ghost predicate Rehashed(table: seq<Chain>, size: nat, done: seq<Entry>)
      reads this
    {
      |table| == size && Hashed(table) && |Flat(table)| == |done| && forall e :: e in Flat(table) <==> e in done
    }

    lemma ChainMembers(chains: seq<Chain>, i: nat)
      requires Hashed(chains) && i < |chains|
      ensures forall e :: e in chains[i] <==> e in Flat(chains) && hash(e.obj, |chains|) == i
    {
      FlatMembers(chains);
    }

    /** Another chain in the place of the ith. */
    lemma ChainReplaced(chains: seq<Chain>, i: nat, c: Chain)
      requires Hashed(chains) && i < |chains|
      ensures forall e :: e in Flat(chains[i := c]) <==> e in c || (e in Flat(chains) && hash(e.obj, |chains|) != i)
    {
      FlatMembers(chains);
      FlatMembers(chains[i := c]);
      forall e ensures e in Flat(chains[i := c]) <==> e in c || (e in Flat(chains) && hash(e.obj, |chains|) != i) {
        if e in c {
          assert e in chains[i := c][i];
        }
        if k :| 0 <= k < |chains| && e in chains[k] {
          assert k != i ==> e in chains[i := c][k];
        }
      }
    }

    lemma RemovedHashed(i: nat, j: nat)
      requires Hashed(head) && i < |head| && j < |head[i]|
      ensures Hashed(head[i := Remove(head[i], j)])
      ensures forall e :: e in Remove(head[i], j) <==> e in head[i] && e.obj != head[i][j].obj
    {
      var c := head[i];
      var d := Remove(c, j);
      forall k | 0 <= k < |d| ensures d[k] == c[if k < j then k else k + 1] && d[k] in c {
        assert d[k] == c[if k < j then k else k + 1];
      }
      forall e | e in c && e.obj != c[j].obj ensures e in d {
        var k :| 0 <= k < |c| && c[k] == e;
        assert d[if k < j then k else k - 1] == e;
      }
    }

    lemma ReplacedHashed(i: nat, j: nat, fn: nat, data: nat)
      requires Hashed(head) && i < |head| && j < |head[i]|
      ensures Hashed(head[i := head[i][j := Entry(head[i][j].obj, fn, data)]])
      ensures forall e :: e in head[i][j := Entry(head[i][j].obj, fn, data)] <==>
                (e in head[i] && e.obj != head[i][j].obj) || e == Entry(head[i][j].obj, fn, data)
    {
      var c := head[i];
      var n := Entry(c[j].obj, fn, data);
      var d := c[j := n];
      assert c[j] in c;
      forall k | 0 <= k < |d| ensures d[k].obj == c[k].obj && c[k] in c {
      }
      forall e | e in d && e != n ensures e in c && e.obj != c[j].obj {
        var k :| 0 <= k < |d| && d[k] == e;
        assert c[k] == e;
      }
      forall e | e in c && e.obj != c[j].obj ensures e in d {
        var k :| 0 <= k < |c| && c[k] == e;
        assert d[k] == e;
      }
      assert d[j] == n;
    }

    /** `GC_register_finalizer_inner`: a new finalizer for obj in the place of any old one, which is returned; fn is 0
        for none. */
    method Register(obj: nat, fn: nat, data: nat, inHeap: bool) returns (oldFn: nat, oldData: nat)
      requires Valid()
      modifies this`head, this`entries
      ensures Valid()
      ensures forall e :: e in Flat(head) <==>
                (e in Flat(old(head)) && e.obj != obj)
                || (fn != 0 && e == Entry(obj, fn, data) &&
                    (inHeap || exists d :: d in Flat(old(head)) && d.obj == obj))
      ensures if exists d :: d in Flat(old(head)) && d.obj == obj then Entry(obj, oldFn, oldData) in Flat(old(head))
              else oldFn == 0 && oldData == 0
    {
      if head == [] || entries > |head| {
        Grow();
      }
      var i := hash(obj, |head|);
      var j := Find(i, obj);
      if j < |head[i]| {
        ChainMembers(head, i);
        assert head[i][j] in head[i];
        oldFn, oldData := head[i][j].fn, head[i][j].data;
        Change(i, j, fn, data);
        return;
      }
      oldFn, oldData := 0, 0;
      if fn == 0 || !inHeap {
        return;
      }
      Insert(i, Entry(obj, fn, data));
    }

    /** The jth registration of chain i is removed, or gets another finalizer. */
    method Change(i: nat, j: nat, fn: nat, data: nat)
      requires Valid() && i < |head| && j < |head[i]|
      modifies this`head, this`entries
      ensures Valid()
      ensures var obj := old(head)[i][j].obj;
              forall e :: e in Flat(head) <==>
                (e in Flat(old(head)) && e.obj != obj) || (fn != 0 && e == Entry(obj, fn, data))
    {
      ghost var e := head[i][j];
      ChainMembers(head, i);
      assert e in head[i];
      if fn == 0 {
        FlatRemoved(head, i, j);
        RemovedHashed(i, j);
        ChainReplaced(head, i, Remove(head[i], j));
        FlatGrows(head, i);
        head := head[i := Remove(head[i], j)];
        entries := entries - 1;
      } else {
        var renewed := Entry(head[i][j].obj, fn, data);
        FlatReplaced(head, i, j, renewed);
        ReplacedHashed(i, j, fn, data);
        ChainReplaced(head, i, head[i][j := renewed]);
        head := head[i := head[i][j := renewed]];
      }
    }

    method Insert(i: nat, e: Entry)
      requires Valid() && i < |head| && hash(e.obj, |head|) == i && forall d :: d in Flat(head) ==> d.obj != e.obj
      modifies this`head, this`entries
      ensures Valid() && forall d :: d in Flat(head) <==> d in Flat(old(head)) || d == e
    {
      ChainMembers(head, i);
      FlatPushed(head, i, e);
      forall k | 0 <= k < |head[i]| ensures head[i][k].obj != e.obj {
        assert head[i][k] in head[i];
      }
      head := head[i := [e] + head[i]];
      entries := entries + 1;
    }

    /** The place of obj's registration on chain i, or past its end. */
    method Find(i: nat, obj: nat) returns (j: nat)
      requires Valid() && i < |head| && i == hash(obj, |head|)
      ensures j <= |head[i]| && (j < |head[i]| ==> head[i][j].obj == obj)
      ensures j == |head[i]| ==> forall e :: e in Flat(head) ==> e.obj != obj
    {
      j := 0;
      while j < |head[i]| && head[i][j].obj != obj
        invariant j <= |head[i]| && forall k :: 0 <= k < j ==> head[i][k].obj != obj
      {
        j := j + 1;
      }
      FlatMembers(head);
    }

    /** `GC_invoke_finalizers`, one step: the finalizer of the first object in the queue is run. */
    method Invoke() returns (e: Entry)
      requires queue != []
      modifies this`queue
      ensures [e] + queue == old(queue)
    {
      e := queue[0];
      queue := queue[1..];
    }

    /** The first pass of `GC_finalize`: marks all that is reachable from registered objects by one or more pointers.
        `spills` says for which objects the mark stack overflows, which marks the object as well. */
    method DescendantPass(g: Graph, spills: nat -> bool)
      requires WellFormed(g) && Closed(g, marked) && (forall x :: x in marked ==> x < |g|)
      requires forall i, j :: 0 <= i < |head| && 0 <= j < |head[i]| ==> head[i][j].obj < |g|
      modifies this`marked
      ensures Passed(g, spills, Flat(head), old(marked), marked)
    {
      var i := 0;
      while i < |head|
        invariant 0 <= i <= |head| && Passed(g, spills, Flat(head[..i]), old(marked), marked)
      {
        var j := 0;
        assert head[i][..0] == [];
        while j < |head[i]|
          invariant 0 <= j <= |head[i]| && Passed(g, spills, Flat(head[..i]) + head[i][..j], old(marked), marked)
        {
          var e := head[i][j];
          ghost var before := marked;
          if e.obj !in marked {
            MarkDescendants(g, e.obj);
            if spills(e.obj) {
              marked := marked + {e.obj};
            }
          }
          PassedMore(g, spills, Flat(head[..i]) + head[i][..j], e, old(marked), before, marked);
          assert Flat(head[..i]) + head[i][..j] + [e] == Flat(head[..i]) + head[i][..j + 1];
          j := j + 1;
        }
        assert head[i][..j] == head[i];
        assert head[..i + 1][..i] == head[..i];
        i := i + 1;
      }
      assert head[..i] == head;
    }

    /** The second pass over one chain: registrations of unmarked objects move to the queue, and their objects are
        marked. */
    method EnqueueChain(i: nat, ghost D: set<nat>, ghost earlier: Chain)
      requires i < |head| && DistinctObjects(head[i]) && entries >= |head[i]|
      requires marked == D + Objects(earlier) && forall e :: e in head[i] ==> e.obj !in Objects(earlier)
      modifies this`head, this`entries, this`queue, this`marked
      ensures head == old(head)[i := Keep(old(head)[i], D)]
      ensures queue == Take(old(head)[i], D) + old(queue) && marked == D + Objects(Take(old(head)[i], D) + earlier)
      ensures entries == old(entries) - |Take(old(head)[i], D)|
    {
      ghost var c, q := head[i], 0;
      var j := 0;
      ChainBegun(c, D, earlier, queue, entries);
      while j < |head[i]|
        invariant 0 <= q <= |c| && |head| == |old(head)| && head == old(head)[i := head[i]]
        invariant InChain(c, q, D, earlier, old(queue), old(entries), head[i], j, queue, marked, entries)
        decreases |c| - q
      {
        var e := head[i][j];
        ChainStep(c, q, D, earlier, old(queue), old(entries), head[i], j, queue, marked, entries);
        if e.obj !in marked {
          marked := marked + {e.obj};
          head := head[i := Remove(head[i], j)];
          entries := entries - 1;
          queue := [e] + queue;
        } else {
          j := j + 1;
        }
        q := q + 1;
      }
      ChainDone(c, q, D, earlier, old(queue), old(entries), head[i], j, queue, marked, entries);
    }

    /** `GC_finalize`, without disappearing links and Java finalization. `D` is what is marked after the first pass. */
    method Finalize(g: Graph, spills: nat -> bool) returns (ghost D: set<nat>)
      requires Valid() && WellFormed(g) && Closed(g, marked) && (forall x :: x in marked ==> x < |g|)
      requires forall i, j :: 0 <= i < |head| && 0 <= j < |head[i]| ==> head[i][j].obj < |g|
      modifies this`head, this`entries, this`queue, this`marked
      ensures Valid() && Passed(g, spills, Flat(old(head)), old(marked), D)
      ensures head == KeepAll(old(head), D) && queue == Take(Flat(old(head)), D) + old(queue)
      ensures marked == D + Objects(Take(Flat(old(head)), D))
    {
      ghost var before := head;
      DescendantPass(g, spills);
      D := marked;
      EnqueuePass(D);
    }

    /** The second pass of `GC_finalize`: the registrations of objects that are still unmarked move to the queue. */
    method EnqueuePass(ghost D: set<nat>)
      requires Valid() && marked == D
      modifies this`head, this`entries, this`queue, this`marked
      ensures Valid() && head == KeepAll(old(head), D) && queue == Take(Flat(old(head)), D) + old(queue)
      ensures marked == D + Objects(Take(Flat(old(head)), D))
    {
      ghost var before := head;
      EnqueueAll(before, D);
      Finished(before, D, old(queue), head, queue, marked, entries);
      KeptHashed(before, D);
    }

    method EnqueueAll(ghost before: seq<Chain>, ghost D: set<nat>)
      requires before == head && Hashed(before) && marked == D && entries == |Flat(before)|
      modifies this`head, this`entries, this`queue, this`marked
      ensures Enqueued(before, |before|, D, old(queue), head, queue, marked, entries)
    {
      var i := 0;
      Begun(before, D, queue);
      while i < |head|
        invariant 0 <= i <= |head| == |before|
        invariant Enqueued(before, i, D, old(queue), head, queue, marked, entries)
      {
        EnqueueNext(before, i, D, old(queue));
        i := i + 1;
      }
    }

    method EnqueueNext(ghost before: seq<Chain>, i: nat, ghost D: set<nat>, ghost queue0: Chain)
      requires i < |head| == |before| && Enqueued(before, i, D, queue0, head, queue, marked, entries) && Hashed(before)
      modifies this`head, this`entries, this`queue, this`marked
      ensures |head| == |before| && Enqueued(before, i + 1, D, queue0, head, queue, marked, entries)
    {
      OtherChains(before, i, D);
      Ready(before, i, D, queue0, head, queue, marked, entries);
      NextChain(before, i, D, queue0, head, queue, marked, entries);
      EnqueueChain(i, D, Take(Flat(before[..i]), D));
    }
  }

  /** The first q registrations of chain c have been gone through; `now` is what is left of it, and j the
      place in it. */
  ghost predicate InChainAt(c: Chain, q: nat, D: set<nat>, earlier: Chain, queue0: Chain, entries0: nat,
                          now: Chain, j: nat, queue: Chain, marked: set<nat>, entries: nat) {
    && q <= |c| && DistinctObjects(c) && entries0 >= |c| && (forall e :: e in c ==> e.obj !in Objects(earlier))
    && j == |Keep(c[..q], D)| && now == Keep(c[..q], D) + c[q..]
    && queue == Take(c[..q], D) + queue0 && marked == D + Objects(Take(c[..q], D) + earlier)
    && entries + |Take(c[..q], D)| == entries0 && |Take(c[..q], D)| <= q
  }

  /** The same, stated so that only `ChainOpened` unfolds it. */
  ghost predicate InChain(c: Chain, q: nat, D: set<nat>, earlier: Chain, queue0: Chain, entries0: nat,
                          now: Chain, j: nat, queue: Chain, marked: set<nat>, entries: nat) {
    forall p :: p in [q] ==> InChainAt(c, p, D, earlier, queue0, entries0, now, j, queue, marked, entries)
  }

  lemma ChainOpened(c: Chain, q: nat, D: set<nat>, earlier: Chain, queue0: Chain, entries0: nat,
                    now: Chain, j: nat, queue: Chain, marked: set<nat>, entries: nat)
    ensures InChain(c, q, D, earlier, queue0, entries0, now, j, queue, marked, entries) <==>
            InChainAt(c, q, D, earlier, queue0, entries0, now, j, queue, marked, entries)
  {
    assert q in [q];
  }

  lemma ChainBegun(c: Chain, D: set<nat>, earlier: Chain, queue0: Chain, entries0: nat)
    requires DistinctObjects(c) && entries0 >= |c| && forall e :: e in c ==> e.obj !in Objects(earlier)
    ensures InChain(c, 0, D, earlier, queue0, entries0, c, 0, queue0, D + Objects(earlier), entries0)
  {
    assert c[..0] == [] && c[0..] == c && [] + c == c && [] + earlier == earlier && [] + queue0 == queue0;
    ChainOpened(c, 0, D, earlier, queue0, entries0, c, 0, queue0, D + Objects(earlier), entries0);
  }

  lemma ChainDone(c: Chain, q: nat, D: set<nat>, earlier: Chain, queue0: Chain, entries0: nat,
                  now: Chain, j: nat, queue: Chain, marked: set<nat>, entries: nat)
    requires InChain(c, q, D, earlier, queue0, entries0, now, j, queue, marked, entries) && j >= |now|
    ensures now == Keep(c, D) && queue == Take(c, D) + queue0 && marked == D + Objects(Take(c, D) + earlier)
    ensures entries + |Take(c, D)| == entries0
  {
    ChainOpened(c, q, D, earlier, queue0, entries0, now, j, queue, marked, entries);
    assert |now| == |Keep(c[..q], D)| + |c[q..]|;
    assert c[..q] == c && c[q..] == [];
  }

  /** The next registration of a chain. */
  lemma ChainStep(c: Chain, q: nat, D: set<nat>, earlier: Chain, queue0: Chain, entries0: nat,
                  now: Chain, j: nat, queue: Chain, marked: set<nat>, entries: nat)
    requires InChain(c, q, D, earlier, queue0, entries0, now, j, queue, marked, entries) && j < |now|
    ensures q < |c| && now[j] == c[q] && (now[j].obj !in marked ==> entries > 0)
    ensures now[j].obj in marked ==> InChain(c, q + 1, D, earlier, queue0, entries0, now, j + 1, queue, marked, entries)
    ensures now[j].obj !in marked ==>
              InChain(c, q + 1, D, earlier, queue0, entries0, Remove(now, j), j, [now[j]] + queue,
                      marked + {now[j].obj}, entries - 1)
  {
    ChainOpened(c, q, D, earlier, queue0, entries0, now, j, queue, marked, entries);
    assert |now| == |Keep(c[..q], D)| + |c[q..]|;
    OneStep(c, q, D);
    NotTaken(c, q, D, earlier);
    if c[q].obj in D {
      KeptStep(c, q, D, earlier, queue0, entries0, now, j, queue, marked, entries);
    } else {
      TakenStep(c, q, D, earlier, queue0, entries0, now, j, queue, marked, entries);
    }
  }

  lemma KeptStep(c: Chain, q: nat, D: set<nat>, earlier: Chain, queue0: Chain, entries0: nat,
                 now: Chain, j: nat, queue: Chain, marked: set<nat>, entries: nat)
    requires InChain(c, q, D, earlier, queue0, entries0, now, j, queue, marked, entries) && q < |c| && c[q].obj in D
    ensures InChain(c, q + 1, D, earlier, queue0, entries0, now, j + 1, queue, marked, entries)
  {
    ChainOpened(c, q, D, earlier, queue0, entries0, now, j, queue, marked, entries);
    OneStep(c, q, D);
    KeepNext(c, q, D);
    ChainOpened(c, q + 1, D, earlier, queue0, entries0, now, j + 1, queue, marked, entries);
  }

  lemma TakenStep(c: Chain, q: nat, D: set<nat>, earlier: Chain, queue0: Chain, entries0: nat,
                  now: Chain, j: nat, queue: Chain, marked: set<nat>, entries: nat)
    requires InChain(c, q, D, earlier, queue0, entries0, now, j, queue, marked, entries) && q < |c| && c[q].obj !in D
    ensures j < |now| && entries > 0
    ensures InChain(c, q + 1, D, earlier, queue0, entries0, Remove(now, j), j, [c[q]] + queue, marked + {c[q].obj},
              entries - 1)
  {
    ChainOpened(c, q, D, earlier, queue0, entries0, now, j, queue, marked, entries);
    OneStep(c, q, D);
    KeepNext(c, q, D);
    TakenSets(c[q], Take(c[..q], D), queue0, D, earlier);
    ChainOpened(c, q + 1, D, earlier, queue0, entries0, Remove(now, j), j, [c[q]] + queue, marked + {c[q].obj},
                entries - 1);
  }

  lemma TakenSets(e: Entry, taken: Chain, queue0: Chain, D: set<nat>, earlier: Chain)
    ensures [e] + (taken + queue0) == ([e] + taken) + queue0
    ensures D + Objects(taken + earlier) + {e.obj} == D + Objects(([e] + taken) + earlier)
  {
    MoreObjects(e, taken, earlier);
  }

  lemma MoreObjects(e: Entry, taken: Chain, earlier: Chain)
    ensures Objects(([e] + taken) + earlier) == Objects(taken + earlier) + {e.obj}
  {
    assert ([e] + taken) + earlier == [e] + (taken + earlier);
    assert forall d :: d in [e] + (taken + earlier) <==> d == e || d in taken + earlier;
  }

  lemma KeepNext(c: Chain, q: nat, D: set<nat>)
    requires q < |c|
    ensures Keep(c[..q + 1], D) == Keep(c[..q], D) + (if c[q].obj in D then [c[q]] else [])
    ensures Take(c[..q + 1], D) == (if c[q].obj in D then [] else [c[q]]) + Take(c[..q], D)
  {
    assert c[..q + 1][..q] == c[..q];
  }

  /** One registration of a chain, of which those before it have been gone through. */
  lemma OneStep(c: Chain, q: nat, D: set<nat>)
    requires q < |c|
    ensures var kept := Keep(c[..q], D);
            var now := kept + c[q..];
            && now[|kept|] == c[q] && |Keep(c[..q + 1], D)| == (if c[q].obj in D then |kept| + 1 else |kept|)
            && (if c[q].obj in D then now else Remove(now, |kept|)) == Keep(c[..q + 1], D) + c[q + 1..]
  {
    KeepNext(c, q, D);
    Shift(Keep(c[..q], D), c, q);
  }

  lemma Shift(kept: Chain, c: Chain, q: nat)
    requires q < |c|
    ensures kept + c[q..] == (kept + [c[q]]) + c[q + 1..] && Remove(kept + c[q..], |kept|) == kept + c[q + 1..]
  {
  }

  /** The chains of `before` up to i have been gone through. */
  ghost predicate Enqueued(before: seq<Chain>, i: nat, D: set<nat>, queue0: Chain, head: seq<Chain>, queue: Chain,
                           marked: set<nat>, entries: nat) {
    && i <= |before| && head == KeepAll(before[..i], D) + before[i..]
    && queue == Take(Flat(before[..i]), D) + queue0 && marked == D + Objects(Take(Flat(before[..i]), D))
    && entries + |Take(Flat(before[..i]), D)| == |Flat(before)| && |Take(Flat(before[..i]), D)| <= |Flat(before[..i])|
  }

  lemma Begun(before: seq<Chain>, D: set<nat>, queue: Chain)
    ensures Enqueued(before, 0, D, queue, before, queue, D, |Flat(before)|)
  {
    assert Flat(before[..0]) == [] && KeepAll(before[..0], D) + before[0..] == before && [] + queue == queue;
  }

  lemma Finished(before: seq<Chain>, D: set<nat>, queue0: Chain, head: seq<Chain>, queue: Chain, marked: set<nat>,
                 entries: nat)
    requires Enqueued(before, |before|, D, queue0, head, queue, marked, entries)
    ensures head == KeepAll(before, D) && queue == Take(Flat(before), D) + queue0
    ensures marked == D + Objects(Take(Flat(before), D))
    ensures entries == |Flat(head)|
  {
    assert before[..|before|] == before && before[|before|..] == [];
    KeepAllTake(before, D);
  }

  lemma Ready(before: seq<Chain>, i: nat, D: set<nat>, queue0: Chain, head: seq<Chain>, queue: Chain, marked: set<nat>,
              entries: nat)
    requires i < |before| && Enqueued(before, i, D, queue0, head, queue, marked, entries)
    ensures |head| == |before| && head[i] == before[i] && entries >= |head[i]|
    ensures marked == D + Objects(Take(Flat(before[..i]), D))
  {
    FlatGrows(before, i);
  }

  /** One more chain. */
  lemma NextChain(before: seq<Chain>, i: nat, D: set<nat>, queue0: Chain, head: seq<Chain>, queue: Chain,
                  marked: set<nat>, entries: nat)
    requires i < |before| && Enqueued(before, i, D, queue0, head, queue, marked, entries)
    ensures |head| == |before| && entries >= |Take(before[i], D)|
    ensures Enqueued(before, i + 1, D, queue0, head[i := Keep(before[i], D)], Take(before[i], D) + queue,
                     D + Objects(Take(before[i], D) + Take(Flat(before[..i]), D)), entries - |Take(before[i], D)|)
  {
    NextTaken(before, i, D);
    NextHead(before, i, D);
    FlatGrows(before, i);
    var taken, earlier := Take(before[i], D), Take(Flat(before[..i]), D);
    assert taken + (earlier + queue0) == (taken + earlier) + queue0;
  }

  lemma NextTaken(before: seq<Chain>, i: nat, D: set<nat>)
    requires i < |before|
    ensures Take(Flat(before[..i + 1]), D) == Take(before[i], D) + Take(Flat(before[..i]), D)
    ensures |Take(before[i], D)| <= |before[i]| && |Flat(before[..i + 1])| == |Flat(before[..i])| + |before[i]|
  {
    assert before[..i + 1][..i] == before[..i];
    TakeConcat(Flat(before[..i]), before[i], D);
    KeepTake(before[i], D);
  }

  lemma NextHead(before: seq<Chain>, i: nat, D: set<nat>)
    requires i < |before|
    ensures (KeepAll(before[..i], D) + before[i..])[i := Keep(before[i], D)] ==
              KeepAll(before[..i + 1], D) + before[i + 1..]
  {
  }

  // ---- What a collection finalizes ----

  lemma DescendantMarked(g: Graph, spills: nat -> bool, table: seq<Entry>, before: set<nat>, D: set<nat>, e: Entry,
                         x: nat)
    requires Passed(g, spills, table, before, D) && e in table && Reaches(g, e.obj, x)
    ensures x in D
  {
    var p :| IsPath(g, p, e.obj, x);
    ClosedReaches(g, D, p, e.obj, x);
  }

  /** Finalization is ordered: no object queued is reachable from any registered object by one or more pointers. */
  lemma FinalizedInOrder(g: Graph, spills: nat -> bool, table: seq<Entry>, before: set<nat>, D: set<nat>)
    requires Passed(g, spills, table, before, D)
    ensures forall e, d :: e in Take(table, D) && d in table ==> !Reaches(g, d.obj, e.obj)
  {
    KeepTake(table, D);
    forall e, d | e in Take(table, D) && d in table ensures !Reaches(g, d.obj, e.obj) {
      if Reaches(g, d.obj, e.obj) {
        DescendantMarked(g, spills, table, before, D, d, e.obj);
      }
    }
  }

  /** Exactly those registered objects are queued that were not marked and that no registered object reaches, itself
      included; an object for which the mark stack overflows is spared. */
  lemma ExactlyUnreachable(g: Graph, spills: nat -> bool, table: seq<Entry>, before: set<nat>, D: set<nat>)
    requires Passed(g, spills, table, before, D)
    ensures forall e :: e in Take(table, D) ==>
              e in table && e.obj !in before && forall d :: d in table ==> !Reaches(g, d.obj, e.obj)
    ensures forall e :: && e in table && e.obj !in before && !spills(e.obj)
                        && (forall d :: d in table ==> !Reaches(g, d.obj, e.obj)) ==>
              e in Take(table, D)
  {
    KeepTake(table, D);
    FinalizedInOrder(g, spills, table, before, D);
  }

  /** Each registration ends up in exactly one of table and queue, as often as it was in the table. */
  lemma NoneLost(head: seq<Chain>, D: set<nat>, queue: Chain)
    ensures multiset(Flat(KeepAll(head, D))) + multiset(Take(Flat(head), D) + queue) ==
              multiset(Flat(head)) + multiset(queue)
  {
    KeepAllTake(head, D);
  }
}
