/** The free lists of heap blocks: an array of doubly linked lists, threaded through the headers of the blocks on
    them. */
module FreeLists {

  /** One list for each number of pages up to UNIQUE_THRESHOLD, one for eight numbers from there to HUGE_THRESHOLD,
      and one for all that are greater. */
  const UNIQUE_THRESHOLD := 32
  const HUGE_THRESHOLD := 256
  const FL_COMPRESSION := 8
  const N_HBLK_FLS: nat := (HUGE_THRESHOLD - UNIQUE_THRESHOLD) / FL_COMPRESSION + UNIQUE_THRESHOLD

  /** `GC_hblk_fl_from_blocks`. */
  function IndexFor(pages: nat): (i: nat)
    ensures i <= N_HBLK_FLS
    ensures i < UNIQUE_THRESHOLD <==> pages < UNIQUE_THRESHOLD
    ensures i < UNIQUE_THRESHOLD ==> i == pages
  {
    if pages <= UNIQUE_THRESHOLD then pages
    else if pages >= HUGE_THRESHOLD then N_HBLK_FLS
    else (pages - UNIQUE_THRESHOLD) / FL_COMPRESSION + UNIQUE_THRESHOLD
  }

  /** Larger blocks are on the same or on later lists. */
  lemma IndexForMonotone(m: nat, n: nat)
    requires m <= n
    ensures IndexFor(m) <= IndexFor(n)
  {
  }

  /** The list without h. */
  function Without(list: seq<nat>, h: nat): (r: seq<nat>)
    ensures forall x :: x in r ==> x in list
    ensures forall x :: x in list && x != h ==> x in r
  {
    if list == [] then []
    else if list[0] == h then list[1..]
    else [list[0]] + Without(list[1..], h)
  }

  predicate Distinct(list: seq<nat>) {
    forall i, j :: 0 <= i < j < |list| ==> list[i] != list[j]
  }

  lemma {:induction false} WithoutAt(list: seq<nat>, k: nat)
    requires k < |list| && Distinct(list)
    ensures Without(list, list[k]) == list[..k] + list[k + 1..]
  {
    if k > 0 {
      var tail := list[1..];
      assert tail[k - 1] == list[k] && list[0] != list[k];
      WithoutAt(tail, k - 1);
      assert [list[0]] + (tail[..k - 1] + tail[k..]) == list[..k] + list[k + 1..];
    }
  }

  lemma WithoutDistinct(list: seq<nat>, h: nat)
    requires Distinct(list) && h in list
    ensures Distinct(Without(list, h)) && h !in Without(list, h) && |Without(list, h)| == |list| - 1
  {
    var k :| 0 <= k < |list| && list[k] == h;
    WithoutAt(list, k);
  }

  function NextOf(list: seq<nat>, i: nat): nat
    requires i < |list|
  {
    if i + 1 < |list| then list[i + 1] else 0
  }

  function PrevOf(list: seq<nat>, i: nat): nat
    requires i < |list|
  {
    if i > 0 then list[i - 1] else 0
  }

  /** The links of the ith block of a list. */
  predicate LinkedAt(list: seq<nat>, i: nat, next: map<nat, nat>, prev: map<nat, nat>)
    requires i < |list|
  {
    && list[i] != 0 && list[i] in next && list[i] in prev
    && next[list[i]] == NextOf(list, i) && prev[list[i]] == PrevOf(list, i)
  }

  /** Is list threaded through next and prev, from its head? */
  predicate Linked(list: seq<nat>, head: nat, next: map<nat, nat>, prev: map<nat, nat>) {
    && head == (if list == [] then 0 else list[0])
    && forall i :: 0 <= i < |list| ==> LinkedAt(list, i, next, prev)
  }

  /** No block is on two lists. */
  predicate Apart(lists: seq<seq<nat>>) {
    forall i, j :: 0 <= i < |lists| && 0 <= j < |lists| && i != j ==> forall x :: x in lists[i] ==> x !in lists[j]
  }

  /** All the lists. */
  predicate Threaded(lists: seq<seq<nat>>, heads: seq<nat>, next: map<nat, nat>, prev: map<nat, nat>) {
    && |heads| == |lists| && Apart(lists)
    && forall i :: 0 <= i < |lists| ==> Distinct(lists[i]) && Linked(lists[i], heads[i], next, prev)
  }

  // ---- Relinking ----

  /** Links of blocks that are not on list have changed. */
  lemma Kept(list: seq<nat>, head: nat, n0: map<nat, nat>, p0: map<nat, nat>, n1: map<nat, nat>, p1: map<nat, nat>)
    requires Linked(list, head, n0, p0)
    requires forall x :: x in list && x in n0 ==> x in n1 && n1[x] == n0[x]
    requires forall x :: x in list && x in p0 ==> x in p1 && p1[x] == p0[x]
    ensures Linked(list, head, n1, p1)
  {
    forall i | 0 <= i < |list| ensures LinkedAt(list, i, n1, p1) {
      assert LinkedAt(list, i, n0, p0) && list[i] in list;
    }
  }

  /** The neighbours of the kth block, in its list. */
  lemma Neighbours(list: seq<nat>, head: nat, next: map<nat, nat>, prev: map<nat, nat>, k: nat)
    requires Distinct(list) && k < |list| && Linked(list, head, next, prev)
    ensures LinkedAt(list, k, next, prev)
    ensures (PrevOf(list, k) == 0 <==> k == 0) && (NextOf(list, k) == 0 <==> k + 1 == |list|)
    ensures k > 0 ==> PrevOf(list, k) in list && PrevOf(list, k) in next
    ensures k + 1 < |list| ==> NextOf(list, k) in list && NextOf(list, k) in prev
  {
    if k > 0 {
      assert LinkedAt(list, k - 1, next, prev);
    }
    if k + 1 < |list| {
      assert LinkedAt(list, k + 1, next, prev);
    }
  }

  function Put(list: seq<nat>, k: nat, n: nat): seq<nat>
    requires k < |list|
  {
    list[k := n]
  }

  function Rest(list: seq<nat>, k: nat): seq<nat>
    requires k < |list|
  {
    list[..k] + list[k + 1..]
  }

  /** The links m, with one from x, if x is a block, to y. */
  function Link(m: map<nat, nat>, x: nat, y: nat): map<nat, nat> {
    if x == 0 then m else m[x := y]
  }

  /** The first blocks, when what follows p on list i is now q. */
  function Lead(heads: seq<nat>, i: nat, p: nat, q: nat): seq<nat>
    requires i < |heads|
  {
    if p == 0 then heads[i := q] else heads
  }

  lemma Unlinked(list: seq<nat>, k: nat, head: nat, n0: map<nat, nat>, p0: map<nat, nat>)
    requires Distinct(list) && k < |list| && Linked(list, head, n0, p0)
    ensures var p, q := PrevOf(list, k), NextOf(list, k);
            Distinct(Rest(list, k)) && Linked(Rest(list, k), if p == 0 then q else head, Link(n0, p, q), Link(p0, q, p))
  {
    var r, p, q := Rest(list, k), PrevOf(list, k), NextOf(list, k);
    var n1, p1 := Link(n0, p, q), Link(p0, q, p);
    Neighbours(list, head, n0, p0, k);
    forall i | 0 <= i < |r| ensures LinkedAt(r, i, n1, p1) {
      var j := if i < k then i else i + 1;
      assert r[i] == list[j] && LinkedAt(list, j, n0, p0);
      assert k > 0 && j != k - 1 ==> list[j] != list[k - 1];
      assert k + 1 < |list| && j != k + 1 ==> list[j] != list[k + 1];
      assert i + 1 < |r| ==> r[i + 1] == list[if i + 1 < k then i + 1 else i + 2];
      assert i > 0 ==> r[i - 1] == list[if i - 1 < k then i - 1 else i];
    }
  }

  /** The other lists, when only links of blocks on list i and of block h have changed. */
  lemma OthersKept(lists: seq<seq<nat>>, heads: seq<nat>, i: nat, h: nat, n0: map<nat, nat>, p0: map<nat, nat>,
                   n1: map<nat, nat>, p1: map<nat, nat>)
    requires i < |lists| && Threaded(lists, heads, n0, p0)
    requires forall j :: 0 <= j < |lists| && j != i ==> h !in lists[j]
    requires forall x :: x in n0 && x !in lists[i] && x != h ==> x in n1 && n1[x] == n0[x]
    requires forall x :: x in p0 && x !in lists[i] && x != h ==> x in p1 && p1[x] == p0[x]
    ensures forall j :: 0 <= j < |lists| && j != i ==> Linked(lists[j], heads[j], n1, p1)
  {
    forall j | 0 <= j < |lists| && j != i ensures Linked(lists[j], heads[j], n1, p1) {
      assert forall x :: x in lists[j] ==> x !in lists[i];
      Kept(lists[j], heads[j], n0, p0, n1, p1);
    }
  }

  lemma ApartStill(lists: seq<seq<nat>>, i: nat, list: seq<nat>, h: nat)
    requires i < |lists| && Apart(lists)
    requires forall x :: x in list ==> x in lists[i] || x == h
    requires forall j :: 0 <= j < |lists| && j != i ==> h !in lists[j]
    ensures Apart(lists[i := list])
  {
  }

  lemma ThreadedStill(lists: seq<seq<nat>>, heads: seq<nat>, heads': seq<nat>, i: nat, list: seq<nat>, h: nat,
                      n0: map<nat, nat>, p0: map<nat, nat>, n1: map<nat, nat>, p1: map<nat, nat>)
    requires i < |lists| && Threaded(lists, heads, n0, p0)
    requires |heads'| == |heads| && forall j :: 0 <= j < |heads| && j != i ==> heads'[j] == heads[j]
    requires Distinct(list) && Linked(list, heads'[i], n1, p1)
    requires forall x :: x in list ==> x in lists[i] || x == h
    requires forall j :: 0 <= j < |lists| && j != i ==> h !in lists[j]
    requires forall x :: x in n0 && x !in lists[i] && x != h ==> x in n1 && n1[x] == n0[x]
    requires forall x :: x in p0 && x !in lists[i] && x != h ==> x in p1 && p1[x] == p0[x]
    ensures Threaded(lists[i := list], heads', n1, p1)
  {
    ApartStill(lists, i, list, h);
    OthersKept(lists, heads, i, h, n0, p0, n1, p1);
  }

  /** Threaded, for where only that matters and not what it says: only `Shown` unfolds the quantifier. */
  ghost predicate Hidden(lists: seq<seq<nat>>, heads: seq<nat>, next: map<nat, nat>, prev: map<nat, nat>) {
    forall hs :: hs in [heads] ==> Threaded(lists, hs, next, prev)
  }

  lemma Shown(lists: seq<seq<nat>>, heads: seq<nat>, next: map<nat, nat>, prev: map<nat, nat>)
    ensures Hidden(lists, heads, next, prev) <==> Threaded(lists, heads, next, prev)
  {
    assert heads in [heads];
  }

  /** Where h is, and what its links are. */
  lemma Placed(lists: seq<seq<nat>>, heads: seq<nat>, n0: map<nat, nat>, p0: map<nat, nat>, i: nat, h: nat)
    returns (k: nat)
    requires Threaded(lists, heads, n0, p0) && i < |lists| && h in lists[i]
    ensures k < |lists[i]| && lists[i][k] == h && h in n0 && h in p0
    ensures p0[h] == PrevOf(lists[i], k) && n0[h] == NextOf(lists[i], k)
    ensures (p0[h] != 0 ==> p0[h] in n0) && (n0[h] != 0 ==> n0[h] in p0)
  {
    k :| 0 <= k < |lists[i]| && lists[i][k] == h;
    Neighbours(lists[i], heads[i], n0, p0, k);
  }

  lemma Unlinking(lists: seq<seq<nat>>, heads: seq<nat>, n0: map<nat, nat>, p0: map<nat, nat>, i: nat, h: nat)
    requires Hidden(lists, heads, n0, p0) && |lists| == |heads| && i < |lists| && h in lists[i]
    ensures h in n0 && h in p0
    ensures (p0[h] != 0 ==> p0[h] in n0) && (n0[h] != 0 ==> n0[h] in p0)
    ensures Hidden(lists[i := Without(lists[i], h)], Lead(heads, i, p0[h], n0[h]),
                   Link(n0, p0[h], n0[h]), Link(p0, n0[h], p0[h]))
  {
    Shown(lists, heads, n0, p0);
    var k := Placed(lists, heads, n0, p0, i, h);
    var list, p, q := lists[i], p0[h], n0[h];
    WithoutAt(list, k);
    Unlinked(list, k, heads[i], n0, p0);
    ThreadedStill(lists, heads, Lead(heads, i, p, q), i, Rest(list, k), h, n0, p0, Link(n0, p, q), Link(p0, q, p));
    Shown(lists[i := Rest(list, k)], Lead(heads, i, p, q), Link(n0, p, q), Link(p0, q, p));
  }

  lemma Pushed(list: seq<nat>, h: nat, head: nat, n0: map<nat, nat>, p0: map<nat, nat>)
    requires Distinct(list) && h !in list && h != 0 && Linked(list, head, n0, p0)
    ensures Distinct([h] + list)
    ensures Linked([h] + list, h, n0[h := head], if head == 0 then p0[h := 0] else p0[h := 0][head := h])
  {
    var r, n1 := [h] + list, n0[h := head];
    var p1 := if head == 0 then p0[h := 0] else p0[h := 0][head := h];
    assert list != [] ==> LinkedAt(list, 0, n0, p0);
    forall i | 0 <= i < |r| ensures LinkedAt(r, i, n1, p1) {
      if i > 0 {
        assert r[i] == list[i - 1] && list[i - 1] in list && LinkedAt(list, i - 1, n0, p0);
        assert i > 1 ==> list[i - 1] != list[0];
      }
    }
  }

  lemma Pushing(lists: seq<seq<nat>>, heads: seq<nat>, n0: map<nat, nat>, p0: map<nat, nat>, i: nat, h: nat)
    requires Hidden(lists, heads, n0, p0) && |lists| == |heads| && i < |lists|
    requires h != 0 && forall j :: 0 <= j < |lists| ==> h !in lists[j]
    ensures Hidden(lists[i := [h] + lists[i]], heads[i := h], n0[h := heads[i]], Link(p0[h := 0], heads[i], h))
  {
    Shown(lists, heads, n0, p0);
    var list, head := lists[i], heads[i];
    var n1, p1 := n0[h := head], Link(p0[h := 0], head, h);
    Pushed(list, h, head, n0, p0);
    assert head != 0 ==> head == list[0] && head in list;
    ThreadedStill(lists, heads, heads[i := h], i, [h] + list, h, n0, p0, n1, p1);
    Shown(lists[i := [h] + list], heads[i := h], n1, p1);
  }

  lemma Replaced(list: seq<nat>, k: nat, n: nat, head: nat, n0: map<nat, nat>, p0: map<nat, nat>)
    requires Distinct(list) && k < |list| && n !in list && n != 0 && Linked(list, head, n0, p0)
    ensures var p, q := PrevOf(list, k), NextOf(list, k);
            && Distinct(Put(list, k, n))
            && Linked(Put(list, k, n), if p == 0 then n else head, Link(n0[n := q], p, n), Link(p0[n := p], q, n))
  {
    var r, p, q := Put(list, k, n), PrevOf(list, k), NextOf(list, k);
    var n1, p1 := Link(n0[n := q], p, n), Link(p0[n := p], q, n);
    Neighbours(list, head, n0, p0, k);
    forall i | 0 <= i < |r| ensures LinkedAt(r, i, n1, p1) {
      assert list[i] in list && list[i] != n && LinkedAt(list, i, n0, p0);
      assert k > 0 && i != k - 1 ==> list[i] != list[k - 1];
      assert k + 1 < |list| && i != k + 1 ==> list[i] != list[k + 1];
    }
  }

  lemma PutWithout(list: seq<nat>, k: nat, n: nat)
    requires k < |list| && Distinct(list) && n !in list && Distinct(Put(list, k, n))
    ensures Without(Put(list, k, n), n) == Without(list, list[k]) && n in Put(list, k, n) && list[k] !in Put(list, k, n)
    ensures forall x :: x in Put(list, k, n) ==> x in list || x == n
  {
    WithoutAt(list, k);
    WithoutAt(Put(list, k, n), k);
    assert Rest(Put(list, k, n), k) == Rest(list, k);
    assert Put(list, k, n)[k] == n;
  }

  /** Block n in the place of block h. */
  lemma Replacing(lists: seq<seq<nat>>, heads: seq<nat>, n0: map<nat, nat>, p0: map<nat, nat>, i: nat, h: nat, n: nat)
    returns (list: seq<nat>)
    requires Hidden(lists, heads, n0, p0) && |lists| == |heads| && i < |lists| && h in lists[i]
    requires n != 0 && forall j :: 0 <= j < |lists| ==> n !in lists[j]
    ensures h in n0 && h in p0 && (p0[h] != 0 ==> p0[h] in n0) && (n0[h] != 0 ==> n0[h] in p0)
    ensures Without(list, n) == Without(lists[i], h) && n in list && h !in list
    ensures Hidden(lists[i := list], Lead(heads, i, p0[h], n),
                   Link(n0[n := n0[h]], p0[h], n), Link(p0[n := p0[h]], n0[h], n))
  {
    Shown(lists, heads, n0, p0);
    var k := Placed(lists, heads, n0, p0, i, h);
    list := Put(lists[i], k, n);
    var hs, n1, p1 := Lead(heads, i, p0[h], n), Link(n0[n := n0[h]], p0[h], n), Link(p0[n := p0[h]], n0[h], n);
    Replaced(lists[i], k, n, heads[i], n0, p0);
    PutWithout(lists[i], k, n);
    ThreadedStill(lists, heads, hs, i, list, n, n0, p0, n1, p1);
    Shown(lists[i := list], hs, n1, p1);
  }

  // ---- The lists as an object ----

  /** No block is on a list twice, or on two lists. */
  ghost predicate Orderly(lists: seq<seq<nat>>) {
    Apart(lists) && forall i :: 0 <= i < |lists| ==> Distinct(lists[i])
  }

  class Lists {
    var heads: seq<nat>              // 0 for an empty list
    var next: map<nat, nat>          // the fields of the blocks' headers
    var prev: map<nat, nat>
    var bytes: seq<nat>              // of the blocks on each list
    ghost var lists: seq<seq<nat>>

    /** Everything is linked as `lists` says. */
    ghost predicate Valid()
      reads this
    {
      |heads| == |bytes| == |lists| == N_HBLK_FLS + 1 && Hidden(lists, heads, next, prev)
    }

    lemma InOrder()
      requires Valid()
      ensures Orderly(lists)
    {
      Shown(lists, heads, next, prev);
    }

    constructor ()
      ensures Valid() && lists == seq(N_HBLK_FLS + 1, _ => []) && bytes == seq(N_HBLK_FLS + 1, _ => 0)
    {
      heads := seq(N_HBLK_FLS + 1, _ => 0);
      next, prev := map[], map[];
      bytes := seq(N_HBLK_FLS + 1, _ => 0);
      lists := seq(N_HBLK_FLS + 1, _ => []);
      new;
      Shown(lists, heads, next, prev);
    }

    /** The first block of list i, or 0. */
    method First(i: nat) returns (h: nat)
      requires Valid() && i < |lists|
      ensures h == if lists[i] == [] then 0 else lists[i][0]
    {
      Shown(lists, heads, next, prev);
      h := heads[i];
    }

    /** The blocks after and before h, which is the kth of list i, or 0. */
    method Around(h: nat, i: nat, ghost k: nat) returns (p: nat, q: nat)
      requires Valid() && i < |lists| && k < |lists[i]| && h == lists[i][k]
      ensures p == PrevOf(lists[i], k) && q == NextOf(lists[i], k)
      ensures (p == 0 <==> k == 0) && (q == 0 <==> k + 1 == |lists[i]|)
    {
      Shown(lists, heads, next, prev);
      Neighbours(lists[i], heads[i], next, prev, k);
      p, q := prev[h], next[h];
    }

    /** `GC_remove_from_fl_at`. */
    method RemoveAt(h: nat, i: nat, size: nat)
      requires Valid() && |lists| == |bytes| && i < |lists| && h in lists[i] && bytes[i] >= size
      modifies this
      ensures Valid()
      ensures lists == old(lists)[i := Without(old(lists)[i], h)]
      ensures bytes == old(bytes)[i := old(bytes)[i] - size]
    {
      Unlinking(lists, heads, next, prev, i, h);
      if prev[h] == 0 {
        heads := heads[i := next[h]];
      } else {
        next := next[prev[h] := next[h]];
      }
      bytes := bytes[i := bytes[i] - size];
      if next[h] != 0 {
        prev := prev[next[h] := prev[h]];
      }
      lists := lists[i := Without(lists[i], h)];
    }

    /** `GC_add_to_fl`. */
    method Add(h: nat, i: nat, size: nat)
      requires Valid() && |lists| == |bytes| && i < |lists| && h != 0 && forall j :: 0 <= j < |lists| ==> h !in lists[j]
      modifies this
      ensures Valid()
      ensures lists == old(lists)[i := [h] + old(lists)[i]]
      ensures bytes == old(bytes)[i := old(bytes)[i] + size]
    {
      Pushing(lists, heads, next, prev, i, h);
      var second := heads[i];
      heads := heads[i := h];
      bytes := bytes[i := bytes[i] + size];
      next := next[h := second];
      prev := prev[h := 0];
      if second != 0 {
        prev := prev[second := h];
      }
      ghost var longer: seq<nat> := [h] + lists[i];
      lists := lists[i := longer];
    }

    /** The part of `GC_split_block` that puts n in the place of h. */
    method Replace(h: nat, n: nat, i: nat, cut: nat)
      requires Valid() && |lists| == |bytes| && i < |lists| && h in lists[i] && bytes[i] >= cut
      requires n != 0 && forall j :: 0 <= j < |lists| ==> n !in lists[j]
      modifies this
      ensures Valid()
      ensures |lists| == |old(lists)| && lists == old(lists)[i := lists[i]] && n in lists[i] && h !in lists[i]
      ensures Without(lists[i], n) == Without(old(lists)[i], h)
      ensures bytes == old(bytes)[i := old(bytes)[i] - cut]
    {
      ghost var list := Replacing(lists, heads, next, prev, i, h, n);
      var p, q := prev[h], next[h];
      prev := prev[n := p];
      next := next[n := q];
      if p != 0 {
        next := next[p := n];
      } else {
        heads := heads[i := n];
      }
      if q != 0 {
        prev := prev[q := n];
      }
      bytes := bytes[i := bytes[i] - cut];
      lists := lists[i := list];
    }
  }
}
