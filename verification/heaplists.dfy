/** Free lists that hold the free blocks of a heap, each where its size says. */
module HeapLists {
  import opened HeapModel
  import opened FreeLists

  type ListSeq = seq<seq<nat>>

  /** Everything on list i is a free block that belongs there. */
  predicate Proper(blocks: Blocks, lists: ListSeq) {
    forall i, b :: 0 <= i < |lists| && b in lists[i] ==>
      b in blocks && blocks[b].Free? && IndexFor(Pages(blocks, b)) == i
  }

  /** Free blocks, but for x, are on their lists, and x is on none. */
  predicate ListedBut(blocks: Blocks, lists: ListSeq, x: nat) {
    && |lists| == N_HBLK_FLS + 1 && Proper(blocks, lists)
    && (forall b :: b in blocks && blocks[b].Free? && b != x ==> b in lists[IndexFor(Pages(blocks, b))])
    && (forall i :: 0 <= i < |lists| ==> x !in lists[i])
  }

  /** Each free block is on the list its size selects, and nothing else is on a list. */
  predicate Listed(blocks: Blocks, lists: ListSeq) {
    && |lists| == N_HBLK_FLS + 1 && Proper(blocks, lists)
    && (forall b :: b in blocks && blocks[b].Free? ==> b in lists[IndexFor(Pages(blocks, b))])
  }

  function PagesIn(blocks: Blocks, b: nat): nat {
    if b in blocks then Pages(blocks, b) else 0
  }

  function ListPages(blocks: Blocks, list: seq<nat>): nat {
    if list == [] then 0 else PagesIn(blocks, list[0]) + ListPages(blocks, list[1..])
  }

  /** The byte counts are those of the blocks on the lists. */
  predicate Measured(blocks: Blocks, lists: ListSeq, bytes: seq<nat>) {
    |bytes| == |lists| && forall i :: 0 <= i < |lists| ==> bytes[i] == HBLKSIZE * ListPages(blocks, lists[i])
  }

  /** Lists and counts fit the blocks. Stated so that only `Opened` unfolds it. */
  ghost predicate Fit(blocks: Blocks, lists: ListSeq, bytes: seq<nat>) {
    forall l :: l in [lists] ==> Listed(blocks, l) && Measured(blocks, l, bytes)
  }

  /** The same, but for block x. */
  ghost predicate FitBut(blocks: Blocks, lists: ListSeq, bytes: seq<nat>, x: nat) {
    forall l :: l in [lists] ==> ListedBut(blocks, l, x) && Measured(blocks, l, bytes)
  }

  lemma Opened(blocks: Blocks, lists: ListSeq, bytes: seq<nat>, x: nat)
    ensures Fit(blocks, lists, bytes) <==> Listed(blocks, lists) && Measured(blocks, lists, bytes)
    ensures FitBut(blocks, lists, bytes, x) <==> ListedBut(blocks, lists, x) && Measured(blocks, lists, bytes)
  {
    assert lists in [lists];
  }

  lemma {:induction false} ListPagesWithout(blocks: Blocks, list: seq<nat>, h: nat)
    requires h in list
    ensures ListPages(blocks, list) == PagesIn(blocks, h) + ListPages(blocks, Without(list, h))
  {
    if list[0] != h {
      ListPagesWithout(blocks, list[1..], h);
      assert Without(list, h) == [list[0]] + Without(list[1..], h);
    }
  }

  lemma {:induction false} ListPagesFrame(blocks: Blocks, blocks': Blocks, list: seq<nat>)
    requires forall b :: b in list ==> PagesIn(blocks, b) == PagesIn(blocks', b)
    ensures ListPages(blocks, list) == ListPages(blocks', list)
  {
    if list != [] {
      ListPagesFrame(blocks, blocks', list[1..]);
    }
  }

  /** Blocks that are on no list do not matter to the counts. */
  lemma MeasuredFrame(blocks: Blocks, blocks': Blocks, lists: ListSeq, bytes: seq<nat>)
    requires Measured(blocks, lists, bytes)
    requires forall i, b :: 0 <= i < |lists| && b in lists[i] ==> PagesIn(blocks, b) == PagesIn(blocks', b)
    ensures Measured(blocks', lists, bytes)
  {
    forall i | 0 <= i < |lists| ensures bytes[i] == HBLKSIZE * ListPages(blocks', lists[i]) {
      ListPagesFrame(blocks, blocks', lists[i]);
    }
  }

  // ---- Taking off and putting on ----

  /** A block taken off its list. */
  lemma TakeOff(blocks: Blocks, lists: ListSeq, bytes: seq<nat>, x: nat, i: nat)
    requires i < |lists| && x in lists[i] && x in blocks && Apart(lists) && Distinct(lists[i])
    requires Measured(blocks, lists, bytes)
    ensures bytes[i] >= HBLKSIZE * Pages(blocks, x)
    ensures var after := lists[i := Without(lists[i], x)];
            && Measured(blocks, after, bytes[i := bytes[i] - HBLKSIZE * Pages(blocks, x)])
            && (Listed(blocks, lists) ==> ListedBut(blocks, after, x))
            && (forall h :: h != x && ListedBut(blocks, lists, h) ==>
                  Proper(blocks, after) && forall j :: 0 <= j < |after| ==> x !in after[j] && h !in after[j])
  {
    ListPagesWithout(blocks, lists[i], x);
    WithoutDistinct(lists[i], x);
  }

  lemma TakenOff(blocks: Blocks, lists: ListSeq, bytes: seq<nat>, x: nat, i: nat)
    requires Fit(blocks, lists, bytes) && i < |lists| && x in lists[i] && Orderly(lists)
    ensures |lists| == |bytes| && x in blocks && blocks[x].Free? && bytes[i] >= HBLKSIZE * Pages(blocks, x)
    ensures FitBut(blocks, lists[i := Without(lists[i], x)], bytes[i := bytes[i] - HBLKSIZE * Pages(blocks, x)], x)
  {
    Opened(blocks, lists, bytes, x);
    TakeOff(blocks, lists, bytes, x, i);
    Opened(blocks, lists[i := Without(lists[i], x)], bytes[i := bytes[i] - HBLKSIZE * Pages(blocks, x)], x);
  }

  /** A block put on the list its size selects. */
  lemma PutOn(blocks: Blocks, lists: ListSeq, bytes: seq<nat>, x: nat)
    requires FitBut(blocks, lists, bytes, x) && x in blocks && blocks[x].Free?
    ensures |lists| == |bytes| == N_HBLK_FLS + 1 && forall j :: 0 <= j < |lists| ==> x !in lists[j]
    ensures var i := IndexFor(Pages(blocks, x));
            Fit(blocks, lists[i := [x] + lists[i]], bytes[i := bytes[i] + HBLKSIZE * Pages(blocks, x)])
  {
    var i := IndexFor(Pages(blocks, x));
    Opened(blocks, lists, bytes, x);
    var longer := [x] + lists[i];
    assert longer[1..] == lists[i];
    Opened(blocks, lists[i := longer], bytes[i := bytes[i] + HBLKSIZE * Pages(blocks, x)], x);
  }

  // ---- Freeing ----

  /** A block newly free. */
  lemma MarkFree(blocks: Blocks, lists: ListSeq, bytes: seq<nat>, x: nat, n: nat)
    requires Fit(blocks, lists, bytes) && x in blocks && blocks[x].Used? && n == Pages(blocks, x)
    ensures FitBut(Marked(blocks, x, Free(n)), lists, bytes, x)
  {
    Opened(blocks, lists, bytes, x);
    MeasuredFrame(blocks, Marked(blocks, x, Free(n)), lists, bytes);
    Opened(Marked(blocks, x, Free(n)), lists, bytes, x);
  }

  /** A new block, in use. */
  lemma AddUsed(blocks: Blocks, lists: ListSeq, bytes: seq<nat>, x: nat, h: Header)
    requires Fit(blocks, lists, bytes) && x !in blocks && h.Used?
    ensures Fit(blocks[x := h], lists, bytes)
  {
    Opened(blocks, lists, bytes, x);
    MeasuredFrame(blocks, blocks[x := h], lists, bytes);
    Opened(blocks[x := h], lists, bytes, x);
  }

  lemma MergeProper(blocks: Blocks, lists: ListSeq, a: nat, b: nat, h: nat, x: nat)
    requires ListedBut(blocks, lists, h) && Orderly(lists) && Tiled(blocks)
    requires FreeNeighbours(blocks, a, b) && ((h == a && x == b) || (h == b && x == a))
    ensures var i := IndexFor(Pages(blocks, x));
            x in lists[i] && ListedBut(Merged(blocks, a, b), lists[i := Without(lists[i], x)], a)
  {
    MergeTiles(blocks, a, b);
    var i := IndexFor(Pages(blocks, x));
    WithoutDistinct(lists[i], x);
    var after := lists[i := Without(lists[i], x)];
    assert forall j :: 0 <= j < |after| ==> x !in after[j] && h !in after[j];
  }

  /** Merging a block that is on no list, h, with its neighbour x, which is taken off its list; they become block a. */
  lemma MergeListed(blocks: Blocks, lists: ListSeq, bytes: seq<nat>, a: nat, b: nat, h: nat, x: nat)
    requires FitBut(blocks, lists, bytes, h) && Orderly(lists) && Tiled(blocks)
    requires FreeNeighbours(blocks, a, b) && ((h == a && x == b) || (h == b && x == a))
    ensures |lists| == |bytes| == N_HBLK_FLS + 1
    ensures var i := IndexFor(Pages(blocks, x));
            && x in lists[i] && bytes[i] >= HBLKSIZE * Pages(blocks, x)
            && FitBut(Merged(blocks, a, b), lists[i := Without(lists[i], x)],
                      bytes[i := bytes[i] - HBLKSIZE * Pages(blocks, x)], a)
  {
    var i := IndexFor(Pages(blocks, x));
    Opened(blocks, lists, bytes, h);
    MergeProper(blocks, lists, a, b, h, x);
    TakeOff(blocks, lists, bytes, x, i);
    var after, counts := lists[i := Without(lists[i], x)], bytes[i := bytes[i] - HBLKSIZE * Pages(blocks, x)];
    MergeMeasured(blocks, after, counts, a, b, h, x);
    Opened(Merged(blocks, a, b), after, counts, a);
  }

  lemma MergeMeasured(blocks: Blocks, lists: ListSeq, bytes: seq<nat>, a: nat, b: nat, h: nat, x: nat)
    requires a in blocks && b in blocks && Measured(blocks, lists, bytes) && ((h == a && x == b) || (h == b && x == a))
    requires forall j :: 0 <= j < |lists| ==> x !in lists[j] && h !in lists[j]
    ensures Measured(Merged(blocks, a, b), lists, bytes)
  {
    MeasuredFrame(blocks, Merged(blocks, a, b), lists, bytes);
  }

  // ---- Allocating ----

  lemma SplitProper(blocks: Blocks, lists: ListSeq, x: nat, n: nat, p: nat, q: nat)
    requires ListedBut(blocks, lists, x) && Tiled(blocks) && x in blocks && blocks[x].Free? && 0 < n < Pages(blocks, x)
    requires (p == x && q == x + n) || (p == x + n && q == x)
    ensures x + n !in blocks && forall j :: 0 <= j < |lists| ==> x !in lists[j] && x + n !in lists[j]
    ensures var i := IndexFor(if p == x then n else Pages(blocks, x) - n);
            ListedBut(Split(blocks, x, n), lists[i := [p] + lists[i]], q)
  {
    SplitTiles(blocks, x, n);
  }

  lemma SplitMeasured(blocks: Blocks, lists: ListSeq, bytes: seq<nat>, x: nat, n: nat, p: nat)
    requires Measured(blocks, lists, bytes) && Tiled(blocks) && x in blocks && blocks[x].Free?
    requires 0 < n < Pages(blocks, x)
    requires p == x || p == x + n
    requires forall j :: 0 <= j < |lists| ==> x !in lists[j] && x + n !in lists[j]
    ensures var k := if p == x then n else Pages(blocks, x) - n;
            forall i :: 0 <= i < |lists| ==>
              Measured(Split(blocks, x, n), lists[i := [p] + lists[i]], bytes[i := bytes[i] + HBLKSIZE * k])
  {
    SplitTiles(blocks, x, n);
    var after := Split(blocks, x, n);
    MeasuredFrame(blocks, after, lists, bytes);
    forall i | 0 <= i < |lists|
      ensures Measured(after, lists[i := [p] + lists[i]],
                bytes[i := bytes[i] + HBLKSIZE * (if p == x then n else Pages(blocks, x) - n)])
    {
      var longer := [p] + lists[i];
      assert longer[1..] == lists[i];
    }
  }

  /** Splitting a block x that is on no list: either part, p, is put on its list, and the other, q, is on none. */
  lemma SplitListed(blocks: Blocks, lists: ListSeq, bytes: seq<nat>, x: nat, n: nat, p: nat, q: nat)
    requires FitBut(blocks, lists, bytes, x) && Tiled(blocks) && x in blocks && blocks[x].Free?
    requires 0 < n < Pages(blocks, x)
    requires (p == x && q == x + n) || (p == x + n && q == x)
    ensures |lists| == |bytes| == N_HBLK_FLS + 1 && x + n !in blocks
    ensures forall j :: 0 <= j < |lists| ==> x !in lists[j] && x + n !in lists[j]
    ensures var k := if p == x then n else Pages(blocks, x) - n;
            var i := IndexFor(k);
            FitBut(Split(blocks, x, n), lists[i := [p] + lists[i]], bytes[i := bytes[i] + HBLKSIZE * k], q)
  {
    Opened(blocks, lists, bytes, x);
    SplitProper(blocks, lists, x, n, p, q);
    SplitMeasured(blocks, lists, bytes, x, n, p);
    var k := if p == x then n else Pages(blocks, x) - n;
    var i := IndexFor(k);
    Opened(Split(blocks, x, n), lists[i := [p] + lists[i]], bytes[i := bytes[i] + HBLKSIZE * k], q);
  }

  /** A block that is on no list is put to use. */
  lemma MarkUsed(blocks: Blocks, lists: ListSeq, bytes: seq<nat>, x: nat, h: Header)
    requires FitBut(blocks, lists, bytes, x) && x in blocks && h.Used?
    ensures Fit(Marked(blocks, x, h), lists, bytes)
  {
    Opened(blocks, lists, bytes, x);
    MeasuredFrame(blocks, Marked(blocks, x, h), lists, bytes);
    Opened(Marked(blocks, x, h), lists, bytes, x);
  }

  lemma UseFrontProper(blocks: Blocks, lists: ListSeq, x: nat, n: nat, h: Header)
    requires ListedBut(blocks, lists, x) && Tiled(blocks) && x in blocks && blocks[x].Free?
    requires 0 < n < Pages(blocks, x) && h.Used?
    ensures var after := Marked(Split(blocks, x, n), x, h);
            && ListedBut(after, lists, x + n)
            && forall i, b :: 0 <= i < |lists| && b in lists[i] ==> PagesIn(blocks, b) == PagesIn(after, b)
  {
    SplitTiles(blocks, x, n);
  }

  /** The first n pages of a block that is on no list are put to use, and the others are on no list. */
  lemma UseFront(blocks: Blocks, lists: ListSeq, bytes: seq<nat>, x: nat, n: nat, h: Header)
    requires FitBut(blocks, lists, bytes, x) && Tiled(blocks) && x in blocks && blocks[x].Free?
    requires 0 < n < Pages(blocks, x) && h.Used?
    ensures FitBut(Marked(Split(blocks, x, n), x, h), lists, bytes, x + n)
  {
    Opened(blocks, lists, bytes, x);
    var after := Marked(Split(blocks, x, n), x, h);
    UseFrontProper(blocks, lists, x, n, h);
    MeasuredFrame(blocks, after, lists, bytes);
    Opened(after, lists, bytes, x + n);
  }
}
