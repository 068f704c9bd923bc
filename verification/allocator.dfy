/** The heap block allocator: growing the heap, allocating blocks, and freeing them. */
module Allocator {
  import opened HeapModel
  import opened FreeLists
  import opened HeapLists
  import opened BlockIndex

  /** Sizes below this do not look negative. */
  const SIGNB: nat := 0x8000_0000_0000_0000

  /** Pages that addresses can name. */
  const ADDRESSABLE: nat := 0x1_0000_0000_0000_0000 / HBLKSIZE

  /** Addresses wrap round. */
  function Wrapped(p: nat): nat {
    if p >= ADDRESSABLE then p - ADDRESSABLE else p
  }

  const MAX_BLACK_LIST_ALLOC: nat := 2

  /** None of the n pages from h on is black-listed. */
  predicate CleanAt(bad: nat -> bool, h: nat, n: nat) {
    forall p :: h <= p < h + n ==> !bad(p)
  }

  /** `GC_is_black_listed`: the page after the first black-listed one of the n from h on, or 0. */
  function BlackListed(bad: nat -> bool, h: nat, n: nat): (r: nat)
    ensures r == 0 || h < r <= h + n
    ensures r == 0 <==> CleanAt(bad, h, n)
    ensures r != 0 ==> bad(r - 1)
    decreases n
  {
    if n == 0 then 0 else if bad(h) then h + 1 else BlackListed(bad, h + 1, n - 1)
  }

  /** Part of the heap: pages obtained together. */
  datatype Section = Section(start: nat, pages: nat)

  predicate InSection(s: Section, p: nat) {
    s.start <= p < s.start + s.pages
  }

  ghost predicate InHeap(sections: seq<Section>, p: nat) {
    exists i :: 0 <= i < |sections| && InSection(sections[i], p)
  }

  // ---- The index, as blocks change ----

  lemma StartsUpdate(e: Entries, p: nat, h: Header)
    ensures Starts(e[p := Start(h)]) == Starts(e)[p := h]
  {
  }

  /** The counts of a block in use are all there or none is, and those of the others are as they should be. */
  ghost predicate CountedBut(e: Entries, h: nat)
    requires h in e && e[h].Start?
  {
    && (forall p: nat :: p in e && e[p].Jump? ==> exists b: nat :: Inside(e, b, p))
    && (forall b: nat, p: nat :: Inside(e, b, p) && b != h ==> p in e && e[p] == Jump(Count(p - b)))
    && ((forall p: nat :: h < p < h + e[h].h.Pages() ==> p in e) ||
        (forall p: nat :: h < p < h + e[h].h.Pages() ==> p !in e))
  }

  /** The index with block h free. */
  function Freed(e: Entries, h: nat): Entries
    requires h in e && e[h].Start?
  {
    (e - Interior(h, e[h].h.Pages()))[h := Start(Free(e[h].h.Pages()))]
  }

  lemma FreedStarts(e: Entries, h: nat)
    requires Tiled(Starts(e)) && h in e && e[h].Start?
    ensures Starts(Freed(e, h)) == Marked(Starts(e), h, Free(e[h].h.Pages()))
  {
    var n, blocks := e[h].h.Pages(), Starts(e);
    assert End(blocks, h) == h + n;
    forall p: nat | p in blocks ensures p !in Interior(h, n) {
      assert p > h ==> End(blocks, h) <= p;
    }
  }

  lemma FreedIndexed(e: Entries, h: nat)
    requires Tiled(Starts(e)) && h in e && e[h].Start? && e[h].h.Used? && CountedBut(e, h)
    ensures Indexed(Freed(e, h))
  {
    var n, f := e[h].h.Pages(), Freed(e, h);
    FreedStarts(e, h);
    MarkKeeps(Starts(e), h, Free(n));
    forall b: nat, p: nat ensures Inside(f, b, p) <==> Inside(e, b, p) && b != h {
      if Inside(e, b, p) && b != h {
        OwnPages(e, b, h, p);
        OwnPages(e, b, h, b);
      }
    }
    forall p: nat | p in f && f[p].Jump? ensures exists b: nat :: Inside(f, b, p) {
      assert !InInterior(h, n, p);
      var b: nat :| Inside(e, b, p);
      assert b != h && Inside(f, b, p);
    }
    forall b: nat, p: nat | Inside(f, b, p) ensures p in f && f[p] == Jump(Count(p - b)) {
      OwnPages(e, b, h, p);
    }
  }

  /** Two blocks share no page. */
  lemma OwnPages(e: Entries, b: nat, h: nat, p: nat)
    requires Tiled(Starts(e)) && b in e && e[b].Start? && h in e && e[h].Start? && b != h && b <= p < b + e[b].h.Pages()
    ensures p != h && !InInterior(h, e[h].h.Pages(), p)
  {
    var blocks := Starts(e);
    assert b in blocks && h in blocks && Pages(blocks, b) == e[b].h.Pages() && Pages(blocks, h) == e[h].h.Pages();
    assert b < h ==> End(blocks, b) <= h;
    assert h < b ==> End(blocks, h) <= b;
  }

  /** The index with blocks a and b merged. */
  lemma MergedIndexed(e: Entries, a: nat, b: nat)
    requires Indexed(e) && FreeNeighbours(Starts(e), a, b)
    ensures var f := e[a := Start(Free(e[a].h.Pages() + e[b].h.Pages()))] - {b};
            Starts(f) == Merged(Starts(e), a, b) && Indexed(f)
  {
    var f := e[a := Start(Free(e[a].h.Pages() + e[b].h.Pages()))] - {b};
    MergeTiles(Starts(e), a, b);
    assert Starts(f) == Merged(Starts(e), a, b);
    SameUse(e, f);
  }

  /** Free blocks have changed, and nothing else. */
  lemma SameUse(e: Entries, f: Entries)
    requires Counted(e)
    requires forall p: nat :: p in e && !(e[p].Start? && e[p].h.Free?) ==> p in f && f[p] == e[p]
    requires forall p: nat :: p in f && !(f[p].Start? && f[p].h.Free?) ==> p in e && f[p] == e[p]
    ensures Counted(f)
  {
    forall b: nat, p: nat ensures Inside(f, b, p) <==> Inside(e, b, p) {
    }
    forall p: nat | p in f && f[p].Jump? ensures exists b: nat :: Inside(f, b, p) {
      var b: nat :| Inside(e, b, p);
      assert Inside(f, b, p);
    }
  }

  /** The index with block a split. */
  lemma SplitIndexed(e: Entries, a: nat, n: nat)
    requires Indexed(e) && a in e && e[a].Start? && e[a].h.Free? && 0 < n < e[a].h.Pages()
    ensures var f := e[a := Start(Free(n))][a + n := Start(Free(e[a].h.Pages() - n))];
            a + n !in e && Starts(f) == Split(Starts(e), a, n) && Indexed(f)
  {
    var f := e[a := Start(Free(n))][a + n := Start(Free(e[a].h.Pages() - n))];
    SplitTiles(Starts(e), a, n);
    if a + n in e {
      var b := JumpInside(e, a + n);
      assert b != a;
      OwnPages(e, b, a, a + n);
    }
    assert Starts(f) == Split(Starts(e), a, n);
    SameUse(e, f);
  }

  /** The index with free block x put to use. */
  lemma UsedIndexed(e: Entries, x: nat, sz: nat)
    requires Indexed(e) && x in e && e[x].Start? && e[x].h.Free? && PagesFor(sz) == e[x].h.Pages()
    ensures var f := (e + Counts(x, PagesFor(sz)))[x := Start(Used(sz))];
            Starts(f) == Marked(Starts(e), x, Used(sz)) && Indexed(f)
  {
    var n := PagesFor(sz);
    var f := (e + Counts(x, n))[x := Start(Used(sz))];
    forall p: nat | p in e && p != x ensures !InInterior(x, n, p) {
      if e[p].Start? {
        assert Pages(Starts(e), p) > 0;
        OwnPages(e, p, x, p);
      } else {
        var b := JumpInside(e, p);
        assert b != x;
        OwnPages(e, b, x, p);
      }
    }
    assert Starts(f) == Marked(Starts(e), x, Used(sz));
    MarkKeeps(Starts(e), x, Used(sz));
    forall b: nat, p: nat ensures Inside(f, b, p) <==> Inside(e, b, p) || (b == x && InInterior(x, n, p)) {
    }
    forall p: nat | p in f && f[p].Jump? ensures exists b: nat :: Inside(f, b, p) {
      if InInterior(x, n, p) {
        assert Inside(f, x, p);
      } else {
        var b: nat :| Inside(e, b, p);
        assert Inside(f, b, p);
      }
    }
  }

  // ---- Invariants ----

  /** What the heap's size and the free bytes are. */
  ghost predicate Accounts(blocks: Blocks, free: nat, size: nat) {
    free == HBLKSIZE * Total(blocks, true) && size == free + HBLKSIZE * Total(blocks, false)
  }

  /** Blocks tile the sections. */
  ghost predicate Tiles(blocks: Blocks, sections: seq<Section>) {
    forall p: nat :: Covers(blocks, p) <==> InHeap(sections, p)
  }

  /** Between calls. */
  ghost predicate Sound(e: Entries, lists: ListSeq, bytes: seq<nat>) {
    Indexed(e) && 0 !in e && WordSized(e) && Coalesced(Starts(e)) && Fit(Starts(e), lists, bytes)
  }

  /** Free block x is on no list. */
  ghost predicate Loose(e: Entries, lists: ListSeq, bytes: seq<nat>, x: nat) {
    && Indexed(e) && 0 !in e && WordSized(e) && x in e && e[x].Start? && e[x].h.Free?
    && FitBut(Starts(e), lists, bytes, x)
  }

  /** Block h, in use, is about to be freed. */
  ghost predicate Freeable(e: Entries, lists: ListSeq, bytes: seq<nat>, h: nat) {
    && h in e && e[h].Start? && e[h].h.Used? && 0 !in e && Tiled(Starts(e)) && CountedBut(e, h) && WordSized(e)
    && Coalesced(Starts(e)) && Fit(Starts(e), lists, bytes)
  }

  /** Any block in use can be freed. */
  lemma UsedIsFreeable(e: Entries, lists: ListSeq, bytes: seq<nat>, h: nat)
    requires Sound(e, lists, bytes) && h in e && e[h].Start? && e[h].h.Used?
    ensures Freeable(e, lists, bytes, h)
  {
    forall p: nat | h < p < h + e[h].h.Pages() ensures p in e {
      assert Inside(e, h, p);
    }
  }

  lemma FreedIsLoose(e: Entries, lists: ListSeq, bytes: seq<nat>, h: nat)
    requires Freeable(e, lists, bytes, h)
    ensures var f := Freed(e, h); Loose(f, lists, bytes, h) && CoalescedBut(Starts(f), h)
    ensures Starts(Freed(e, h)) == Marked(Starts(e), h, Free(e[h].h.Pages()))
  {
    var n := e[h].h.Pages();
    FreedStarts(e, h);
    FreedIndexed(e, h);
    MarkKeeps(Starts(e), h, Free(n));
    MarkFree(Starts(e), lists, bytes, h, n);
  }

  /** What freeing changes in the accounts. */
  lemma FreedAccounts(blocks: Blocks, h: nat, free: nat, size: nat)
    requires h in blocks && blocks[h].Used? && Accounts(blocks, free, size)
    ensures Accounts(Marked(blocks, h, Free(Pages(blocks, h))), free + HBLKSIZE * Pages(blocks, h), size)
  {
    TotalUpdate(blocks, h, Free(Pages(blocks, h)), true);
    TotalUpdate(blocks, h, Free(Pages(blocks, h)), false);
  }

  lemma UsedAccounts(blocks: Blocks, x: nat, sz: nat, free: nat, size: nat)
    requires x in blocks && blocks[x].Free? && Pages(blocks, x) == PagesFor(sz) && Accounts(blocks, free, size)
    ensures free >= HBLKSIZE * PagesFor(sz)
    ensures Accounts(Marked(blocks, x, Used(sz)), free - HBLKSIZE * PagesFor(sz), size)
  {
    TotalUpdate(blocks, x, Used(sz), true);
    TotalUpdate(blocks, x, Used(sz), false);
    TotalAtLeast(blocks, x);
  }

  /** No two free blocks are too large to merge, in a heap of less than half of all addresses. */
  lemma NoOverflow(blocks: Blocks, a: nat, b: nat, free: nat, size: nat)
    requires FreeNeighbours(blocks, a, b) && Tiled(blocks) && Accounts(blocks, free, size) && size < SIGNB
    ensures a != b && HBLKSIZE * (Pages(blocks, a) + Pages(blocks, b)) < SIGNB
  {
    TotalWithout(blocks, a, true);
    TotalWithout(blocks - {a}, b, true);
  }

  /** Free blocks a and b become one. */
  function MergedEntries(e: Entries, a: nat, b: nat): Entries
    requires a in e && e[a].Start? && b in e && e[b].Start?
  {
    e[a := Start(Free(e[a].h.Pages() + e[b].h.Pages()))] - {b}
  }

  lemma MergedWords(e: Entries, a: nat, b: nat)
    requires a in e && e[a].Start? && b in e && e[b].Start? && a != b && 0 !in e && WordSized(e)
    ensures 0 !in MergedEntries(e, a, b) && WordSized(MergedEntries(e, a, b))
    ensures a in MergedEntries(e, a, b) && MergedEntries(e, a, b)[a] == Start(Free(e[a].h.Pages() + e[b].h.Pages()))
  {
  }

  lemma NextMerged(e: Entries, lists: ListSeq, bytes: seq<nat>, h: nat, next: nat)
    requires Loose(e, lists, bytes, h) && FreeNeighbours(Starts(e), h, next) && Orderly(lists)
    ensures next in e && e[next].Start? && |lists| == |bytes| == N_HBLK_FLS + 1
    ensures var k, i := e[next].h.Pages(), IndexFor(e[next].h.Pages());
            && next in lists[i] && bytes[i] >= HBLKSIZE * k
            && Loose(MergedEntries(e, h, next), lists[i := Without(lists[i], next)],
                     bytes[i := bytes[i] - HBLKSIZE * k], h)
            && Starts(MergedEntries(e, h, next)) == Merged(Starts(e), h, next)
  {
    MergeListed(Starts(e), lists, bytes, h, next, h, next);
    MergedIndexed(e, h, next);
    MergedWords(e, h, next);
  }

  lemma PrevMerged(e: Entries, lists: ListSeq, bytes: seq<nat>, prev: nat, h: nat)
    requires Loose(e, lists, bytes, h) && FreeNeighbours(Starts(e), prev, h) && Orderly(lists)
    ensures prev in e && e[prev].Start? && |lists| == |bytes| == N_HBLK_FLS + 1
    ensures var k, i := e[prev].h.Pages(), IndexFor(e[prev].h.Pages());
            && prev in lists[i] && bytes[i] >= HBLKSIZE * k
            && Loose(MergedEntries(e, prev, h), lists[i := Without(lists[i], prev)],
                     bytes[i := bytes[i] - HBLKSIZE * k], prev)
            && Starts(MergedEntries(e, prev, h)) == Merged(Starts(e), prev, h)
  {
    MergeListed(Starts(e), lists, bytes, prev, h, h, prev);
    MergedIndexed(e, prev, h);
    MergedWords(e, prev, h);
  }

  /** Apart from block h, the blocks in use are the same. */
  ghost predicate SameUsed(before: Blocks, after: Blocks, h: nat) {
    forall b: nat :: b != h ==> ((b in before && before[b].Used?) <==> (b in after && after[b].Used?))
                                && (b in before && before[b].Used? ==> after[b] == before[b])
  }

  ghost predicate NoRight(blocks: Blocks, h: nat) {
    forall c :: !FreeNeighbours(blocks, h, c)
  }

  ghost predicate NoLeft(blocks: Blocks, h: nat) {
    forall a :: !FreeNeighbours(blocks, a, h)
  }

  /** What is kept while a freed block is merged with its neighbours. */
  ghost predicate Merging(before: Blocks, blocks: Blocks, h: nat, x: nat, free: nat, total: nat,
                          sections: seq<Section>) {
    && CoalescedBut(blocks, x) && SameUsed(before, blocks, h) && (h in blocks ==> blocks[h].Free?)
    && Accounts(blocks, free, total) && Tiles(blocks, sections)
  }

  lemma NextGone(before: Blocks, blocks: Blocks, h: nat, next: nat, free: nat, total: nat, sections: seq<Section>)
    requires Tiled(blocks) && FreeNeighbours(blocks, h, next) && Merging(before, blocks, h, h, free, total, sections)
    ensures var after := Merged(blocks, h, next);
            && Merging(before, after, h, h, free, total, sections) && NoRight(after, h)
            && forall a :: FreeNeighbours(after, a, h) <==> FreeNeighbours(blocks, a, h)
  {
    var after := Merged(blocks, h, next);
    MergeTiles(blocks, h, next);
    MergeCovers(blocks, h, next);
    MergeKeeps(blocks, h, next);
    assert forall c :: FreeNeighbours(after, h, c) ==> FreeNeighbours(blocks, next, c);
  }

  lemma PrevGone(before: Blocks, blocks: Blocks, h: nat, prev: nat, free: nat, total: nat, sections: seq<Section>)
    requires Tiled(blocks) && FreeNeighbours(blocks, prev, h) && Merging(before, blocks, h, h, free, total, sections)
    requires NoRight(blocks, h)
    ensures var after := Merged(blocks, prev, h);
            Merging(before, after, h, prev, free, total, sections) && NoRight(after, prev) && NoLeft(after, prev)
  {
    var after := Merged(blocks, prev, h);
    MergeTiles(blocks, prev, h);
    MergeCovers(blocks, prev, h);
    MergeKeeps(blocks, prev, h);
    assert forall c :: FreeNeighbours(after, prev, c) ==> FreeNeighbours(blocks, h, c);
    assert forall a :: FreeNeighbours(after, a, prev) ==> FreeNeighbours(blocks, a, prev);
  }

  lemma FreedMerging(blocks: Blocks, h: nat, free: nat, total: nat, sections: seq<Section>)
    requires Tiled(blocks) && Coalesced(blocks) && h in blocks && blocks[h].Used?
    requires Accounts(blocks, free, total) && Tiles(blocks, sections)
    ensures var n := Pages(blocks, h);
            Merging(blocks, Marked(blocks, h, Free(n)), h, h, free + HBLKSIZE * n, total, sections)
  {
    MarkKeeps(blocks, h, Free(Pages(blocks, h)));
    FreedAccounts(blocks, h, free, total);
  }

  /** Freeing block h, up to the merging. */
  lemma FreeBegins(e: Entries, lists: ListSeq, bytes: seq<nat>, h: nat, free: nat, total: nat, sections: seq<Section>)
    requires Freeable(e, lists, bytes, h) && Accounts(Starts(e), free, total) && Tiles(Starts(e), sections)
    ensures Loose(Freed(e, h), lists, bytes, h) && h != 0
    ensures Merging(Starts(e), Starts(Freed(e, h)), h, h, free + HBLKSIZE * e[h].h.Pages(), total, sections)
  {
    FreedIsLoose(e, lists, bytes, h);
    FreedMerging(Starts(e), h, free, total, sections);
  }

  /** What ends where block h starts. */
  lemma EndsAtStart(blocks: Blocks, h: nat)
    requires Tiled(blocks) && h in blocks && h > 0
    ensures forall b: nat :: Within(blocks, b, h - 1) ==> End(blocks, b) == h
  {
    forall b: nat | Within(blocks, b, h - 1) ensures End(blocks, b) == h {
      assert b < h;
    }
  }

  /** A loose block is put on its list. */
  lemma LooseListed(e: Entries, lists: ListSeq, bytes: seq<nat>, x: nat)
    requires Loose(e, lists, bytes, x) && CoalescedBut(Starts(e), x) && NoRight(Starts(e), x) && NoLeft(Starts(e), x)
    ensures x != 0 && forall j :: 0 <= j < |lists| ==> x !in lists[j]
    ensures var k := e[x].h.Pages();
            var i := IndexFor(k);
            i < |lists| && |lists| == |bytes|
            && Sound(e, lists[i := [x] + lists[i]], bytes[i := bytes[i] + HBLKSIZE * k])
  {
    PutOn(Starts(e), lists, bytes, x);
  }

  // ---- Growing ----

  /** New pages can be freed into the heap. */
  lemma NewPages(e: Entries, lists: ListSeq, bytes: seq<nat>, p: nat, n: nat)
    requires Sound(e, lists, bytes) && n > 0 && p > 0 && forall q: nat :: p <= q < p + n ==> !Covers(Starts(e), q)
    ensures var f := e[p := Start(Used(n * HBLKSIZE))];
            Freeable(f, lists, bytes, p) && Starts(f) == Starts(e)[p := Used(n * HBLKSIZE)] && f[p].h.Pages() == n
    ensures p !in Starts(e)
  {
    var f, blocks := e[p := Start(Used(n * HBLKSIZE))], Starts(e);
    AddKeeps(blocks, p, n);
    StartsUpdate(e, p, Used(n * HBLKSIZE));
    NoNewEntries(e, p, n);
    AddUsed(blocks, lists, bytes, p, Used(n * HBLKSIZE));
    OthersCounted(e, f, p);
    NewWords(e, p, n);
  }

  lemma NewWords(e: Entries, p: nat, n: nat)
    requires WordSized(e) && 0 !in e && p > 0 && n > 0
    ensures var f := e[p := Start(Used(n * HBLKSIZE))]; WordSized(f) && 0 !in f
  {
    assert (n * HBLKSIZE) % WORD == 0;
  }

  lemma NoNewEntries(e: Entries, p: nat, n: nat)
    requires Indexed(e) && forall q: nat :: p <= q < p + n ==> !Covers(Starts(e), q)
    ensures forall q: nat :: p <= q < p + n ==> q !in e
  {
    forall q: nat | p <= q < p + n ensures q !in e {
      if q in e {
        EntryCovered(e, q);
      }
    }
  }

  /** The index knows only pages of blocks. */
  lemma EntryCovered(e: Entries, q: nat)
    requires Indexed(e) && q in e
    ensures Covers(Starts(e), q)
  {
    if e[q].Start? {
      assert Pages(Starts(e), q) > 0;
      assert Within(Starts(e), q, q);
    } else {
      var b := JumpInside(e, q);
      assert Within(Starts(e), b, q);
    }
  }

  lemma OthersCounted(e: Entries, f: Entries, p: nat)
    requires Indexed(e) && p !in e && p in f && f == e[p := f[p]] && f[p].Start?
    requires forall q: nat :: p < q < p + f[p].h.Pages() ==> q !in e
    ensures CountedBut(f, p)
  {
    forall b: nat, q: nat ensures Inside(e, b, q) ==> Inside(f, b, q) {
    }
    forall q: nat | q in f && f[q].Jump? ensures exists b: nat :: Inside(f, b, q) {
      var b: nat :| Inside(e, b, q);
      assert Inside(f, b, q);
    }
    forall b: nat, q: nat | Inside(f, b, q) && b != p ensures q in f && f[q] == Jump(Count(q - b)) {
      assert Inside(e, b, q);
    }
  }

  lemma NewAccounts(blocks: Blocks, p: nat, n: nat, free: nat, size: nat, sections: seq<Section>)
    requires Tiled(blocks) && n > 0 && Accounts(blocks, free, size) && Tiles(blocks, sections)
    requires forall q: nat :: p <= q < p + n ==> !Covers(blocks, q)
    ensures var after := blocks[p := Used(n * HBLKSIZE)];
            Accounts(after, free, size + n * HBLKSIZE) && Tiles(after, sections + [Section(p, n)])
  {
    AddKeeps(blocks, p, n);
    MoreHeap(sections, p, n);
  }

  lemma MoreHeap(sections: seq<Section>, p: nat, n: nat)
    ensures forall q: nat :: InHeap(sections + [Section(p, n)], q) <==> InHeap(sections, q) || p <= q < p + n
  {
    var longer := sections + [Section(p, n)];
    forall q: nat ensures InHeap(longer, q) <==> InHeap(sections, q) || p <= q < p + n {
      if i :| 0 <= i < |sections| && InSection(sections[i], q) {
        assert InSection(longer[i], q);
      }
      if p <= q < p + n {
        assert InSection(longer[|sections|], q);
      }
    }
  }

  // ---- Allocating ----

  /** Block x is free, and on list i, whichever list its size selects. */
  ghost predicate Held(e: Entries, lists: ListSeq, bytes: seq<nat>, x: nat, i: nat) {
    && i < |lists| && |lists| == |bytes| && x in lists[i] && x in e && e[x].Start?
    && bytes[i] >= HBLKSIZE * e[x].h.Pages()
    && Loose(e, lists[i := Without(lists[i], x)], bytes[i := bytes[i] - HBLKSIZE * e[x].h.Pages()], x)
  }

  /** Held, for where only that matters; only `HeldOpened` unfolds it. */
  ghost predicate HeldHidden(e: Entries, lists: ListSeq, bytes: seq<nat>, x: nat, i: nat) {
    forall q :: q in [x] ==> Held(e, lists, bytes, q, i)
  }

  lemma HeldOpened(e: Entries, lists: ListSeq, bytes: seq<nat>, x: nat, i: nat)
    ensures HeldHidden(e, lists, bytes, x, i) <==> Held(e, lists, bytes, x, i)
  {
    assert x in [x];
  }

  /** Loose, for where only that matters; only `LooseOpened` unfolds it. */
  ghost predicate LooseHidden(e: Entries, lists: ListSeq, bytes: seq<nat>, x: nat) {
    forall q :: q in [x] ==> Loose(e, lists, bytes, q)
  }

  lemma LooseOpened(e: Entries, lists: ListSeq, bytes: seq<nat>, x: nat)
    ensures LooseHidden(e, lists, bytes, x) <==> Loose(e, lists, bytes, x)
  {
    assert x in [x];
  }

  lemma HeldIs(e: Entries, lists: ListSeq, bytes: seq<nat>, x: nat, i: nat)
    requires i < |lists| == |bytes| && x in lists[i] && x in e && e[x].Start? && bytes[i] >= HBLKSIZE * e[x].h.Pages()
    ensures HeldHidden(e, lists, bytes, x, i) <==>
            LooseHidden(e, lists[i := Without(lists[i], x)], bytes[i := bytes[i] - HBLKSIZE * e[x].h.Pages()], x)
  {
    HeldOpened(e, lists, bytes, x, i);
    LooseOpened(e, lists[i := Without(lists[i], x)], bytes[i := bytes[i] - HBLKSIZE * e[x].h.Pages()], x);
  }

  /** The only free neighbours are x and one before it. */
  ghost predicate OnlyBefore(blocks: Blocks, x: nat) {
    forall a, b :: FreeNeighbours(blocks, a, b) ==> b == x
  }

  lemma ListedHeld(e: Entries, lists: ListSeq, bytes: seq<nat>, x: nat, i: nat)
    requires Sound(e, lists, bytes) && Orderly(lists) && i < |lists| && x in lists[i]
    ensures Held(e, lists, bytes, x, i) && OnlyBefore(Starts(e), x) && x != 0
  {
    TakenOff(Starts(e), lists, bytes, x, i);
  }

  /** Free block x split after n pages. */
  function SplitEntries(e: Entries, x: nat, n: nat): Entries
    requires x in e && e[x].Start? && n <= e[x].h.Pages()
  {
    e[x := Start(Free(n))][x + n := Start(Free(e[x].h.Pages() - n))]
  }

  lemma SplitWords(e: Entries, x: nat, n: nat)
    requires x in e && e[x].Start? && 0 < n <= e[x].h.Pages() && 0 !in e && WordSized(e)
    ensures 0 !in SplitEntries(e, x, n) && WordSized(SplitEntries(e, x, n))
  {
  }

  /** What splitting keeps. */
  lemma SplitAccounts(blocks: Blocks, x: nat, n: nat, free: nat, size: nat, sections: seq<Section>)
    requires Tiled(blocks) && x in blocks && blocks[x].Free? && 0 < n < Pages(blocks, x)
    requires Accounts(blocks, free, size) && Tiles(blocks, sections)
    ensures var after := Split(blocks, x, n);
            && Accounts(after, free, size) && Tiles(after, sections) && SameUsed(blocks, after, x + n)
            && (Coalesced(blocks) ==> OnlyBefore(after, x + n)) && (OnlyBefore(blocks, x) ==> CoalescedBut(after, x))
  {
    SplitTiles(blocks, x, n);
    SplitKeeps(blocks, x, n);
    SplitCovers(blocks, x, n);
    SplitNeighbours(blocks, x, n);
  }

  /** Splitting makes no free neighbours but the two parts. */
  lemma SplitNeighbours(blocks: Blocks, x: nat, n: nat)
    requires Tiled(blocks) && x in blocks && blocks[x].Free? && 0 < n < Pages(blocks, x)
    ensures var after := Split(blocks, x, n);
            (Coalesced(blocks) ==> OnlyBefore(after, x + n)) && (OnlyBefore(blocks, x) ==> CoalescedBut(after, x))
  {
    var after := Split(blocks, x, n);
    SplitTiles(blocks, x, n);
    forall a, b | FreeNeighbours(after, a, b) && b != x + n
      ensures FreeNeighbours(blocks, if a == x + n then x else a, b) {
    }
  }

  /** The second part of a loose block, put on its list. */
  lemma RestListed(e: Entries, lists: ListSeq, bytes: seq<nat>, x: nat, n: nat)
    requires Loose(e, lists, bytes, x) && 0 < n < e[x].h.Pages()
    ensures var k := e[x].h.Pages() - n;
            var i := IndexFor(k);
            && (forall j :: 0 <= j < |lists| ==> x + n !in lists[j]) && i < |lists| == |bytes|
            && Loose(SplitEntries(e, x, n), lists[i := [x + n] + lists[i]], bytes[i := bytes[i] + HBLKSIZE * k], x)
            && Starts(SplitEntries(e, x, n)) == Split(Starts(e), x, n)
  {
    SplitListed(Starts(e), lists, bytes, x, n, x + n, x);
    PartIndexed(e, x, n);
  }

  /** The same, with what it keeps. */
  lemma RestReturned(e: Entries, lists: ListSeq, bytes: seq<nat>, x: nat, n: nat, free: nat, size: nat,
                     sections: seq<Section>)
    requires Loose(e, lists, bytes, x) && 0 < n < e[x].h.Pages() && OnlyBefore(Starts(e), x)
    requires Accounts(Starts(e), free, size) && Tiles(Starts(e), sections)
    ensures var k := e[x].h.Pages() - n;
            var i, f := IndexFor(k), SplitEntries(e, x, n);
            && (forall j :: 0 <= j < |lists| ==> x + n !in lists[j]) && i < |lists| == |bytes|
            && Loose(f, lists[i := [x + n] + lists[i]], bytes[i := bytes[i] + HBLKSIZE * k], x)
            && f[x] == Start(Free(n)) && CoalescedBut(Starts(f), x)
            && Accounts(Starts(f), free, size) && Tiles(Starts(f), sections) && SameUsed(Starts(e), Starts(f), x)
  {
    RestListed(e, lists, bytes, x, n);
    SplitAccounts(Starts(e), x, n, free, size, sections);
    SplitTiles(Starts(e), x, n);
  }

  lemma SplitFacts(e: Entries, h: nat, n: nat, free: nat, size: nat, sections: seq<Section>)
    requires Indexed(e) && h in e && e[h].Start? && e[h].h.Free? && 0 < n < e[h].h.Pages() && Coalesced(Starts(e))
    requires Accounts(Starts(e), free, size) && Tiles(Starts(e), sections)
    ensures var blocks, after := Starts(e), Split(Starts(e), h, n);
            && h + n !in blocks && h + n in after && Pages(after, h + n) == Pages(blocks, h) - n
            && OnlyBefore(after, h + n)
            && Accounts(after, free, size) && Tiles(after, sections) && SameUsed(blocks, after, h + n)
  {
    SplitAccounts(Starts(e), h, n, free, size, sections);
    SplitTiles(Starts(e), h, n);
  }

  /** A block that was not there before, and is free at last, makes no difference to those in use. */
  lemma SameUsedAdded(a: Blocks, b: Blocks, c: Blocks, p: nat, h: Header)
    requires p !in a && b == a[p := h] && SameUsed(b, c, p) && (p in c ==> c[p].Free?)
    ensures SameUsed(a, c, 0)
  {
  }

  lemma SameUsedThen(a: Blocks, b: Blocks, c: Blocks, h: nat)
    requires SameUsed(a, b, h) && SameUsed(b, c, h)
    ensures SameUsed(a, c, h)
  {
  }

  /** The index with block x put to use. */
  function UsedEntries(e: Entries, x: nat, sz: nat): Entries {
    (e + Counts(x, PagesFor(sz)))[x := Start(Used(sz))]
  }

  /** A loose block is put to use. */
  lemma LooseUsed(e: Entries, lists: ListSeq, bytes: seq<nat>, x: nat, sz: nat)
    requires Loose(e, lists, bytes, x) && CoalescedBut(Starts(e), x) && PagesFor(sz) == e[x].h.Pages() && sz > 0
    requires sz % WORD == 0
    ensures var f := UsedEntries(e, x, sz);
            Sound(f, lists, bytes) && Starts(f) == Marked(Starts(e), x, Used(sz))
  {
    UsedIndexed(e, x, sz);
    MarkKeeps(Starts(e), x, Used(sz));
    MarkUsed(Starts(e), lists, bytes, x, Used(sz));
  }

  lemma UsedKept(blocks: Blocks, x: nat, sz: nat, free: nat, size: nat, sections: seq<Section>)
    requires Tiled(blocks) && x in blocks && blocks[x].Free? && PagesFor(sz) == Pages(blocks, x)
    requires Accounts(blocks, free, size) && Tiles(blocks, sections)
    ensures var after := Marked(blocks, x, Used(sz));
            && free >= HBLKSIZE * PagesFor(sz) && Accounts(after, free - HBLKSIZE * PagesFor(sz), size)
            && Tiles(after, sections) && SameUsed(blocks, after, x)
  {
    UsedAccounts(blocks, x, sz, free, size);
    MarkKeeps(blocks, x, Used(sz));
  }

  /** A held block about to be split at another page. */
  lemma HeldSplits(e: Entries, lists: ListSeq, bytes: seq<nat>, h: nat, at: nat, i: nat)
    requires h in e && e[h].Start? && HeldHidden(e, lists, bytes, h, i) && h < at < h + e[h].h.Pages()
    ensures i < |lists| == |bytes| && h in lists[i] && bytes[i] >= HBLKSIZE * e[h].h.Pages()
    ensures at !in e && at != 0 && h != 0 && bytes[i] >= HBLKSIZE * (at - h)
    ensures forall j :: 0 <= j < |lists| ==> at !in lists[j] && (j != i ==> h !in lists[j])
  {
    HeldOpened(e, lists, bytes, h, i);
    var rest := lists[i := Without(lists[i], h)];
    SplitListed(Starts(e), rest, bytes[i := bytes[i] - HBLKSIZE * e[h].h.Pages()], h, at - h, h, at);
    SplitIndexed(e, h, at - h);
    assert forall j :: 0 <= j < |lists| && j != i ==> rest[j] == lists[j];
    assert rest[i] == Without(lists[i], h);
  }

  lemma SplitEntriesIs(e: Entries, h: nat, at: nat)
    requires h in e && e[h].Start? && h < at < h + e[h].h.Pages()
    ensures e[at := Start(Free(e[h].h.Pages() - (at - h)))][h := Start(Free(at - h))] == SplitEntries(e, h, at - h)
  {
  }

  /** After the split, the second part is held in the place of the whole. */
  lemma SplitHeld(e: Entries, lists: ListSeq, bytes: seq<nat>, h: nat, at: nat, i: nat, placed: ListSeq,
                  counts: seq<nat>)
    requires h in e && e[h].Start? && HeldHidden(e, lists, bytes, h, i) && h < at < h + e[h].h.Pages()
    requires i < |lists| == |placed| == |bytes| && bytes[i] >= HBLKSIZE * (at - h)
    requires placed == lists[i := placed[i]] && counts == bytes[i := bytes[i] - HBLKSIZE * (at - h)]
    requires Without(placed[i], at) == Without(lists[i], h) && at in placed[i] && h !in placed[i]
    ensures var cut := at - h;
            var j := IndexFor(cut);
            && j < |placed| && h !in placed[i] && (forall q :: 0 <= q < |placed| ==> h !in placed[q])
            && HeldHidden(SplitEntries(e, h, cut), placed[j := [h] + placed[j]],
                          counts[j := counts[j] + HBLKSIZE * cut], at, i)
            && Starts(SplitEntries(e, h, cut)) == Split(Starts(e), h, cut)
  {
    var cut, k := at - h, e[h].h.Pages();
    var j, f := IndexFor(cut), SplitEntries(e, h, cut);
    HeldSplits(e, lists, bytes, h, at, i);
    HeldIs(e, lists, bytes, h, i);
    var rest, restCounts := lists[i := Without(lists[i], h)], bytes[i := bytes[i] - HBLKSIZE * k];
    PartLoose(e, rest, restCounts, h, at);
    SamePlace(rest, placed, restCounts, counts, i, j, h, at, HBLKSIZE * cut, HBLKSIZE * (k - cut));
    HeldIs(f, placed[j := [h] + placed[j]], counts[j := counts[j] + HBLKSIZE * cut], at, i);
  }

  /** The index when a free block is split. */
  lemma PartIndexed(e: Entries, h: nat, n: nat)
    requires Indexed(e) && 0 !in e && WordSized(e) && h in e && e[h].Start? && e[h].h.Free? && 0 < n < e[h].h.Pages()
    ensures var f := SplitEntries(e, h, n);
            && Indexed(f) && 0 !in f && WordSized(f) && Starts(f) == Split(Starts(e), h, n) && h + n !in e
            && h in f && f[h] == Start(Free(n)) && h + n in f && f[h + n] == Start(Free(e[h].h.Pages() - n))
  {
    SplitIndexed(e, h, n);
    SplitWords(e, h, n);
  }

  /** The first part of a loose block, put on its list, leaves the second loose. */
  lemma PartLoose(e: Entries, rest: ListSeq, counts: seq<nat>, h: nat, at: nat)
    requires h in e && e[h].Start? && LooseHidden(e, rest, counts, h) && h < at < h + e[h].h.Pages()
    ensures var j := IndexFor(at - h);
            && j < |rest| == |counts|
            && LooseHidden(SplitEntries(e, h, at - h), rest[j := [h] + rest[j]],
                           counts[j := counts[j] + HBLKSIZE * (at - h)], at)
    ensures Starts(SplitEntries(e, h, at - h)) == Split(Starts(e), h, at - h)
    ensures SplitEntries(e, h, at - h)[at] == Start(Free(e[h].h.Pages() - (at - h)))
  {
    var j := IndexFor(at - h);
    LooseOpened(e, rest, counts, h);
    SplitListed(Starts(e), rest, counts, h, at - h, h, at);
    PartIndexed(e, h, at - h);
    LooseOpened(SplitEntries(e, h, at - h), rest[j := [h] + rest[j]], counts[j := counts[j] + HBLKSIZE * (at - h)], at);
  }

  /** The lists and counts, whichever of the two parts is looked at. */
  lemma SamePlace(rest: ListSeq, placed: ListSeq, restCounts: seq<nat>, counts: seq<nat>, i: nat, j: nat, h: nat,
                  at: nat, b1: nat, b2: nat)
    requires i < |rest| == |placed| == |restCounts| == |counts| && j < |rest| && h != at
    requires rest == placed[i := rest[i]] && rest[i] == Without(placed[i], at) && at in placed[i]
    requires restCounts == counts[i := restCounts[i]] && counts[i] == restCounts[i] + b2
    ensures var placed2, counts2 := placed[j := [h] + placed[j]], counts[j := counts[j] + b1];
            && at in placed2[i] && counts2[i] >= b2
            && placed2[i := Without(placed2[i], at)] == rest[j := [h] + rest[j]]
            && counts2[i := counts2[i] - b2] == restCounts[j := restCounts[j] + b1]
  {
    var placed2 := placed[j := [h] + placed[j]];
    if j == i {
      assert placed2[i][1..] == placed[i];
      assert Without(placed2[i], at) == [h] + Without(placed[i], at);
    }
  }

  // ---- Dropping ----

  /** Every free block, except perhaps x, was free before, with the same pages. */
  ghost predicate FreesKept(before: Blocks, after: Blocks, x: nat) {
    forall b: nat :: b in after && after[b].Free? && b != x ==> b in before && before[b] == after[b]
  }

  lemma FreesKeptThen(a: Blocks, b: Blocks, c: Blocks, x: nat, y: nat)
    requires FreesKept(a, b, x) && FreesKept(b, c, y) && (x in c ==> c[x].Used?)
    ensures FreesKept(a, c, y)
  {
  }

  /** Blocks in use stay in use. */
  ghost predicate KeepsUsed(before: Blocks, after: Blocks) {
    forall b: nat :: b in before && before[b].Used? ==> b in after && after[b] == before[b]
  }

  /** A free block without free neighbours that is on no list. */
  ghost predicate Alone(e: Entries, lists: ListSeq, bytes: seq<nat>, x: nat) {
    Loose(e, lists, bytes, x) && Coalesced(Starts(e))
  }

  function PageUsed(e: Entries, h: nat): Entries {
    e[h := Start(Used(HBLKSIZE))]
  }

  /** The last page of a dropped block. */
  lemma LastDropped(e: Entries, lists: ListSeq, bytes: seq<nat>, h: nat, free: nat, size: nat, sections: seq<Section>)
    requires Alone(e, lists, bytes, h) && e[h] == Start(Free(1)) && Accounts(Starts(e), free, size)
    requires Tiles(Starts(e), sections)
    ensures var f := PageUsed(e, h);
            && Sound(f, lists, bytes) && free >= HBLKSIZE && Accounts(Starts(f), free - HBLKSIZE, size)
            && Tiles(Starts(f), sections)
            && KeepsUsed(Starts(e), Starts(f)) && FreesKept(Starts(e), Starts(f), 0)
            && h in Starts(f) && Starts(f)[h].Used?
  {
    assert PagesFor(HBLKSIZE) == 1;
    LooseUsed(e, lists, bytes, h, HBLKSIZE);
    UsedKept(Starts(e), h, HBLKSIZE, free, size, sections);
    assert Counts(h, 1) == map[];
    assert e + Counts(h, 1) == e;
    assert UsedEntries(e, h, HBLKSIZE) == PageUsed(e, h);
  }

  /** The first page of free block h in use, the m others still free. */
  function FrontUsed(e: Entries, h: nat, m: nat): Entries {
    PageUsed(e, h)[h + 1 := Start(Free(m))]
  }

  lemma FrontIndexed(e: Entries, h: nat, m: nat)
    requires Indexed(e) && h in e && e[h] == Start(Free(m + 1)) && m > 0 && 0 !in e && WordSized(e)
    ensures var f := FrontUsed(e, h, m);
            && Indexed(f) && 0 !in f && WordSized(f) && Starts(f) == Marked(Split(Starts(e), h, 1), h, Used(HBLKSIZE))
            && h + 1 !in e
  {
    var g := SplitEntries(e, h, 1);
    SplitIndexed(e, h, 1);
    assert PagesFor(HBLKSIZE) == 1;
    UsedIndexed(g, h, HBLKSIZE);
    FrontIs(e, h, m);
  }

  lemma FrontIs(e: Entries, h: nat, m: nat)
    requires h in e && e[h] == Start(Free(m + 1)) && m > 0
    ensures SplitEntries(e, h, 1) + Counts(h, 1) == SplitEntries(e, h, 1)
    ensures PageUsed(SplitEntries(e, h, 1), h) == FrontUsed(e, h, m)
  {
    assert Counts(h, 1) == map[];
  }

  lemma FrontKept(blocks: Blocks, h: nat, free: nat, size: nat, sections: seq<Section>)
    requires Tiled(blocks) && Coalesced(blocks) && h in blocks && blocks[h].Free? && Pages(blocks, h) > 1
    requires Accounts(blocks, free, size) && Tiles(blocks, sections)
    ensures var after := Marked(Split(blocks, h, 1), h, Used(HBLKSIZE));
            && free >= HBLKSIZE && Accounts(after, free - HBLKSIZE, size) && Tiles(after, sections)
            && Coalesced(after) && KeepsUsed(blocks, after) && FreesKept(blocks, after, h + 1)
  {
    var split := Split(blocks, h, 1);
    SplitAccounts(blocks, h, 1, free, size, sections);
    SplitTiles(blocks, h, 1);
    assert PagesFor(HBLKSIZE) == 1;
    MarkKeeps(split, h, Used(HBLKSIZE));
    UsedKept(split, h, HBLKSIZE, free, size, sections);
  }

  /** Free block x of k pages is on no list, and all else is in order. Only `RemainingOpened` unfolds this. */
  ghost predicate Remaining(e: Entries, lists: ListSeq, bytes: seq<nat>, x: nat, k: nat, free: nat, size: nat,
                            sections: seq<Section>)
  {
    forall q :: q in [x] ==>
      q in e && e[q] == Start(Free(k)) && Alone(e, lists, bytes, q) && Accounts(Starts(e), free, size)
      && Tiles(Starts(e), sections)
  }

  lemma RemainingOpened(e: Entries, lists: ListSeq, bytes: seq<nat>, x: nat, k: nat, free: nat, size: nat,
                        sections: seq<Section>)
    ensures Remaining(e, lists, bytes, x, k, free, size, sections) <==>
            x in e && e[x] == Start(Free(k)) && Alone(e, lists, bytes, x) && Accounts(Starts(e), free, size) &&
            Tiles(Starts(e), sections)
  {
    assert x in [x];
  }

  /** A page of a dropped block, before others. */
  lemma NextDropped(e: Entries, lists: ListSeq, bytes: seq<nat>, h: nat, m: nat, free: nat, size: nat,
                    sections: seq<Section>)
    requires m > 0 && Remaining(e, lists, bytes, h, m + 1, free, size, sections)
    ensures free >= HBLKSIZE && h + 1 !in e
    ensures Remaining(FrontUsed(e, h, m), lists, bytes, h + 1, m, free - HBLKSIZE, size, sections)
    ensures KeepsUsed(Starts(e), Starts(FrontUsed(e, h, m)))
    ensures FreesKept(Starts(e), Starts(FrontUsed(e, h, m)), h + 1)
    ensures h in Starts(FrontUsed(e, h, m)) && Starts(FrontUsed(e, h, m))[h].Used?
  {
    RemainingOpened(e, lists, bytes, h, m + 1, free, size, sections);
    FrontIndexed(e, h, m);
    FrontKept(Starts(e), h, free, size, sections);
    UseFront(Starts(e), lists, bytes, h, 1, Used(HBLKSIZE));
    RemainingOpened(FrontUsed(e, h, m), lists, bytes, h + 1, m, free - HBLKSIZE, size, sections);
  }

  /** Pages h to p have been dropped; e is the index as it would be if those still to come were a free block. */
  ghost predicate DroppedTo(entries: Entries, e: Entries, lists: ListSeq, bytes: seq<nat>, h: nat, p: nat, limit: nat,
                            free: nat, size: nat, sections: seq<Section>)
  {
    && p <= limit
    && (p == h ==> entries == e)
    && (h < p < limit ==> e == entries[p := Start(Free(limit - p))])
    && (p < limit ==> Alone(e, lists, bytes, p) && e[p] == Start(Free(limit - p)))
    && (p == limit ==> entries == e && Sound(e, lists, bytes))
    && Accounts(Starts(e), free + HBLKSIZE * (limit - p), size) && Tiles(Starts(e), sections)
  }

  /** The same, stated so that only `DroppingOpened` unfolds it. */
  ghost predicate Dropping(entries: Entries, e: Entries, lists: ListSeq, bytes: seq<nat>, h: nat, p: nat, limit: nat,
                           free: nat, size: nat, sections: seq<Section>)
  {
    forall q :: q in [p] ==> DroppedTo(entries, e, lists, bytes, h, q, limit, free, size, sections)
  }

  lemma DroppingOpened(entries: Entries, e: Entries, lists: ListSeq, bytes: seq<nat>, h: nat, p: nat, limit: nat,
                       free: nat, size: nat, sections: seq<Section>)
    ensures Dropping(entries, e, lists, bytes, h, p, limit, free, size, sections) <==>
            DroppedTo(entries, e, lists, bytes, h, p, limit, free, size, sections)
  {
    assert p in [p];
  }

  /** What is still to be dropped. */
  lemma ToDrop(entries: Entries, e: Entries, lists: ListSeq, bytes: seq<nat>, h: nat, p: nat, limit: nat,
               free: nat, size: nat, sections: seq<Section>)
    requires h <= p < limit && Dropping(entries, e, lists, bytes, h, p, limit, free, size, sections)
    ensures e == entries || e == entries[p := Start(Free(limit - p))]
    ensures Remaining(e, lists, bytes, p, limit - p, free + HBLKSIZE * (limit - p), size, sections)
  {
    DroppingOpened(entries, e, lists, bytes, h, p, limit, free, size, sections);
    RemainingOpened(e, lists, bytes, p, limit - p, free + HBLKSIZE * (limit - p), size, sections);
  }

  lemma DropStep(entries: Entries, e: Entries, lists: ListSeq, bytes: seq<nat>, h: nat, p: nat, limit: nat,
                 free: nat, size: nat, sections: seq<Section>) returns (f: Entries)
    requires h <= p < limit && Dropping(entries, e, lists, bytes, h, p, limit, free, size, sections)
    ensures Dropping(PageUsed(entries, p), f, lists, bytes, h, p + 1, limit, free, size, sections)
    ensures KeepsUsed(Starts(e), Starts(f)) && FreesKept(Starts(e), Starts(f), if p + 1 == limit then 0 else p + 1)
    ensures p in Starts(f) && Starts(f)[p].Used?
  {
    if p + 1 == limit {
      f := PageUsed(e, p);
      LastStep(entries, e, lists, bytes, h, p, free, size, sections);
    } else {
      f := FrontUsed(e, p, limit - p - 1);
      NextStep(entries, e, lists, bytes, h, p, limit, free, size, sections);
    }
  }

  lemma LastStep(entries: Entries, e: Entries, lists: ListSeq, bytes: seq<nat>, h: nat, p: nat, free: nat, size: nat,
                 sections: seq<Section>)
    requires h <= p && Dropping(entries, e, lists, bytes, h, p, p + 1, free, size, sections)
    ensures Dropping(PageUsed(entries, p), PageUsed(e, p), lists, bytes, h, p + 1, p + 1, free, size, sections)
    ensures KeepsUsed(Starts(e), Starts(PageUsed(e, p))) && FreesKept(Starts(e), Starts(PageUsed(e, p)), 0)
    ensures p in Starts(PageUsed(e, p)) && Starts(PageUsed(e, p))[p].Used?
  {
    DroppingOpened(entries, e, lists, bytes, h, p, p + 1, free, size, sections);
    LastDropped(e, lists, bytes, p, free + HBLKSIZE, size, sections);
    assert PageUsed(entries, p) == PageUsed(e, p);
    DroppingOpened(PageUsed(entries, p), PageUsed(e, p), lists, bytes, h, p + 1, p + 1, free, size, sections);
  }

  lemma FrontOf(entries: Entries, e: Entries, p: nat, m: nat)
    requires e == entries || e == entries[p := Start(Free(m + 1))]
    ensures FrontUsed(e, p, m) == PageUsed(entries, p)[p + 1 := Start(Free(m))]
  {
  }

  lemma NextTo(entries: Entries, e: Entries, lists: ListSeq, bytes: seq<nat>, h: nat, p: nat, limit: nat,
               free: nat, size: nat, sections: seq<Section>)
    requires h < p < limit && e == entries[p := Start(Free(limit - p))]
    requires Remaining(e, lists, bytes, p, limit - p, free + HBLKSIZE * (limit - p), size, sections)
    ensures Dropping(entries, e, lists, bytes, h, p, limit, free, size, sections)
  {
    RemainingOpened(e, lists, bytes, p, limit - p, free + HBLKSIZE * (limit - p), size, sections);
    DroppingOpened(entries, e, lists, bytes, h, p, limit, free, size, sections);
  }

  lemma NextStep(entries: Entries, e: Entries, lists: ListSeq, bytes: seq<nat>, h: nat, p: nat, limit: nat,
                 free: nat, size: nat, sections: seq<Section>)
    requires h <= p < limit - 1 && Dropping(entries, e, lists, bytes, h, p, limit, free, size, sections)
    ensures var f := FrontUsed(e, p, limit - p - 1);
            && Dropping(PageUsed(entries, p), f, lists, bytes, h, p + 1, limit, free, size, sections)
            && KeepsUsed(Starts(e), Starts(f)) && FreesKept(Starts(e), Starts(f), p + 1)
            && p in Starts(f) && Starts(f)[p].Used?
  {
    var m := limit - p - 1;
    ToDrop(entries, e, lists, bytes, h, p, limit, free, size, sections);
    NextDropped(e, lists, bytes, p, m, free + HBLKSIZE * (m + 1), size, sections);
    FrontOf(entries, e, p, m);
    NextTo(PageUsed(entries, p), FrontUsed(e, p, m), lists, bytes, h, p + 1, limit, free, size, sections);
  }

  lemma Positive(sz: nat)
    requires sz > 0
    ensures PagesFor(sz) > 0
  {
  }

  lemma OneStarts(e: Entries, h: nat)
    requires h in e && e[h].Start?
    ensures h in Starts(e) && Starts(e)[h] == e[h].h
  {
  }

  /** What is on a list is a free block. */
  lemma ListedFree(e: Entries, lists: ListSeq, bytes: seq<nat>, i: nat)
    requires Sound(e, lists, bytes) && i < |lists|
    ensures forall x :: x in lists[i] ==> x in e && e[x].Start? && e[x].h.Free?
  {
    Opened(Starts(e), lists, bytes, 0);
    forall x | x in lists[i] ensures x in e && e[x].Start? && e[x].h.Free? {
      assert x in Starts(e);
    }
  }

  /** What the search does with a block: pass over it, allocate from a page of it, or note that all of it is
      black-listed. */
  datatype Choice = Pass | From(at: nat) | Hopeless

  /** The bytes on lists n and up. */
  function FreeFrom(bytes: seq<nat>, n: nat): nat
    decreases |bytes| - n
  {
    if n >= |bytes| then 0 else bytes[n] + FreeFrom(bytes, n + 1)
  }

  /** What decides how far up the lists an allocation may split blocks. */
  datatype Policy = Policy(wholeHeap: bool, muchFinalized: bool, allocd: nat, most: nat)

  /** No block on lists m up to n is large enough. */
  ghost predicate NoneSuits(blocks: Blocks, lists: ListSeq, m: nat, n: nat, need: nat) {
    forall i, b :: m <= i < n && i < |lists| && b in lists[i] ==> !Suits(blocks, b, need, true)
  }

  /** A large enough free block is an exact fit on the list for the size needed, or on a later list. */
  lemma WhereItIs(e: Entries, lists: ListSeq, bytes: seq<nat>, b: nat, need: nat)
    requires Sound(e, lists, bytes) && b in Starts(e) && Starts(e)[b].Free? && Pages(Starts(e), b) >= need
    ensures |lists| == N_HBLK_FLS + 1
    ensures var i, start := IndexFor(Pages(Starts(e), b)), IndexFor(need);
            && b in lists[i] && i >= start && Suits(Starts(e), b, need, true)
            && (i == start && start < UNIQUE_THRESHOLD ==> Suits(Starts(e), b, need, false))
  {
    Opened(Starts(e), lists, bytes, 0);
    IndexForMonotone(need, Pages(Starts(e), b));
  }

  /** If no block on its own list is an exact fit, and none on later lists is large enough, none is at all. */
  lemma Complete(e: Entries, lists: ListSeq, bytes: seq<nat>, need: nat)
    requires Sound(e, lists, bytes) && |lists| == N_HBLK_FLS + 1
    requires forall b :: b in lists[IndexFor(need)] ==> !Suits(Starts(e), b, need, false)
    requires var start := IndexFor(need);
             NoneSuits(Starts(e), lists, if start < UNIQUE_THRESHOLD then start + 1 else start, N_HBLK_FLS + 1, need)
    ensures forall b :: b in Starts(e) && Starts(e)[b].Free? ==> Pages(Starts(e), b) < need
  {
    forall b | b in Starts(e) && Starts(e)[b].Free? ensures Pages(Starts(e), b) < need {
      if Pages(Starts(e), b) >= need {
        WhereItIs(e, lists, bytes, b, need);
      }
    }
  }

  lemma OneMore(blocks: Blocks, list: seq<nat>, i: nat)
    requires i < |list|
    ensures ListPages(blocks, list[..i + 1]) == ListPages(blocks, list[..i]) + PagesIn(blocks, list[i])
  {
    if i > 0 {
      OneMore(blocks, list[1..], i - 1);
      assert list[..i + 1][1..] == list[1..][..i] && list[..i][1..] == list[1..][..i - 1];
    } else {
      assert list[..1][1..] == [] && list[..0] == [];
    }
  }

  /** The blocks in use, listed once each, make up their total. */
  lemma {:induction false} UsedTotal(blocks: Blocks, list: seq<nat>)
    requires NoRepeats(list) && forall b: nat :: b in list <==> b in blocks && blocks[b].Used?
    ensures ListPages(blocks, list) == Total(blocks, false)
    decreases |list|
  {
    if list == [] {
      NoneTotal(blocks);
    } else {
      var b, rest := list[0], list[1..];
      TotalWithout(blocks, b, false);
      var others := blocks - {b};
      forall c: nat ensures c in rest <==> c in others && others[c].Used? {
        if c in rest {
          var i :| 0 <= i < |rest| && rest[i] == c;
          assert list[0] != list[i + 1];
        }
      }
      UsedTotal(others, rest);
      ListPagesFrame(blocks, others, rest);
    }
  }

  lemma {:induction false} NoneTotal(blocks: Blocks)
    requires forall b :: b in blocks ==> blocks[b].Free?
    ensures Total(blocks, false) == 0
    decreases |blocks|
  {
    if blocks != map[] {
      var b :| b in blocks;
      TotalWithout(blocks, b, false);
      NoneTotal(blocks - {b});
    }
  }

  // ---- Requests ----

  /** What a block is wanted for: objects of a size, of a kind, and whether only pointers to its start count. */
  datatype Request = Request(bytes: nat, uncollectable: bool, pointerFree: bool, ignoreOffPage: bool) {
    predicate Proper() {
      bytes > 0 && bytes % WORD == 0
    }

    function Need(): nat {
      PagesFor(bytes)
    }

    /** Are black-listed pages to be avoided? */
    predicate Careful() {
      !uncollectable && (!pointerFree || Need() > MAX_BLACK_LIST_ALLOC)
    }

    /** The pages that may not be black-listed. */
    function Exposed(): nat {
      if ignoreOffPage then 1 else Need()
    }
  }

  /** `GC_find_leak`, and the spacing of the black list. */
  datatype Settings = Settings(findLeak: bool, blackListSpacing: nat)

  /** All lists but the nth are as they were. */
  ghost predicate OthersAs(before: ListSeq, after: ListSeq, n: nat) {
    |after| == |before| && forall m :: 0 <= m < |after| && m != n ==> after[m] == before[m]
  }

  ghost predicate NothingBad(bad: nat -> bool)
  {
    forall p :: !bad(p)
  }

  /** Some start in the block of k pages from b on leaves room for the request, with no exposed page black-listed. */
  predicate SomeClean(b: nat, k: nat, q: Request, bad: nat -> bool) {
    exists x :: b <= x <= b + k && x + q.Need() <= b + k && CleanAt(bad, x, q.Exposed())
  }

  /** The request is so large, and would leave so much of the block, that it is met on black-listed pages too. */
  predicate VeryLarge(k: nat, q: Request, s: Settings) {
    && k >= q.Need() && HBLKSIZE * q.Need() > s.blackListSpacing && HBLKSIZE * (k - q.Need()) > s.blackListSpacing
  }

  /** Can the request be met from the block of k pages from b on? */
  predicate Obtainable(b: nat, k: nat, q: Request, maySplit: bool, bad: nat -> bool, s: Settings) {
    && (if maySplit then k >= q.Need() else k == q.Need())
    && (!q.Careful() || SomeClean(b, k, q, bad) || VeryLarge(k, q, s))
  }

  /** The page at which the request is met: the first of the block or, for a request that avoids black-listed
      pages, the first from which on none of those exposed is; and where there is none, the first for a very
      large request. */
  predicate Gives(b: nat, k: nat, r: nat, q: Request, bad: nat -> bool, s: Settings) {
    && b <= r && r + q.Need() <= b + k
    && if !q.Careful() then r == b
       else if SomeClean(b, k, q, bad) then
         CleanAt(bad, r, q.Exposed()) && forall x :: b <= x < r ==> !CleanAt(bad, x, q.Exposed())
       else VeryLarge(k, q, s) && r == b
  }

  /** The request is met at r from one of the blocks on a list. */
  ghost predicate Chosen(blocks: Blocks, list: seq<nat>, r: nat, q: Request, maySplit: bool, bad: nat -> bool,
                         s: Settings)
  {
    exists b :: b in list && Supplies(blocks, b, r, q, maySplit, bad, s)
  }

  /** The request is met at r from free block b. */
  predicate Supplies(blocks: Blocks, b: nat, r: nat, q: Request, maySplit: bool, bad: nat -> bool, s: Settings) {
    && b in blocks && blocks[b].Free? && Obtainable(b, Pages(blocks, b), q, maySplit, bad, s)
    && Gives(b, Pages(blocks, b), r, q, bad, s)
  }

  /** No block on a list can meet the request. */
  ghost predicate NoneMeets(blocks: Blocks, list: seq<nat>, q: Request, maySplit: bool, bad: nat -> bool, s: Settings) {
    forall b :: b in list && b in blocks ==> !Obtainable(b, Pages(blocks, b), q, maySplit, bad, s)
  }

  /** Where the search of a block for clean pages ends says whether there are any. */
  lemma SkipDecides(h: nat, k: nat, at: nat, q: Request, bad: nat -> bool)
    requires q.Need() <= k && h <= at && (at + q.Need() <= h + k ==> CleanAt(bad, at, q.Exposed()))
    requires forall x :: h <= x < at && x + q.Need() <= h + k ==> !CleanAt(bad, x, q.Exposed())
    ensures SomeClean(h, k, q, bad) <==> at + q.Need() <= h + k
    ensures at + q.Need() <= h + k ==> forall x :: h <= x < at ==> !CleanAt(bad, x, q.Exposed())
  {
  }

  /** A block whose first pages are clean, for a request that may split it. */
  predicate Sure(blocks: Blocks, b: nat, q: Request, maySplit: bool, bad: nat -> bool) {
    maySplit && b in blocks && Pages(blocks, b) >= q.Need() && CleanAt(bad, b, q.Need())
  }

  lemma SureObtainable(blocks: Blocks, b: nat, q: Request, bad: nat -> bool, s: Settings)
    requires q.Proper() && Sure(blocks, b, q, true, bad)
    ensures Obtainable(b, Pages(blocks, b), q, true, bad, s)
  {
    assert q.Exposed() <= q.Need();
    assert CleanAt(bad, b, q.Exposed());
  }

  /** A block that an allocation of `need` pages would take. */
  predicate Suits(blocks: Blocks, b: nat, need: nat, maySplit: bool) {
    b in blocks && if maySplit then Pages(blocks, b) >= need else Pages(blocks, b) == need
  }

  /** What the search has seen: none of the first k blocks can meet the request, or the next surely does, better than
      one passed over. */
  ghost predicate Sought(blocks: Blocks, list: seq<nat>, k: nat, q: Request, maySplit: bool, bad: nat -> bool,
                         s: Settings)
    requires k <= |list|
  {
    || (forall j :: 0 <= j < k && list[j] in blocks ==>
          !Obtainable(list[j], Pages(blocks, list[j]), q, maySplit, bad, s))
    || (k < |list| && Sure(blocks, list[k], q, maySplit, bad))
  }

  /** What the search has done to a list, if it has dropped blocks: those left are as they were, and those dropped
      could not have met the request. */
  ghost predicate Narrowed(blocks0: Blocks, list0: seq<nat>, blocks: Blocks, list: seq<nat>, q: Request, maySplit: bool,
                           bad: nat -> bool, s: Settings)
  {
    && (forall b :: b in list ==>
          b in list0 && b in blocks && blocks[b].Free? && b in blocks0 && blocks0[b] == blocks[b])
    && (forall b :: b in list0 && b !in list && b in blocks0 ==>
          !Obtainable(b, Pages(blocks0, b), q, maySplit, bad, s))
  }

  lemma NarrowedDrop(blocks0: Blocks, list0: seq<nat>, blocks: Blocks, list: seq<nat>, k: nat, blocks': Blocks,
                     q: Request, maySplit: bool, bad: nat -> bool, s: Settings)
    requires Narrowed(blocks0, list0, blocks, list, q, maySplit, bad, s) && k < |list|
    requires FreesKept(blocks, blocks', 0) && !Obtainable(list[k], Pages(blocks, list[k]), q, maySplit, bad, s)
    requires forall b :: b in Rest(list, k) ==> b != 0 && b in blocks' && blocks'[b].Free?
    ensures Narrowed(blocks0, list0, blocks', Rest(list, k), q, maySplit, bad, s)
  {
    RestHas(list, k);
  }

  lemma RestHas(list: seq<nat>, k: nat)
    requires k < |list|
    ensures forall b :: b in list ==> b == list[k] || b in Rest(list, k)
  {
    assert list == list[..k] + [list[k]] + list[k + 1..];
  }

  lemma NarrowedChosen(blocks0: Blocks, list0: seq<nat>, blocks: Blocks, list: seq<nat>, r: nat, q: Request,
                       maySplit: bool, bad: nat -> bool, s: Settings)
    requires Narrowed(blocks0, list0, blocks, list, q, maySplit, bad, s)
    requires Chosen(blocks, list, r, q, maySplit, bad, s)
    ensures Chosen(blocks0, list0, r, q, maySplit, bad, s)
  {
    var b :| b in list && Supplies(blocks, b, r, q, maySplit, bad, s);
    assert Supplies(blocks0, b, r, q, maySplit, bad, s);
  }

  lemma NarrowedNone(blocks0: Blocks, list0: seq<nat>, blocks: Blocks, list: seq<nat>, q: Request,
                     maySplit: bool, bad: nat -> bool, s: Settings)
    requires Narrowed(blocks0, list0, blocks, list, q, maySplit, bad, s) && NoneMeets(blocks, list, q, maySplit, bad, s)
    ensures NoneMeets(blocks0, list0, q, maySplit, bad, s)
  {
  }

  /** The search of list n has got to its kth block. Stated so that only `SearchOpened` unfolds it. */
  ghost predicate Searching(blocks0: Blocks, lists0: ListSeq, n: nat, blocks: Blocks, lists: ListSeq, k: nat,
                            q: Request, maySplit: bool, bad: nat -> bool, s: Settings)
  {
    forall j :: j in [k] ==> SearchedTo(blocks0, lists0, n, blocks, lists, j, q, maySplit, bad, s)
  }

  ghost predicate SearchedTo(blocks0: Blocks, lists0: ListSeq, n: nat, blocks: Blocks, lists: ListSeq, k: nat,
                             q: Request, maySplit: bool, bad: nat -> bool, s: Settings)
  {
    && n < |lists0| && OthersAs(lists0, lists, n) && k <= |lists[n]| && FreesKept(blocks0, blocks, 0) && 0 !in blocks
    && (forall b :: b in lists[n] ==> b in blocks && blocks[b].Free?)
    && Narrowed(blocks0, lists0[n], blocks, lists[n], q, maySplit, bad, s)
    && Sought(blocks, lists[n], k, q, maySplit, bad, s)
  }

  lemma SearchOpened(blocks0: Blocks, lists0: ListSeq, n: nat, blocks: Blocks, lists: ListSeq, k: nat,
                     q: Request, maySplit: bool, bad: nat -> bool, s: Settings)
    ensures Searching(blocks0, lists0, n, blocks, lists, k, q, maySplit, bad, s) <==>
            SearchedTo(blocks0, lists0, n, blocks, lists, k, q, maySplit, bad, s)
  {
    assert k in [k];
  }

  /** The search goes on after a block that cannot meet the request, or whose successor does so better. */
  lemma SearchGoesOn(blocks0: Blocks, lists0: ListSeq, n: nat, blocks: Blocks, lists: ListSeq, k: nat,
                     q: Request, maySplit: bool, bad: nat -> bool, s: Settings)
    requires q.Proper() && Searching(blocks0, lists0, n, blocks, lists, k, q, maySplit, bad, s)
    requires n < |lists| && k < |lists[n]| && lists[n][k] in blocks
    requires || !Obtainable(lists[n][k], Pages(blocks, lists[n][k]), q, maySplit, bad, s)
             || (k + 1 < |lists[n]| && Sure(blocks, lists[n][k + 1], q, maySplit, bad))
    ensures Searching(blocks0, lists0, n, blocks, lists, k + 1, q, maySplit, bad, s)
  {
    SearchOpened(blocks0, lists0, n, blocks, lists, k, q, maySplit, bad, s);
    SoughtNext(blocks, lists[n], k, q, maySplit, bad, s);
    SearchOpened(blocks0, lists0, n, blocks, lists, k + 1, q, maySplit, bad, s);
  }

  /** The search goes on after it has dropped a block. */
  lemma SearchDropped(blocks0: Blocks, lists0: ListSeq, n: nat, blocks: Blocks, lists: ListSeq, k: nat,
                      blocks': Blocks, lists': ListSeq, q: Request, maySplit: bool, bad: nat -> bool, s: Settings)
    requires q.Proper() && Searching(blocks0, lists0, n, blocks, lists, k, q, maySplit, bad, s)
    requires n < |lists| && k < |lists[n]| && lists[n][k] in blocks
    requires !Obtainable(lists[n][k], Pages(blocks, lists[n][k]), q, maySplit, bad, s)
    requires FreesKept(blocks, blocks', 0) && 0 !in blocks' && lists' == lists[n := Rest(lists[n], k)]
    requires forall b :: b in lists'[n] ==> b in blocks' && blocks'[b].Free?
    ensures Searching(blocks0, lists0, n, blocks', lists', k, q, maySplit, bad, s)
  {
    SearchOpened(blocks0, lists0, n, blocks, lists, k, q, maySplit, bad, s);
    FreesKeptThen(blocks0, blocks, blocks', 0, 0);
    NarrowedDrop(blocks0, lists0[n], blocks, lists[n], k, blocks', q, maySplit, bad, s);
    SoughtDropped(blocks, lists[n], k, blocks', q, maySplit, bad, s);
    SearchOpened(blocks0, lists0, n, blocks', lists', k, q, maySplit, bad, s);
  }

  /** The search ends without success. */
  lemma SearchEnds(blocks0: Blocks, lists0: ListSeq, n: nat, blocks: Blocks, lists: ListSeq, k: nat,
                   q: Request, maySplit: bool, bad: nat -> bool, s: Settings)
    requires Searching(blocks0, lists0, n, blocks, lists, k, q, maySplit, bad, s) && n < |lists| && k == |lists[n]|
    ensures n < |lists0| && OthersAs(lists0, lists, n) && FreesKept(blocks0, blocks, 0)
    ensures NoneMeets(blocks0, lists0[n], q, maySplit, bad, s)
  {
    SearchOpened(blocks0, lists0, n, blocks, lists, k, q, maySplit, bad, s);
    assert NoneMeets(blocks, lists[n], q, maySplit, bad, s);
    NarrowedNone(blocks0, lists0[n], blocks, lists[n], q, maySplit, bad, s);
  }

  /** The search ends with success, in a part of the list at least. */
  lemma SearchSucceeds(blocks0: Blocks, lists0: ListSeq, n: nat, blocks: Blocks, lists: ListSeq, k: nat, r: nat,
                       q: Request, maySplit: bool, bad: nat -> bool, s: Settings)
    requires Searching(blocks0, lists0, n, blocks, lists, k, q, maySplit, bad, s) && n < |lists|
    requires Chosen(blocks, lists[n], r, q, maySplit, bad, s)
    ensures n < |lists0| && Chosen(blocks0, lists0[n], r, q, maySplit, bad, s)
  {
    SearchOpened(blocks0, lists0, n, blocks, lists, k, q, maySplit, bad, s);
    NarrowedChosen(blocks0, lists0[n], blocks, lists[n], r, q, maySplit, bad, s);
  }

  /** The search starts again, and fails. */
  lemma SearchFailsAgain(blocks0: Blocks, lists0: ListSeq, n: nat, blocks: Blocks, lists: ListSeq, k: nat,
                         blocks': Blocks, lists': ListSeq, q: Request, maySplit: bool, bad: nat -> bool, s: Settings)
    requires Searching(blocks0, lists0, n, blocks, lists, k, q, maySplit, bad, s) && n < |lists|
    requires NoneMeets(blocks, lists[n], q, maySplit, bad, s)
    requires FreesKept(blocks, blocks', 0) && 0 !in blocks' && OthersAs(lists, lists', n)
    ensures n < |lists0| && OthersAs(lists0, lists', n) && FreesKept(blocks0, blocks', 0)
    ensures NoneMeets(blocks0, lists0[n], q, maySplit, bad, s)
  {
    SearchOpened(blocks0, lists0, n, blocks, lists, k, q, maySplit, bad, s);
    NarrowedNone(blocks0, lists0[n], blocks, lists[n], q, maySplit, bad, s);
    FreesKeptThen(blocks0, blocks, blocks', 0, 0);
  }

  /** With nothing black-listed, whatever suits is obtainable. */
  lemma NothingBadSuits(blocks: Blocks, list: seq<nat>, q: Request, maySplit: bool, bad: nat -> bool, s: Settings)
    requires NothingBad(bad) && NoneMeets(blocks, list, q, maySplit, bad, s)
    ensures forall b :: b in list ==> !Suits(blocks, b, q.Need(), maySplit)
  {
    forall b | b in list && Suits(blocks, b, q.Need(), maySplit)
      ensures Obtainable(b, Pages(blocks, b), q, maySplit, bad, s) {
      assert CleanAt(bad, b, q.Exposed());
    }
  }

  /** The search goes on to the next block. */
  lemma SoughtNext(blocks: Blocks, list: seq<nat>, k: nat, q: Request, maySplit: bool, bad: nat -> bool, s: Settings)
    requires q.Proper() && k < |list| && list[k] in blocks && Sought(blocks, list, k, q, maySplit, bad, s)
    requires || !Obtainable(list[k], Pages(blocks, list[k]), q, maySplit, bad, s)
             || (k + 1 < |list| && Sure(blocks, list[k + 1], q, maySplit, bad))
    ensures Sought(blocks, list, k + 1, q, maySplit, bad, s)
  {
    if Sure(blocks, list[k], q, maySplit, bad) {
      SureObtainable(blocks, list[k], q, bad, s);
    }
  }

  /** The search goes on after a block has been dropped. */
  lemma SoughtDropped(blocks: Blocks, list: seq<nat>, k: nat, blocks': Blocks, q: Request, maySplit: bool,
                      bad: nat -> bool, s: Settings)
    requires q.Proper() && k < |list| && list[k] in blocks && Sought(blocks, list, k, q, maySplit, bad, s)
    requires !Obtainable(list[k], Pages(blocks, list[k]), q, maySplit, bad, s) && FreesKept(blocks, blocks', 0)
    requires forall b :: b in Rest(list, k) ==> b != 0 && b in blocks' && blocks'[b].Free?
    ensures Sought(blocks', Rest(list, k), k, q, maySplit, bad, s)
  {
    if Sure(blocks, list[k], q, maySplit, bad) {
      SureObtainable(blocks, list[k], q, bad, s);
    }
    forall j | 0 <= j < k && Rest(list, k)[j] in blocks'
      ensures !Obtainable(Rest(list, k)[j], Pages(blocks', Rest(list, k)[j]), q, maySplit, bad, s)
    {
      assert Rest(list, k)[j] == list[j] && Rest(list, k)[j] in Rest(list, k);
    }
  }

  /** The search of a list that is as it was, after others have lost blocks. */
  lemma KeptNarrowed(blocks0: Blocks, blocks: Blocks, list: seq<nat>, q: Request, maySplit: bool, bad: nat -> bool,
                     s: Settings)
    requires FreesKept(blocks0, blocks, 0) && forall b :: b in list ==> b != 0 && b in blocks && blocks[b].Free?
    ensures Narrowed(blocks0, list, blocks, list, q, maySplit, bad, s)
  {
  }

  /** What a later search finds is what one at the start would have. */
  lemma FromEarlier(blocks0: Blocks, lists0: ListSeq, blocks: Blocks, lists: ListSeq, m: nat, n: nat, r: nat,
                    q: Request, bad: nat -> bool, s: Settings)
    requires |lists| == |lists0|
    requires forall i :: m <= i < |lists0| ==> Narrowed(blocks0, lists0[i], blocks, lists[i], q, true, bad, s)
    ensures OneFrom(blocks, lists, m, n, r, q, bad, s) ==> OneFrom(blocks0, lists0, m, n, r, q, bad, s)
    ensures NoneFrom(blocks, lists, m, n, q, bad, s) ==> NoneFrom(blocks0, lists0, m, n, q, bad, s)
  {
    if OneFrom(blocks, lists, m, n, r, q, bad, s) {
      var i :| m <= i < n && i < |lists| && Chosen(blocks, lists[i], r, q, true, bad, s);
      NarrowedChosen(blocks0, lists0[i], blocks, lists[i], r, q, true, bad, s);
    }
    if NoneFrom(blocks, lists, m, n, q, bad, s) {
      forall i | m <= i < n && i < |lists0| ensures NoneMeets(blocks0, lists0[i], q, true, bad, s) {
        NarrowedNone(blocks0, lists0[i], blocks, lists[i], q, true, bad, s);
      }
    }
  }

  // ---- Which block an allocation takes ----

  /** May an allocation split the blocks of list m? */
  predicate Permits(policy: Policy, bytes: seq<nat>, m: nat) {
    policy.wholeHeap || (!policy.muchFinalized && policy.allocd + FreeFrom(bytes, m) >= policy.most)
  }

  /** May the request be met from free block b? */
  predicate Eligible(blocks: Blocks, bytes: seq<nat>, b: nat, q: Request, policy: Policy, bad: nat -> bool, s: Settings)
  {
    && b in blocks && blocks[b].Free? && Obtainable(b, Pages(blocks, b), q, true, bad, s)
    && (Pages(blocks, b) == q.Need() || Permits(policy, bytes, IndexFor(Pages(blocks, b))))
  }

  ghost predicate NoneEligible(blocks: Blocks, bytes: seq<nat>, q: Request, policy: Policy, bad: nat -> bool,
                               s: Settings)
  {
    forall b: nat :: !Eligible(blocks, bytes, b, q, policy, bad, s)
  }

  /** No free block of exactly the size needed can meet the request. */
  ghost predicate NoExactFit(blocks: Blocks, q: Request, bad: nat -> bool, s: Settings) {
    forall b :: b in blocks && blocks[b].Free? ==> !Obtainable(b, Pages(blocks, b), q, false, bad, s)
  }

  /** The request is met at r from an eligible block, and from an exact fit if there is one. */
  ghost predicate Best(blocks: Blocks, bytes: seq<nat>, r: nat, q: Request, policy: Policy, bad: nat -> bool,
                       s: Settings)
  {
    exists b :: && Eligible(blocks, bytes, b, q, policy, bad, s) && Gives(b, Pages(blocks, b), r, q, bad, s)
                && (Pages(blocks, b) == q.Need() || NoExactFit(blocks, q, bad, s))
  }

  /** The list on which the second search begins. */
  function Second(need: nat): nat {
    var start := IndexFor(need);
    if start < UNIQUE_THRESHOLD then start + 1 else start
  }

  /** None of the lists from m on and before n has a block that can meet the request. */
  ghost predicate NoneFrom(blocks: Blocks, lists: ListSeq, m: nat, n: nat, q: Request, bad: nat -> bool, s: Settings) {
    forall i :: m <= i < n && i < |lists| ==> NoneMeets(blocks, lists[i], q, true, bad, s)
  }

  /** One of them has. */
  ghost predicate OneFrom(blocks: Blocks, lists: ListSeq, m: nat, n: nat, r: nat, q: Request, bad: nat -> bool,
                          s: Settings)
  {
    exists i :: m <= i < n && i < |lists| && Chosen(blocks, lists[i], r, q, true, bad, s)
  }

  /** The lists an allocation may take from, splitting, are those up to the limit. */
  ghost predicate Limits(policy: Policy, bytes: seq<nat>, from: nat, limit: nat) {
    forall m: nat :: from <= m <= N_HBLK_FLS ==> (m <= limit <==> Permits(policy, bytes, m))
  }

  lemma NoExactOnList(e: Entries, lists: ListSeq, bytes: seq<nat>, q: Request, bad: nat -> bool, s: Settings)
    requires Sound(e, lists, bytes) && IndexFor(q.Need()) < |lists|
    requires NoneMeets(Starts(e), lists[IndexFor(q.Need())], q, false, bad, s)
    ensures NoExactFit(Starts(e), q, bad, s)
  {
    Opened(Starts(e), lists, bytes, 0);
  }

  lemma ExactBest(e: Entries, lists: ListSeq, bytes: seq<nat>, r: nat, q: Request, policy: Policy, bad: nat -> bool,
                  s: Settings)
    requires Sound(e, lists, bytes) && IndexFor(q.Need()) < |lists|
    requires Chosen(Starts(e), lists[IndexFor(q.Need())], r, q, false, bad, s)
    ensures Best(Starts(e), bytes, r, q, policy, bad, s)
  {
    var b :| b in lists[IndexFor(q.Need())] && Supplies(Starts(e), b, r, q, false, bad, s);
    assert Eligible(Starts(e), bytes, b, q, policy, bad, s);
  }

  lemma SplitBest(e: Entries, lists: ListSeq, bytes: seq<nat>, limit: nat, r: nat, q: Request, policy: Policy,
                  bad: nat -> bool, s: Settings)
    requires Sound(e, lists, bytes) && NoExactFit(Starts(e), q, bad, s) && limit <= N_HBLK_FLS
    requires OneFrom(Starts(e), lists, Second(q.Need()), limit + 1, r, q, bad, s)
    requires Limits(policy, bytes, Second(q.Need()), limit)
    ensures Best(Starts(e), bytes, r, q, policy, bad, s)
  {
    var i :| Second(q.Need()) <= i < limit + 1 && i < |lists| && Chosen(Starts(e), lists[i], r, q, true, bad, s);
    var b :| b in lists[i] && Supplies(Starts(e), b, r, q, true, bad, s);
    Opened(Starts(e), lists, bytes, 0);
    assert Eligible(Starts(e), bytes, b, q, policy, bad, s);
  }

  lemma NoneIsEligible(e: Entries, lists: ListSeq, bytes: seq<nat>, limit: nat, q: Request, policy: Policy,
                       bad: nat -> bool, s: Settings)
    requires Sound(e, lists, bytes) && NoExactFit(Starts(e), q, bad, s)
    requires NoneFrom(Starts(e), lists, Second(q.Need()), limit + 1, q, bad, s)
    requires Limits(policy, bytes, Second(q.Need()), limit)
    ensures NoneEligible(Starts(e), bytes, q, policy, bad, s)
  {
    forall b: nat ensures !Eligible(Starts(e), bytes, b, q, policy, bad, s) {
      if Eligible(Starts(e), bytes, b, q, policy, bad, s) {
        WhereItIs(e, lists, bytes, b, q.Need());
      }
    }
  }

  /** Dropping blocks of one list leaves the byte counts of the others. */
  lemma BytesKept(e0: Entries, lists0: ListSeq, bytes0: seq<nat>, e: Entries, lists: ListSeq, bytes: seq<nat>, n: nat)
    requires Sound(e0, lists0, bytes0) && Sound(e, lists, bytes)
    requires FreesKept(Starts(e0), Starts(e), 0) && 0 !in Starts(e) && OthersAs(lists0, lists, n)
    ensures |bytes| == |bytes0| == |lists| == N_HBLK_FLS + 1
    ensures forall i :: 0 <= i < |bytes| && lists[i] == lists0[i] ==> bytes[i] == bytes0[i]
  {
    Opened(Starts(e0), lists0, bytes0, 0);
    Opened(Starts(e), lists, bytes, 0);
    forall i | 0 <= i < |bytes| && lists[i] == lists0[i] ensures bytes[i] == bytes0[i] {
      ListPagesFrame(Starts(e0), Starts(e), lists[i]);
    }
  }

  lemma {:induction false} FreeFromSame(bytes: seq<nat>, bytes': seq<nat>, n: nat)
    requires |bytes| == |bytes'| && forall i :: n <= i < |bytes| ==> bytes[i] == bytes'[i]
    ensures FreeFrom(bytes, n) == FreeFrom(bytes', n)
    decreases |bytes| - n
  {
    if n < |bytes| {
      FreeFromSame(bytes, bytes', n + 1);
    }
  }

  /** Fewer bytes are on fewer lists. */
  lemma {:induction false} FreeFromFalls(bytes: seq<nat>, m: nat, n: nat)
    requires m <= n
    ensures FreeFrom(bytes, n) <= FreeFrom(bytes, m)
    decreases n - m
  {
    if m < n {
      FreeFromFalls(bytes, m + 1, n);
    }
  }

  /** What the limit permits does not depend on the lists before. */
  lemma LimitsSame(policy: Policy, bytes: seq<nat>, bytes': seq<nat>, n: nat, limit: nat)
    requires Limits(policy, bytes, 1, limit) && n > 0
    requires |bytes| == |bytes'| && forall i :: n <= i < |bytes| ==> bytes[i] == bytes'[i]
    ensures Limits(policy, bytes', n, limit)
  {
    forall m: nat | n <= m <= N_HBLK_FLS ensures m <= limit <==> Permits(policy, bytes', m) {
      assert m <= limit <==> Permits(policy, bytes, m);
      FreeFromSame(bytes, bytes', m);
    }
  }

  /** A request that avoids black-listed pages is met at r on clean pages, or is a very large one in a block, from r
      on, without enough of them. */
  predicate Avoids(blocks: Blocks, r: nat, q: Request, bad: nat -> bool, s: Settings) {
    q.Careful() ==>
      || (forall p :: r <= p < r + q.Exposed() ==> !bad(p))
      || (r in blocks && VeryLarge(Pages(blocks, r), q, s) && !SomeClean(r, Pages(blocks, r), q, bad))
  }

  lemma BestAvoids(blocks: Blocks, bytes: seq<nat>, r: nat, q: Request, policy: Policy, bad: nat -> bool, s: Settings)
    requires Best(blocks, bytes, r, q, policy, bad, s)
    ensures Avoids(blocks, r, q, bad, s)
    ensures !q.Careful() ==> r in blocks && blocks[r].Free?
  {
  }

  /** What is known after the first search. */
  lemma Between(e0: Entries, lists0: ListSeq, bytes0: seq<nat>, e: Entries, lists: ListSeq, bytes: seq<nat>, limit: nat,
                q: Request, policy: Policy, bad: nat -> bool, s: Settings)
    requires Sound(e0, lists0, bytes0) && Sound(e, lists, bytes) && IndexFor(q.Need()) < |lists0|
    requires FreesKept(Starts(e0), Starts(e), 0) && 0 !in Starts(e) && OthersAs(lists0, lists, IndexFor(q.Need()))
    requires Second(q.Need()) > IndexFor(q.Need()) || lists == lists0
    requires NoneMeets(Starts(e0), lists0[IndexFor(q.Need())], q, false, bad, s)
    requires Limits(policy, bytes, 1, limit) && q.Proper()
    ensures NoExactFit(Starts(e0), q, bad, s) && Limits(policy, bytes0, Second(q.Need()), limit)
    ensures |lists| == |lists0| && forall m :: Second(q.Need()) <= m < |lists0| ==> lists[m] == lists0[m]
  {
    NoExactOnList(e0, lists0, bytes0, q, bad, s);
    BytesKept(e0, lists0, bytes0, e, lists, bytes, IndexFor(q.Need()));
    LimitsSame(policy, bytes, bytes0, Second(q.Need()), limit);
  }

  /** What the second search decides. */
  lemma Decided(e: Entries, lists: ListSeq, bytes: seq<nat>, limit: nat, r: nat, q: Request, policy: Policy,
                bad: nat -> bool, s: Settings)
    requires Sound(e, lists, bytes) && NoExactFit(Starts(e), q, bad, s) && limit <= N_HBLK_FLS
    requires Limits(policy, bytes, Second(q.Need()), limit)
    requires r != 0 ==> OneFrom(Starts(e), lists, Second(q.Need()), limit + 1, r, q, bad, s)
    requires r == 0 ==> NoneFrom(Starts(e), lists, Second(q.Need()), limit + 1, q, bad, s)
    ensures r != 0 ==> Best(Starts(e), bytes, r, q, policy, bad, s) && Avoids(Starts(e), r, q, bad, s)
    ensures r == 0 ==> NoneEligible(Starts(e), bytes, q, policy, bad, s)
  {
    if r != 0 {
      SplitBest(e, lists, bytes, limit, r, q, policy, bad, s);
      BestAvoids(Starts(e), bytes, r, q, policy, bad, s);
    } else {
      NoneIsEligible(e, lists, bytes, limit, q, policy, bad, s);
    }
  }

  class Heap {
    const index: Index
    const lists: Lists
    var largeFree: nat            // GC_large_free_bytes
    var heapSize: nat             // GC_heapsize
    var sections: seq<Section>    // GC_heap_sects
    var dropped: nat              // GC_bytes_dropped
    var count: nat                // of completely black-listed blocks met

    /** Between calls. Stated so that only `Unfolded` unfolds it. */
    ghost predicate Valid()
      reads this, index, lists
    {
      forall size :: size in [heapSize] ==> Consistent(size)
    }

    lemma Unfolded()
      ensures Valid() <==> Consistent(heapSize)
    {
      assert heapSize in [heapSize];
    }

    ghost predicate Consistent(size: nat)
      reads this, index, lists
    {
      && index.Valid() && lists.Valid() && Sound(index.entries, lists.lists, lists.bytes)
      && Accounts(Starts(index.entries), largeFree, size) && size < SIGNB && Tiles(Starts(index.entries), sections)
    }

    ghost function Blocks(): Blocks
      reads this, index
    {
      Starts(index.entries)
    }

    constructor ()
      ensures Valid() && fresh(index) && fresh(lists) && heapSize == 0 && sections == []
    {
      index := new Index();
      lists := new Lists();
      largeFree, heapSize, sections, dropped, count := 0, 0, [], 0, 0;
      new;
      EmptyHeap(index.entries, lists.lists, lists.bytes);
      Unfolded();
    }

    /** `GC_freehblk`. */
    method FreeBlock(h: nat, ghost total: nat)
      requires index.Valid() && lists.Valid() && Freeable(index.entries, lists.lists, lists.bytes, h)
      requires Accounts(Blocks(), largeFree, total) && total < SIGNB && Tiles(Blocks(), sections)
      modifies this`largeFree, index, lists
      ensures index.Valid() && lists.Valid() && Sound(index.entries, lists.lists, lists.bytes)
      ensures Accounts(Blocks(), largeFree, total) && Tiles(Blocks(), sections)
      ensures SameUsed(old(Blocks()), Blocks(), h) && (h in Blocks() ==> Blocks()[h].Free?)
      ensures largeFree == old(largeFree) + HBLKSIZE * Pages(old(Blocks()), h)
    {
      ghost var before := Blocks();
      var n := index.entries[h].h.Pages();
      FreeBegins(index.entries, lists.lists, lists.bytes, h, largeFree, total, sections);
      MarkFree(h, n);
      EndsAtStart(Blocks(), h);
      var prev := index.FreeBlockEndingAt(h);
      assert prev != 0 ==> FreeNeighbours(Blocks(), prev, h);
      var x := Coalesce(h, prev, before, largeFree + HBLKSIZE * n, total);
      largeFree := largeFree + HBLKSIZE * n;
      PutOnList(x);
    }

    /** The header of block h, and the index, say that it is free. */
    method MarkFree(h: nat, n: nat)
      requires index.Valid() && h in index.entries && index.entries[h].Start? && n == index.entries[h].h.Pages()
      requires CountedBut(index.entries, h)
      modifies index
      ensures index.Valid() && index.entries == Freed(old(index.entries), h)
    {
      index.RemoveCounts(h, n);
      index.SetHeader(h, Free(n));
    }

    method PutOnList(x: nat)
      requires index.Valid() && lists.Valid() && Loose(index.entries, lists.lists, lists.bytes, x)
      requires CoalescedBut(Blocks(), x) && NoRight(Blocks(), x) && NoLeft(Blocks(), x)
      modifies lists
      ensures index.Valid() && lists.Valid() && Sound(index.entries, lists.lists, lists.bytes)
    {
      LooseListed(index.entries, lists.lists, lists.bytes, x);
      var size := index.entries[x].h.Pages();
      lists.Add(x, IndexFor(size), HBLKSIZE * size);
    }

    /** The part of `GC_freehblk` that merges free block h with its neighbours. */
    method Coalesce(h: nat, prev: nat, ghost before: Blocks, ghost free: nat, ghost total: nat) returns (x: nat)
      requires index.Valid() && lists.Valid() && Loose(index.entries, lists.lists, lists.bytes, h)
      requires Merging(before, Blocks(), h, h, free, total, sections) && total < SIGNB
      requires if prev != 0 then FreeNeighbours(Blocks(), prev, h) else NoLeft(Blocks(), h)
      modifies index, lists
      ensures index.Valid() && lists.Valid() && Loose(index.entries, lists.lists, lists.bytes, x)
      ensures Merging(before, Blocks(), h, x, free, total, sections) && NoRight(Blocks(), x) && NoLeft(Blocks(), x)
    {
      CoalesceNext(h, before, free, total);
      if prev != 0 {
        NoOverflow(Blocks(), prev, h, free, total);
        if HBLKSIZE * (index.entries[prev].h.Pages() + index.entries[h].h.Pages()) < SIGNB {
          PrevGone(before, Blocks(), h, prev, free, total, sections);
          MergeWithPrev(h, prev);
          return prev;
        }
      }
      return h;
    }

    method CoalesceNext(h: nat, ghost before: Blocks, ghost free: nat, ghost total: nat)
      requires index.Valid() && lists.Valid() && Loose(index.entries, lists.lists, lists.bytes, h)
      requires Merging(before, Blocks(), h, h, free, total, sections) && total < SIGNB
      modifies index, lists
      ensures index.Valid() && lists.Valid() && Loose(index.entries, lists.lists, lists.bytes, h)
      ensures Merging(before, Blocks(), h, h, free, total, sections) && NoRight(Blocks(), h)
      ensures forall a :: FreeNeighbours(Blocks(), a, h) <==> FreeNeighbours(old(Blocks()), a, h)
    {
      var n := index.entries[h].h.Pages();
      var next := h + n;
      if next in index.entries && index.entries[next].Start? && index.entries[next].h.Free? {
        assert FreeNeighbours(Blocks(), h, next);
        NoOverflow(Blocks(), h, next, free, total);
        if HBLKSIZE * (n + index.entries[next].h.Pages()) < SIGNB {
          NextGone(before, Blocks(), h, next, free, total, sections);
          MergeWithNext(h, next);
        }
      }
    }

    /** `GC_add_to_heap`. */
    method AddToHeap(start: nat, pages: nat)
      requires Valid() && pages > 0 && start + pages <= ADDRESSABLE && heapSize + HBLKSIZE * pages < SIGNB
      requires forall p: nat :: start <= p < start + pages ==> !InHeap(sections, p)
      modifies this, index, lists
      ensures Valid()
      ensures heapSize - largeFree == old(heapSize - largeFree) && SameUsed(old(Blocks()), Blocks(), 0)
      ensures forall p: nat :: InHeap(sections, p) <==>
                old(InHeap(sections, p)) || (start <= p < start + pages && 1 < p < ADDRESSABLE - 1)
    {
      Unfolded();
      var p, n := start, pages;
      while p <= 1
        invariant n > 0 && p + n == start + pages && start <= p && (p == start || p <= 2)
      {
        // memory near address zero is of no use
        p, n := p + 1, n - 1;
        if n == 0 {
          return;
        }
      }
      var end := Wrapped(p + n);
      while end <= p
        invariant 0 < n <= start + pages - p && p + n <= ADDRESSABLE && end == Wrapped(p + n)
        invariant p + n == start + pages || p + n == ADDRESSABLE - 1 == start + pages - 1
      {
        // the end has wrapped round
        n := n - 1;
        if n == 0 {
          return;
        }
        end := if end == 0 then ADDRESSABLE - 1 else end - 1;
      }
      Grow(p, n);
    }

    /** New pages, at first as one block in use. */
    method AddPages(p: nat, n: nat)
      requires Valid() && n > 0 && p > 0
      requires forall q: nat :: p <= q < p + n ==> !InHeap(sections, q)
      modifies this`sections, index
      ensures index.Valid() && lists.Valid() && Freeable(index.entries, lists.lists, lists.bytes, p)
      ensures Accounts(Blocks(), largeFree, heapSize + n * HBLKSIZE) && Tiles(Blocks(), sections)
      ensures forall q: nat :: InHeap(sections, q) <==> old(InHeap(sections, q)) || p <= q < p + n
      ensures p !in old(Blocks()) && Blocks() == old(Blocks())[p := Used(n * HBLKSIZE)]
    {
      Unfolded();
      NewPages(index.entries, lists.lists, lists.bytes, p, n);
      NewAccounts(Blocks(), p, n, largeFree, heapSize, sections);
      index.InstallHeader(p, Used(n * HBLKSIZE));
      MoreHeap(sections, p, n);
      sections := sections + [Section(p, n)];
    }

    method Grow(p: nat, n: nat)
      requires Valid() && n > 0 && p > 0 && heapSize + HBLKSIZE * n < SIGNB
      requires forall q: nat :: p <= q < p + n ==> !InHeap(sections, q)
      modifies this, index, lists
      ensures Valid() && forall q: nat :: InHeap(sections, q) <==> old(InHeap(sections, q)) || p <= q < p + n
      ensures heapSize - largeFree == old(heapSize - largeFree) && SameUsed(old(Blocks()), Blocks(), 0)
    {
      AddFree(p, n);
      heapSize := heapSize + n * HBLKSIZE;
      Unfolded();
    }

    /** New pages, freed at once. */
    method AddFree(p: nat, n: nat)
      requires Valid() && n > 0 && p > 0 && heapSize + HBLKSIZE * n < SIGNB
      requires forall q: nat :: p <= q < p + n ==> !InHeap(sections, q)
      modifies this`sections, this`largeFree, index, lists
      ensures index.Valid() && lists.Valid() && Sound(index.entries, lists.lists, lists.bytes)
      ensures Accounts(Blocks(), largeFree, heapSize + n * HBLKSIZE) && Tiles(Blocks(), sections)
      ensures forall q: nat :: InHeap(sections, q) <==> old(InHeap(sections, q)) || p <= q < p + n
      ensures largeFree == old(largeFree) + n * HBLKSIZE && SameUsed(old(Blocks()), Blocks(), 0)
    {
      ghost var before := Blocks();
      AddPages(p, n);
      ghost var added := Blocks();
      assert HBLKSIZE * Pages(added, p) == n * HBLKSIZE;
      FreeBlock(p, heapSize + n * HBLKSIZE);
      SameUsedAdded(before, added, Blocks(), p, Used(n * HBLKSIZE));
    }

    /** `GC_split_block`: the first part of free block h goes to the list that its size selects, and the second, from
        page `at`, takes the place of the whole on list i. */
    method SplitBlock(h: nat, at: nat, i: nat)
      requires index.Valid() && lists.Valid() && HeldHidden(index.entries, lists.lists, lists.bytes, h, i)
      requires h in index.entries && index.entries[h].Start? && h < at < h + index.entries[h].h.Pages()
      modifies index, lists
      ensures index.Valid() && lists.Valid() && HeldHidden(index.entries, lists.lists, lists.bytes, at, i)
      ensures Blocks() == Split(old(Blocks()), h, at - h)
    {
      ghost var e, ls, bs := index.entries, lists.lists, lists.bytes;
      var k := index.entries[h].h.Pages();
      HeldSplits(e, ls, bs, h, at, i);
      index.InstallHeader(at, Free(k - (at - h)));
      lists.Replace(h, at, i, HBLKSIZE * (at - h));
      ghost var j, placed, counts := IndexFor(at - h), lists.lists, lists.bytes;
      SplitHeld(e, ls, bs, h, at, i, placed, counts);
      index.SetHeader(h, Free(at - h));
      SplitEntriesIs(e, h, at);
      lists.Add(h, IndexFor(at - h), HBLKSIZE * (at - h));
      assert lists.lists == placed[j := [h] + placed[j]] && lists.bytes == counts[j := counts[j] + HBLKSIZE * (at - h)];
    }

    /** `GC_get_first_part`: block h, held on list i, keeps the pages needed. */
    method GetFirstPart(h: nat, need: nat, i: nat)
      requires index.Valid() && lists.Valid() && Held(index.entries, lists.lists, lists.bytes, h, i)
      requires 0 < need <= index.entries[h].h.Pages() && OnlyBefore(Blocks(), h)
      requires Accounts(Blocks(), largeFree, heapSize) && Tiles(Blocks(), sections)
      modifies index, lists
      ensures index.Valid() && lists.Valid() && Loose(index.entries, lists.lists, lists.bytes, h)
      ensures index.entries[h].h.Pages() == need && CoalescedBut(Blocks(), h)
      ensures Accounts(Blocks(), largeFree, heapSize) && Tiles(Blocks(), sections)
      ensures SameUsed(old(Blocks()), Blocks(), h)
    {
      var total := index.entries[h].h.Pages();
      lists.RemoveAt(h, i, HBLKSIZE * total);
      if total != need {
        ReturnRest(h, need);
      }
    }

    /** The pages of block h that are not needed become a free block. */
    method ReturnRest(h: nat, need: nat)
      requires index.Valid() && lists.Valid() && Loose(index.entries, lists.lists, lists.bytes, h)
      requires 0 < need < index.entries[h].h.Pages() && OnlyBefore(Blocks(), h)
      requires Accounts(Blocks(), largeFree, heapSize) && Tiles(Blocks(), sections)
      modifies index, lists
      ensures index.Valid() && lists.Valid() && Loose(index.entries, lists.lists, lists.bytes, h)
      ensures index.entries[h].h.Pages() == need && CoalescedBut(Blocks(), h)
      ensures Accounts(Blocks(), largeFree, heapSize) && Tiles(Blocks(), sections)
      ensures SameUsed(old(Blocks()), Blocks(), h)
    {
      var total := index.entries[h].h.Pages();
      ghost var e := index.entries;
      var rest := h + need;
      RestReturned(e, lists.lists, lists.bytes, h, need, largeFree, heapSize, sections);
      index.InstallHeader(rest, Free(total - need));
      index.SetHeader(h, Free(need));
      assert index.entries == SplitEntries(e, h, need);
      lists.Add(rest, IndexFor(total - need), HBLKSIZE * (total - need));
    }

    /** The end of `GC_allochblk_nth`: counts and header of the block found. */
    method Use(x: nat, sz: nat)
      requires index.Valid() && lists.Valid() && Loose(index.entries, lists.lists, lists.bytes, x)
      requires CoalescedBut(Blocks(), x)
      requires sz > 0 && sz % WORD == 0 && PagesFor(sz) == index.entries[x].h.Pages()
      requires Accounts(Blocks(), largeFree, heapSize) && Tiles(Blocks(), sections) && heapSize < SIGNB
      modifies this`largeFree, index
      ensures Valid() && Blocks() == Marked(old(Blocks()), x, Used(sz)) && SameUsed(old(Blocks()), Blocks(), x)
    {
      LooseUsed(index.entries, lists.lists, lists.bytes, x, sz);
      UsedKept(Blocks(), x, sz, largeFree, heapSize, sections);
      ghost var e := index.entries;
      index.InstallCounts(x, PagesFor(sz));
      index.SetHeader(x, Used(sz));
      assert index.entries == UsedEntries(e, x, sz);
      largeFree := largeFree - HBLKSIZE * PagesFor(sz);
      Unfolded();
    }

    /** Allocates the pages needed from page `at` on, in free block h on list i. */
    method Take(h: nat, at: nat, sz: nat, i: nat)
      requires Valid() && i < |lists.lists| && h in lists.lists[i] && sz > 0 && sz % WORD == 0
      requires h in index.entries && index.entries[h].Start? && h <= at
      requires at + PagesFor(sz) <= h + index.entries[h].h.Pages()
      modifies this`largeFree, index, lists
      ensures Valid() && at in Blocks() && Blocks()[at] == Used(sz) && SameUsed(old(Blocks()), Blocks(), at)
      ensures at !in old(Blocks()) || old(Blocks())[at].Free?
    {
      Unfolded();
      lists.InOrder();
      ListedHeld(index.entries, lists.lists, lists.bytes, h, i);
      if at != h {
        TakeRest(h, at, sz, i);
      } else {
        TakeHeld(at, sz, i);
      }
    }

    method TakeRest(h: nat, at: nat, sz: nat, i: nat)
      requires index.Valid() && lists.Valid() && Held(index.entries, lists.lists, lists.bytes, h, i)
      requires Coalesced(Blocks())
      requires sz > 0 && sz % WORD == 0 && h < at && at + PagesFor(sz) <= h + index.entries[h].h.Pages()
      requires Accounts(Blocks(), largeFree, heapSize) && Tiles(Blocks(), sections) && heapSize < SIGNB
      modifies this`largeFree, index, lists
      ensures Valid() && at in Blocks() && Blocks()[at] == Used(sz) && SameUsed(old(Blocks()), Blocks(), at)
      ensures at !in old(Blocks())
    {
      Positive(sz);
      ghost var before := Blocks();
      SplitKept(h, at, i);
      ghost var split := Blocks();
      TakeHeld(at, sz, i);
      SameUsedThen(before, split, Blocks(), at);
    }

    method SplitKept(h: nat, at: nat, i: nat)
      requires index.Valid() && lists.Valid() && Held(index.entries, lists.lists, lists.bytes, h, i)
      requires Coalesced(Blocks())
      requires h < at < h + index.entries[h].h.Pages()
      requires Accounts(Blocks(), largeFree, heapSize) && Tiles(Blocks(), sections)
      modifies index, lists
      ensures index.Valid() && lists.Valid() && Held(index.entries, lists.lists, lists.bytes, at, i)
      ensures OnlyBefore(Blocks(), at)
      ensures Accounts(Blocks(), largeFree, heapSize) && Tiles(Blocks(), sections)
      ensures SameUsed(old(Blocks()), Blocks(), at)
      ensures at !in old(Blocks()) && at in Blocks() && Pages(Blocks(), at) == Pages(old(Blocks()), h) - (at - h)
    {
      SplitFacts(index.entries, h, at - h, largeFree, heapSize, sections);
      ghost var after := Split(Blocks(), h, at - h);
      HeldOpened(index.entries, lists.lists, lists.bytes, h, i);
      SplitBlock(h, at, i);
      assert Blocks() == after && OnlyBefore(Blocks(), at) && Accounts(Blocks(), largeFree, heapSize);
      assert Tiles(Blocks(), sections) && SameUsed(old(Blocks()), Blocks(), at);
      HeldOpened(index.entries, lists.lists, lists.bytes, at, i);
    }

    method TakeHeld(x: nat, sz: nat, i: nat)
      requires index.Valid() && lists.Valid() && Held(index.entries, lists.lists, lists.bytes, x, i)
      requires OnlyBefore(Blocks(), x)
      requires sz > 0 && sz % WORD == 0 && PagesFor(sz) <= index.entries[x].h.Pages()
      requires Accounts(Blocks(), largeFree, heapSize) && Tiles(Blocks(), sections) && heapSize < SIGNB
      modifies this`largeFree, index, lists
      ensures Valid() && x in Blocks() && Blocks()[x] == Used(sz) && SameUsed(old(Blocks()), Blocks(), x)
    {
      Positive(sz);
      ghost var before := Blocks();
      GetFirstPart(x, PagesFor(sz), i);
      ghost var first := Blocks();
      Use(x, sz);
      SameUsedThen(before, first, Blocks(), x);
    }

    /** The part of `GC_allochblk_nth` that drops a completely black-listed block: its pages are allocated one
        by one. */
    method Drop(h: nat, i: nat)
      requires Valid() && i < |lists.lists| && h in lists.lists[i]
      modifies this`largeFree, this`dropped, index, lists
      ensures Valid() && KeepsUsed(old(Blocks()), Blocks()) && dropped > old(dropped)
      ensures FreesKept(old(Blocks()), Blocks(), 0)
      ensures lists.lists == old(lists.lists)[i := Without(old(lists.lists)[i], h)]
    {
      Unfolded();
      lists.InOrder();
      ListedHeld(index.entries, lists.lists, lists.bytes, h, i);
      var k := index.entries[h].h.Pages();
      TotalAtLeast(Blocks(), h);
      OneStarts(index.entries, h);
      dropped := dropped + HBLKSIZE * k;
      lists.RemoveAt(h, i, HBLKSIZE * k);
      DropPages(h, k);
    }

    /** Page p of dropped block h, as a block in use. */
    method UsePage(p: nat, h: nat)
      requires index.Valid() && (p == h ==> p in index.entries)
      modifies index
      ensures index.Valid() && index.entries == PageUsed(old(index.entries), p)
    {
      if p == h {
        index.SetHeader(p, Used(HBLKSIZE));
      } else {
        index.InstallHeader(p, Used(HBLKSIZE));
      }
    }

    method DropPages(h: nat, k: nat)
      requires index.Valid() && lists.Valid() && Alone(index.entries, lists.lists, lists.bytes, h)
      requires k > 0 && index.entries[h] == Start(Free(k)) && largeFree >= HBLKSIZE * k && heapSize < SIGNB
      requires Accounts(Blocks(), largeFree, heapSize) && Tiles(Blocks(), sections)
      modifies this`largeFree, index
      ensures Valid() && KeepsUsed(old(Blocks()), Blocks()) && FreesKept(old(Blocks()), Blocks(), 0)
    {
      ghost var before := Blocks();
      largeFree := largeFree - HBLKSIZE * k;
      var p, limit := h, h + k;
      DroppingOpened(index.entries, index.entries, lists.lists, lists.bytes, h, h, limit, largeFree, heapSize,
                     sections);
      ghost var e: Entries := index.entries;    // as if the pages still to come were a free block
      while p < limit
        invariant h <= p <= limit && index.Valid() && (p == h ==> p in index.entries)
        invariant Dropping(index.entries, e, lists.lists, lists.bytes, h, p, limit, largeFree, heapSize, sections)
        invariant KeepsUsed(before, Starts(e)) && lists.Valid()
        invariant FreesKept(before, Starts(e), if p < limit then p else 0)
      {
        ghost var last := e;
        e := DropStep(index.entries, e, lists.lists, lists.bytes, h, p, limit, largeFree, heapSize, sections);
        UsePage(p, h);
        FreesKeptThen(before, Starts(last), Starts(e), p, if p + 1 < limit then p + 1 else 0);
        p := p + 1;
      }
      DroppingOpened(index.entries, e, lists.lists, lists.bytes, h, limit, limit, largeFree, heapSize, sections);
      Unfolded();
    }

    /** The search in a free block for a start from which no page needed is black-listed; it ends past `end` if there
        is none. */
    method SkipBlack(h: nat, end: nat, n: nat, bad: nat -> bool) returns (at: nat)
      requires h <= end
      ensures h <= at <= end + n && (NothingBad(bad) ==> at == h)
      ensures at <= end ==> CleanAt(bad, at, n)
      ensures forall x :: h <= x < at && x <= end ==> !CleanAt(bad, x, n)
    {
      at := h;
      var next := BlackListed(bad, at, n);
      while at <= end && next != 0
        invariant h <= at <= end + n && next == BlackListed(bad, at, n)
        invariant NothingBad(bad) ==> at == h
        invariant forall x :: h <= x < at && x <= end ==> !CleanAt(bad, x, n)
        decreases end + n - at
      {
        at := next;
        next := BlackListed(bad, at, n);
      }
    }

    /** Would splitting free block h be a waste, its successor on the list being a better fit? */
    method PassOver(avail: nat, next: nat, need: nat, bad: nat -> bool) returns (pass: bool)
      requires next != 0 ==> next in index.entries && index.entries[next].Start?
      ensures pass <==> next != 0 && need <= index.entries[next].h.Pages() < avail && CleanAt(bad, next, need)
    {
      if next == 0 {
        return false;
      }
      var size := index.entries[next].h.Pages();
      return size < avail && size >= need && BlackListed(bad, next, need) == 0;
    }

    /** The body of the loop of `GC_allochblk_nth`: what to do with free block h, before `next` on its list. */
    method Consider(h: nat, next: nat, q: Request, maySplit: bool, bad: nat -> bool, settings: Settings)
      returns (c: Choice)
      requires h in index.entries && index.entries[h].Start?
      requires (next != 0 ==> next in index.entries && index.entries[next].Start?)
      ensures c.From? ==> h <= c.at && c.at + q.Need() <= h + index.entries[h].h.Pages()
      ensures NothingBad(bad) ==> !c.Hopeless?
      ensures NothingBad(bad) && c.Pass? ==>
                !Suits(Blocks(), h, q.Need(), maySplit) || (next != 0 && Suits(Blocks(), next, q.Need(), maySplit))
      ensures var k := index.entries[h].h.Pages();
              && (c.From? ==> Obtainable(h, k, q, maySplit, bad, settings) && Gives(h, k, c.at, q, bad, settings))
              && (c.Hopeless? ==> !Obtainable(h, k, q, maySplit, bad, settings) && q.Need() == 1)
              && (c.Pass? ==> !Obtainable(h, k, q, maySplit, bad, settings)
                              || (next != 0 && Sure(Blocks(), next, q, maySplit, bad)))
    {
      var need, avail := q.Need(), index.entries[h].h.Pages();
      if avail < need || (avail != need && !maySplit) {
        return Pass;
      }
      if avail != need {
        var pass := PassOver(avail, next, need, bad);
        if pass {
          return Pass;
        }
      }
      var at := h;
      if q.Careful() {
        at := SkipBlack(h, h + avail - need, q.Exposed(), bad);
        SkipDecides(h, avail, at, q, bad);
        if at + need > h + avail && HBLKSIZE * need > settings.blackListSpacing
           && HBLKSIZE * (avail - need) > settings.blackListSpacing {
          // a very large block is allocated all the same
          at := h;
        }
      }
      if at + need <= h + avail {
        return From(at);
      }
      return if at == h + avail && need == 1 && !settings.findLeak then Hopeless else Pass;
    }

    lemma OnList(n: nat)
      requires Valid() && n < |lists.lists|
      ensures index.Valid() && lists.Valid()
      ensures forall x :: x in lists.lists[n] ==>
                x != 0 && x in index.entries && index.entries[x].Start? && index.entries[x].h.Free?
    {
      Unfolded();
      ListedFree(index.entries, lists.lists, lists.bytes, n);
    }

    /** Drops h, the kth block of list n, and goes back to the block before it. */
    method DropAt(h: nat, prev: nat, n: nat, ghost k: nat) returns (next: nat)
      requires Valid() && n < |lists.lists| && k < |lists.lists[n]| && h == lists.lists[n][k]
      requires prev == PrevOf(lists.lists[n], k) && (prev == 0 <==> k == 0)
      modifies this`largeFree, this`dropped, index, lists
      ensures Valid() && KeepsUsed(old(Blocks()), Blocks()) && dropped > old(dropped)
      ensures |lists.lists| == |old(lists.lists)| && |lists.lists[n]| == |old(lists.lists)[n]| - 1
      ensures lists.lists == old(lists.lists)[n := Rest(old(lists.lists)[n], k)]
      ensures FreesKept(old(Blocks()), Blocks(), 0)
      ensures prev != 0 ==> next == if k < |lists.lists[n]| then lists.lists[n][k] else 0
    {
      ghost var list := lists.lists[n];
      OnList(n);
      lists.InOrder();
      WithoutAt(list, k);
      Drop(h, n);
      OnList(n);
      next := 0;
      if prev != 0 {
        assert lists.lists[n][k - 1] == list[k - 1];
        var _, after := lists.Around(prev, n, k - 1);
        next := after;
      }
    }

    /** Passes over a completely black-listed block; every fourth is dropped, and if it was the first of its list the
        search starts again. */
    method GiveUp(h: nat, prev: nat, next: nat, n: nat, ghost k: nat) returns (again: bool, next': nat, ghost k': nat)
      requires Valid() && n < |lists.lists| && k < |lists.lists[n]| && h == lists.lists[n][k]
      requires prev == PrevOf(lists.lists[n], k) && (prev == 0 <==> k == 0) && next == NextOf(lists.lists[n], k)
      modifies this`largeFree, this`dropped, this`count, index, lists
      ensures Valid() && KeepsUsed(old(Blocks()), Blocks()) && dropped >= old(dropped)
      ensures dropped == old(dropped) ==> index.entries == old(index.entries) && lists.lists == old(lists.lists)
      ensures |lists.lists| == |old(lists.lists)| && |lists.lists[n]| <= |old(lists.lists)[n]|
      ensures again ==> |lists.lists[n]| < |old(lists.lists)[n]| && dropped > old(dropped)
      ensures k' <= |lists.lists[n]| && |lists.lists[n]| - k' < |old(lists.lists)[n]| - k
      ensures !again ==> next' == if k' < |lists.lists[n]| then lists.lists[n][k'] else 0
      ensures dropped == old(dropped) ==> k' == k + 1
      ensures count == old(count) + 1 && (dropped > old(dropped) <==> count % 4 == 0)
      ensures FreesKept(old(Blocks()), Blocks(), 0)
      ensures dropped != old(dropped) ==>
                k' == k && lists.lists == old(lists.lists)[n := Rest(old(lists.lists)[n], k)] && (again <==> k == 0)
    {
      Unfolded();
      count := count + 1;
      Unfolded();
      again, next', k' := false, next, k + 1;
      if count % 4 == 0 {
        next' := DropAt(h, prev, n, k);
        again, k' := prev == 0, k;
      }
    }

    /** What the search of list n does at its kth block, h. */
    method Look(h: nat, q: Request, n: nat, maySplit: bool, bad: nat -> bool, settings: Settings, ghost k: nat,
                ghost blocks0: Blocks, ghost lists0: ListSeq)
      returns (r: nat, again: bool, next: nat, ghost k': nat)
      requires Valid() && q.Proper() && n < |lists.lists| && k < |lists.lists[n]| && h == lists.lists[n][k]
      requires Searching(blocks0, lists0, n, Blocks(), lists.lists, k, q, maySplit, bad, settings)
      modifies this`largeFree, this`dropped, this`count, index, lists
      ensures Valid() && KeepsUsed(old(Blocks()), Blocks()) && dropped >= old(dropped)
      ensures NothingBad(bad) || r != 0 ==> dropped == old(dropped)
      ensures r != 0 ==>
                r in Blocks() && Blocks()[r] == Used(q.bytes) && (r in old(Blocks()) ==> old(Blocks())[r].Free?)
      ensures r != 0 ==> SameUsed(old(Blocks()), Blocks(), r)
      ensures r != 0 ==> n < |lists0| && Chosen(blocks0, lists0[n], r, q, maySplit, bad, settings)
      ensures r == 0 && dropped == old(dropped) ==>
                index.entries == old(index.entries) && lists.lists == old(lists.lists)
      ensures dropped > old(dropped) ==> q.Need() == 1
      ensures |lists.lists| == |old(lists.lists)|
      ensures r == 0 ==> |lists.lists[n]| <= |old(lists.lists)[n]|
      ensures r == 0 && again ==> |lists.lists[n]| < |old(lists.lists)[n]| && dropped > old(dropped)
      ensures r == 0 ==> k' <= |lists.lists[n]| && |lists.lists[n]| - k' < |old(lists.lists)[n]| - k
      ensures r == 0 && !again ==> next == if k' < |lists.lists[n]| then lists.lists[n][k'] else 0
      ensures r == 0 ==> Searching(blocks0, lists0, n, Blocks(), lists.lists, k', q, maySplit, bad, settings)
    {
      OnList(n);
      StartsOnList(n);
      r, again, k' := 0, false, k + 1;
      var prev, after := lists.Around(h, n, k);
      next := after;
      var c := Consider(h, next, q, maySplit, bad, settings);
      if c.From? {
        assert Supplies(Blocks(), h, c.at, q, maySplit, bad, settings);
        SearchSucceeds(blocks0, lists0, n, Blocks(), lists.lists, k, c.at, q, maySplit, bad, settings);
        Take(h, c.at, q.bytes, n);
        r := c.at;
        Unfolded();
      } else if c.Hopeless? {
        again, next, k' := PassHopeless(h, prev, next, q, n, maySplit, bad, settings, k, blocks0, lists0);
      } else {
        SearchGoesOn(blocks0, lists0, n, Blocks(), lists.lists, k, q, maySplit, bad, settings);
      }
    }

    /** `GC_allochblk_nth`. */
    method AllocNth(q: Request, n: nat, maySplit: bool, bad: nat -> bool, settings: Settings) returns (r: nat)
      requires Valid() && q.Proper() && n < |lists.lists|
      modifies this`largeFree, this`dropped, this`count, index, lists
      ensures Valid() && KeepsUsed(old(Blocks()), Blocks())
      ensures r != 0 ==>
                r in Blocks() && Blocks()[r] == Used(q.bytes) && (r in old(Blocks()) ==> old(Blocks())[r].Free?)
      ensures r != 0 && dropped == old(dropped) ==> SameUsed(old(Blocks()), Blocks(), r)
      ensures r == 0 && dropped == old(dropped) ==>
                index.entries == old(index.entries) && lists.lists == old(lists.lists)
      ensures dropped >= old(dropped) && (NothingBad(bad) ==> dropped == old(dropped))
      ensures r == 0 && NothingBad(bad) ==> forall b :: b in lists.lists[n] ==> !Suits(Blocks(), b, q.Need(), maySplit)
      // what decides, with any pages black-listed
      ensures r != 0 ==> Chosen(old(Blocks()), old(lists.lists)[n], r, q, maySplit, bad, settings)
      ensures r == 0 ==> NoneMeets(old(Blocks()), old(lists.lists)[n], q, maySplit, bad, settings)
      ensures r == 0 ==> FreesKept(old(Blocks()), Blocks(), 0) && OthersAs(old(lists.lists), lists.lists, n)
      ensures dropped > old(dropped) ==> q.Need() == 1
      decreases |lists.lists[n]|
    {
      OnList(n);
      StartsOnList(n);
      ghost var blocks0, lists0 := Blocks(), lists.lists;
      var h := lists.First(n);
      ghost var k: nat := 0;
      SearchOpened(blocks0, lists0, n, Blocks(), lists.lists, 0, q, maySplit, bad, settings);
      while h != 0
        invariant Valid() && n < |lists.lists| == |old(lists.lists)| && k <= |lists.lists[n]|
        invariant |lists.lists[n]| <= |old(lists.lists)[n]|
        invariant h == if k < |lists.lists[n]| then lists.lists[n][k] else 0
        invariant KeepsUsed(old(Blocks()), Blocks()) && dropped >= old(dropped)
        invariant NothingBad(bad) ==> dropped == old(dropped)
        invariant dropped == old(dropped) ==> index.entries == old(index.entries) && lists.lists == old(lists.lists)
        invariant dropped > old(dropped) ==> q.Need() == 1
        invariant Searching(blocks0, lists0, n, Blocks(), lists.lists, k, q, maySplit, bad, settings)
        decreases |lists.lists[n]| - k
      {
        var again;
        r, again, h, k := Look(h, q, n, maySplit, bad, settings, k, blocks0, lists0);
        if r != 0 {
          return r;
        }
        if again {
          StartsOnList(n);
          ghost var blocks1, lists1 := Blocks(), lists.lists;
          r := AllocNth(q, n, maySplit, bad, settings);
          if r != 0 {
            SearchSucceeds(blocks0, lists0, n, blocks1, lists1, k, r, q, maySplit, bad, settings);
          } else {
            StartsOnList(n);
            SearchFailsAgain(blocks0, lists0, n, blocks1, lists1, k, Blocks(), lists.lists, q, maySplit, bad, settings);
          }
          return r;
        }
      }
      OnList(n);
      StartsOnList(n);
      SearchEnds(blocks0, lists0, n, Blocks(), lists.lists, k, q, maySplit, bad, settings);
      if NothingBad(bad) {
        NothingBadSuits(blocks0, lists0[n], q, maySplit, bad, settings);
      }
      return 0;
    }

    /** A completely black-listed block in the search of list n. */
    method PassHopeless(h: nat, prev: nat, next: nat, q: Request, n: nat, maySplit: bool, bad: nat -> bool,
                        settings: Settings, ghost k: nat, ghost blocks0: Blocks, ghost lists0: ListSeq)
      returns (again: bool, next': nat, ghost k': nat)
      requires Valid() && q.Proper() && n < |lists.lists| && k < |lists.lists[n]| && h == lists.lists[n][k]
      requires prev == PrevOf(lists.lists[n], k) && (prev == 0 <==> k == 0) && next == NextOf(lists.lists[n], k)
      requires h in Blocks() && !Obtainable(h, Pages(Blocks(), h), q, maySplit, bad, settings)
      requires Searching(blocks0, lists0, n, Blocks(), lists.lists, k, q, maySplit, bad, settings)
      modifies this`largeFree, this`dropped, this`count, index, lists
      ensures Valid() && KeepsUsed(old(Blocks()), Blocks()) && dropped >= old(dropped)
      ensures dropped == old(dropped) ==> index.entries == old(index.entries) && lists.lists == old(lists.lists)
      ensures |lists.lists| == |old(lists.lists)| && |lists.lists[n]| <= |old(lists.lists)[n]|
      ensures again ==> |lists.lists[n]| < |old(lists.lists)[n]| && dropped > old(dropped)
      ensures k' <= |lists.lists[n]| && |lists.lists[n]| - k' < |old(lists.lists)[n]| - k
      ensures !again ==> next' == if k' < |lists.lists[n]| then lists.lists[n][k'] else 0
      ensures Searching(blocks0, lists0, n, Blocks(), lists.lists, k', q, maySplit, bad, settings)
    {
      ghost var blocks, before := Blocks(), lists.lists;
      again, next', k' := GiveUp(h, prev, next, n, k);
      StartsOnList(n);
      if dropped == old(dropped) {
        SearchGoesOn(blocks0, lists0, n, blocks, before, k, q, maySplit, bad, settings);
      } else {
        SearchDropped(blocks0, lists0, n, blocks, before, k, Blocks(), lists.lists, q, maySplit, bad, settings);
      }
    }

    lemma StartsOnList(n: nat)
      requires Valid() && n < |lists.lists|
      ensures 0 !in Blocks()
      ensures forall b :: b in lists.lists[n] ==> b != 0 && b in Blocks() && Blocks()[b].Free?
      ensures forall b :: b in lists.lists[n] ==> Blocks()[b].Pages() == index.entries[b].h.Pages()
    {
      OnList(n);
      Unfolded();
    }

    /** `GC_enough_large_bytes_left`: the last list from which on enough bytes are free, or 0. */
    method EnoughLargeBytesLeft(allocd: nat, most: nat) returns (n: nat)
      requires |lists.bytes| == N_HBLK_FLS + 1
      ensures n <= N_HBLK_FLS && (n > 0 ==> allocd + FreeFrom(lists.bytes, n) >= most)
      ensures forall m :: n < m <= N_HBLK_FLS ==> allocd + FreeFrom(lists.bytes, m) < most
    {
      n := N_HBLK_FLS;
      var bytes := allocd + lists.bytes[n];
      while n > 0 && bytes < most
        invariant n <= N_HBLK_FLS && bytes == allocd + FreeFrom(lists.bytes, n)
        invariant forall m :: n < m <= N_HBLK_FLS ==> allocd + FreeFrom(lists.bytes, m) < most
      {
        n := n - 1;
        bytes := bytes + lists.bytes[n];
      }
    }

    lemma Sizes()
      requires Valid()
      ensures |lists.lists| == |lists.bytes| == N_HBLK_FLS + 1
    {
      Unfolded();
      Opened(Blocks(), lists.lists, lists.bytes, 0);
    }

    /** How far up the lists an allocation may split blocks. */
    method Limit(policy: Policy) returns (limit: nat)
      requires |lists.bytes| == N_HBLK_FLS + 1
      ensures limit <= N_HBLK_FLS && (policy.wholeHeap ==> limit == N_HBLK_FLS)
      ensures Limits(policy, lists.bytes, 1, limit)
    {
      limit := N_HBLK_FLS;
      if !policy.wholeHeap {
        if policy.muchFinalized {
          limit := 0;
        } else {
          limit := EnoughLargeBytesLeft(policy.allocd, policy.most);
          forall m: nat | 1 <= m <= limit ensures Permits(policy, lists.bytes, m) {
            FreeFromFalls(lists.bytes, m, limit);
          }
        }
      }
    }

    /** `GC_allochblk`: first an exact fit, and then, splitting, from the lists of larger blocks up to a limit. */
    method Alloc(q: Request, policy: Policy, bad: nat -> bool, settings: Settings) returns (r: nat)
      requires Valid() && q.Proper()
      modifies this`largeFree, this`dropped, this`count, index, lists
      ensures Valid() && KeepsUsed(old(Blocks()), Blocks())
      ensures r != 0 ==>
                r in Blocks() && Blocks()[r] == Used(q.bytes) && (r in old(Blocks()) ==> old(Blocks())[r].Free?)
      ensures r != 0 && dropped == old(dropped) ==> SameUsed(old(Blocks()), Blocks(), r)
      ensures r == 0 && dropped == old(dropped) ==> Blocks() == old(Blocks()) && lists.lists == old(lists.lists)
      ensures NothingBad(bad) ==> dropped == old(dropped)
      // it fails exactly if no free block may be taken, and prefers an exact fit
      ensures r == 0 ==> || HBLKSIZE * q.Need() >= SIGNB
                         || NoneEligible(old(Blocks()), old(lists.bytes), q, policy, bad, settings)
      ensures r != 0 ==> && HBLKSIZE * q.Need() < SIGNB
                         && Best(old(Blocks()), old(lists.bytes), r, q, policy, bad, settings)
      // black-listed pages are avoided
      ensures r != 0 ==> Avoids(old(Blocks()), r, q, bad, settings)
      // the allocator is complete
      ensures r == 0 && NothingBad(bad) && policy.wholeHeap && HBLKSIZE * q.Need() < SIGNB ==>
                forall b :: b in Blocks() && Blocks()[b].Free? ==> Pages(Blocks(), b) < q.Need()
    {
      ghost var e0, blocks0, lists0, bytes0 := index.entries, Blocks(), lists.lists, lists.bytes;
      var need := q.Need();
      if HBLKSIZE * need >= SIGNB {
        return 0;
      }
      Sizes();
      StartsOnList(0);
      Unfolded();
      var start := IndexFor(need);
      r := AllocNth(q, start, false, bad, settings);
      if r != 0 {
        ExactBest(e0, lists0, bytes0, r, q, policy, bad, settings);
        BestAvoids(blocks0, bytes0, r, q, policy, bad, settings);
        return r;
      }
      Sizes();
      StartsOnList(0);
      Unfolded();
      var limit := Limit(policy);
      Between(e0, lists0, bytes0, index.entries, lists.lists, lists.bytes, limit, q, policy, bad, settings);
      r := AllocRest(q, limit, bad, settings, blocks0, lists0);
      Decided(e0, lists0, bytes0, limit, r, q, policy, bad, settings);
    }

    /** The second search, after the first has changed the heap that the caller began with. */
    method AllocRest(q: Request, limit: nat, bad: nat -> bool, settings: Settings, ghost blocks0: Blocks,
                     ghost lists0: ListSeq)
      returns (r: nat)
      requires Valid() && q.Proper() && limit <= N_HBLK_FLS
      requires |lists.lists| == |lists0| && FreesKept(blocks0, Blocks(), 0)
      requires forall m :: Second(q.Need()) <= m < |lists0| ==> lists.lists[m] == lists0[m]
      requires NothingBad(bad) && limit == N_HBLK_FLS && IndexFor(q.Need()) < |lists.lists| ==>
                 forall b :: b in lists.lists[IndexFor(q.Need())] ==> !Suits(Blocks(), b, q.Need(), false)
      modifies this`largeFree, this`dropped, this`count, index, lists
      ensures Valid() && KeepsUsed(old(Blocks()), Blocks())
      ensures r != 0 ==>
                r in Blocks() && Blocks()[r] == Used(q.bytes) && (r in old(Blocks()) ==> old(Blocks())[r].Free?)
      ensures r != 0 && dropped == old(dropped) ==> SameUsed(old(Blocks()), Blocks(), r)
      ensures r == 0 && dropped == old(dropped) ==> Blocks() == old(Blocks()) && lists.lists == old(lists.lists)
      ensures dropped >= old(dropped) && (NothingBad(bad) ==> dropped == old(dropped))
      ensures r != 0 ==> OneFrom(blocks0, lists0, Second(q.Need()), limit + 1, r, q, bad, settings)
      ensures r == 0 ==> NoneFrom(blocks0, lists0, Second(q.Need()), limit + 1, q, bad, settings)
      ensures r == 0 && NothingBad(bad) && limit == N_HBLK_FLS ==>
                forall b :: b in Blocks() && Blocks()[b].Free? ==> Pages(Blocks(), b) < q.Need()
    {
      ghost var blocks1, lists1 := Blocks(), lists.lists;
      Sizes();
      forall m | Second(q.Need()) <= m < |lists0|
        ensures Narrowed(blocks0, lists0[m], blocks1, lists1[m], q, true, bad, settings) {
        StartsOnList(m);
        KeptNarrowed(blocks0, blocks1, lists1[m], q, true, bad, settings);
      }
      r := AllocFrom(q, Second(q.Need()), limit, bad, settings);
      FromEarlier(blocks0, lists0, blocks1, lists1, Second(q.Need()), limit + 1, r, q, bad, settings);
      if r == 0 && NothingBad(bad) && limit == N_HBLK_FLS {
        Sizes();
        Unfolded();
        Complete(index.entries, lists.lists, lists.bytes, q.Need());
      }
    }

    /** The loop of `GC_allochblk`. */
    method AllocFrom(q: Request, start: nat, limit: nat, bad: nat -> bool, settings: Settings) returns (r: nat)
      requires Valid() && q.Proper() && limit <= N_HBLK_FLS
      modifies this`largeFree, this`dropped, this`count, index, lists
      ensures Valid() && KeepsUsed(old(Blocks()), Blocks())
      ensures r != 0 ==>
                r in Blocks() && Blocks()[r] == Used(q.bytes) && (r in old(Blocks()) ==> old(Blocks())[r].Free?)
      ensures r != 0 && dropped == old(dropped) ==> SameUsed(old(Blocks()), Blocks(), r)
      ensures r == 0 && dropped == old(dropped) ==>
                index.entries == old(index.entries) && lists.lists == old(lists.lists)
      ensures dropped >= old(dropped) && (NothingBad(bad) ==> dropped == old(dropped))
      ensures r == 0 && NothingBad(bad) ==> NoneSuits(Blocks(), lists.lists, start, limit + 1, q.Need())
      ensures r != 0 ==> OneFrom(old(Blocks()), old(lists.lists), start, limit + 1, r, q, bad, settings)
      ensures r == 0 ==> NoneFrom(old(Blocks()), old(lists.lists), start, limit + 1, q, bad, settings)
    {
      ghost var blocks0, lists0 := Blocks(), lists.lists;
      r := 0;
      var n := start;
      while n <= limit
        invariant Valid() && start <= n && (start <= limit ==> n <= limit + 1)
        invariant KeepsUsed(old(Blocks()), Blocks()) && dropped >= old(dropped)
        invariant (NothingBad(bad) ==> dropped == old(dropped))
        invariant dropped == old(dropped) ==> index.entries == old(index.entries) && lists.lists == old(lists.lists)
        invariant NothingBad(bad) ==> NoneSuits(Blocks(), lists.lists, start, n, q.Need())
        invariant FreesKept(blocks0, Blocks(), 0) && |lists.lists| == |lists0|
        invariant forall m :: n <= m < |lists0| ==> lists.lists[m] == lists0[m]
        invariant NoneFrom(blocks0, lists0, start, n, q, bad, settings)
      {
        Sizes();
        StartsOnList(n);
        ghost var blocks := Blocks();
        KeptNarrowed(blocks0, blocks, lists0[n], q, true, bad, settings);
        r := AllocNth(q, n, true, bad, settings);
        if r != 0 {
          NarrowedChosen(blocks0, lists0[n], blocks, lists0[n], r, q, true, bad, settings);
          return r;
        }
        NarrowedNone(blocks0, lists0[n], blocks, lists0[n], q, true, bad, settings);
        StartsOnList(n);
        FreesKeptThen(blocks0, blocks, Blocks(), 0, 0);
        n := n + 1;
      }
    }

    /** `GC_freehblk`, as callers use it. */
    method Release(h: nat)
      requires Valid() && h in Blocks() && Blocks()[h].Used?
      modifies this`largeFree, index, lists
      ensures Valid() && SameUsed(old(Blocks()), Blocks(), h) && (h in Blocks() ==> Blocks()[h].Free?)
      ensures largeFree == old(largeFree) + HBLKSIZE * Pages(old(Blocks()), h)
    {
      Unfolded();
      UsedIsFreeable(index.entries, lists.lists, lists.bytes, h);
      FreeBlock(h, heapSize);
      Unfolded();
    }

    /** `GC_check_blocks`: the bytes of the blocks in use and the free bytes make up the heap, so no blocks are ever
        lost. */
    method CheckBlocks() returns (ok: bool)
      requires Valid()
      ensures ok
    {
      Unfolded();
      var visited := index.AllInUse();
      var used, i := 0, 0;
      while i < |visited|
        invariant 0 <= i <= |visited| && used == HBLKSIZE * ListPages(Blocks(), visited[..i])
      {
        OneMore(Blocks(), visited, i);
        assert Wanted(index.entries, visited[i], false);
        used := used + HBLKSIZE * index.entries[visited[i]].h.Pages();
        i := i + 1;
      }
      assert visited[..i] == visited;
      UsedTotal(Blocks(), visited);
      ok := used + largeFree == heapSize;
    }

    /** Coalescing a free block that is on no list with the free block next to it. */
    method MergeWithNext(h: nat, next: nat)
      requires index.Valid() && lists.Valid() && Loose(index.entries, lists.lists, lists.bytes, h)
      requires FreeNeighbours(Starts(index.entries), h, next) && CoalescedBut(Starts(index.entries), h)
      modifies index, lists
      ensures index.Valid() && lists.Valid() && Loose(index.entries, lists.lists, lists.bytes, h)
      ensures Starts(index.entries) == Merged(old(Starts(index.entries)), h, next)
    {
      var size := index.entries[next].h.Pages();
      lists.InOrder();
      NextMerged(index.entries, lists.lists, lists.bytes, h, next);
      lists.RemoveAt(next, IndexFor(size), HBLKSIZE * size);
      index.SetHeader(h, Free(index.entries[h].h.Pages() + size));
      index.RemoveHeader(next);
    }

    /** Coalescing it with the free block before it. */
    method MergeWithPrev(h: nat, prev: nat)
      requires index.Valid() && lists.Valid() && Loose(index.entries, lists.lists, lists.bytes, h)
      requires FreeNeighbours(Starts(index.entries), prev, h) && CoalescedBut(Starts(index.entries), h)
      modifies index, lists
      ensures index.Valid() && lists.Valid() && Loose(index.entries, lists.lists, lists.bytes, prev)
      ensures Starts(index.entries) == Merged(old(Starts(index.entries)), prev, h)
    {
      var size := index.entries[prev].h.Pages();
      lists.InOrder();
      PrevMerged(index.entries, lists.lists, lists.bytes, prev, h);
      lists.RemoveAt(prev, IndexFor(size), HBLKSIZE * size);
      index.SetHeader(prev, Free(size + index.entries[h].h.Pages()));
      index.RemoveHeader(h);
    }
  }

  lemma EmptyHeap(e: Entries, lists: ListSeq, bytes: seq<nat>)
    requires e == map[] && lists == seq(N_HBLK_FLS + 1, _ => []) && bytes == seq(N_HBLK_FLS + 1, _ => 0)
    ensures Sound(e, lists, bytes) && Accounts(Starts(e), 0, 0) && Tiles(Starts(e), [])
  {
    assert Starts(e) == map[];
    Opened(Starts(e), lists, bytes, 0);
  }
}
