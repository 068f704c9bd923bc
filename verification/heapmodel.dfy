/** The heap as a set of blocks of whole pages: splitting, merging and marking them. Addresses are page numbers. */
module HeapModel {

  const HBLKSIZE: nat := 4096

  /** What a block's header says: it is free, hb_sz being a whole number of pages, or it is in use for objects of some
      size. */
  datatype Header = Free(pages: nat) | Used(bytes: nat) {
    function Pages(): nat {
      match this
      case Free(n) => n
      case Used(bytes) => PagesFor(bytes)
    }
  }

  type Blocks = map<nat, Header>

  /** `OBJ_SZ_TO_BLOCKS`. */
  function PagesFor(bytes: nat): nat {
    (bytes + HBLKSIZE - 1) / HBLKSIZE
  }

  function Pages(blocks: Blocks, b: nat): nat
    requires b in blocks
  {
    blocks[b].Pages()
  }

  function End(blocks: Blocks, b: nat): nat
    requires b in blocks
  {
    b + Pages(blocks, b)
  }

  /** Blocks are not empty and do not overlap. */
  predicate Tiled(blocks: Blocks) {
    && (forall b :: b in blocks ==> Pages(blocks, b) > 0)
    && (forall a, b :: a in blocks && b in blocks && a < b ==> End(blocks, a) <= b)
  }

  predicate Within(blocks: Blocks, b: nat, p: nat) {
    b in blocks && b <= p < End(blocks, b)
  }

  /** Page p is part of some block. */
  ghost predicate Covers(blocks: Blocks, p: nat) {
    exists b :: Within(blocks, b, p)
  }

  /** Are a and b free and next to each other? */
  predicate FreeNeighbours(blocks: Blocks, a: nat, b: nat) {
    a in blocks && b in blocks && blocks[a].Free? && blocks[b].Free? && End(blocks, a) == b
  }

  /** No free block ends where another starts. */
  ghost predicate Coalesced(blocks: Blocks) {
    forall a, b :: !FreeNeighbours(blocks, a, b)
  }

  /** The same, but for neighbours of block h. */
  ghost predicate CoalescedBut(blocks: Blocks, h: nat) {
    forall a, b :: FreeNeighbours(blocks, a, b) ==> a == h || b == h
  }

  // ---- Totals ----

  function Share(h: Header, free: bool): nat {
    if h.Free? == free then h.Pages() else 0
  }

  /** The pages in all blocks that are free, or all that are not. */
  ghost function Total(blocks: Blocks, free: bool): nat
    decreases |blocks|
  {
    if blocks == map[] then 0
    else
      var b :| b in blocks;
      Share(blocks[b], free) + Total(blocks - {b}, free)
  }

  lemma {:induction false} TotalWithout(blocks: Blocks, b: nat, free: bool)
    requires b in blocks
    ensures Total(blocks, free) == Share(blocks[b], free) + Total(blocks - {b}, free)
    decreases |blocks|
  {
    var a :| a in blocks && Total(blocks, free) == Share(blocks[a], free) + Total(blocks - {a}, free);
    if a != b {
      TotalWithout(blocks - {a}, b, free);
      TotalWithout(blocks - {b}, a, free);
      assert blocks - {a} - {b} == blocks - {b} - {a};
    }
  }

  lemma TotalWith(blocks: Blocks, b: nat, h: Header, free: bool)
    requires b !in blocks
    ensures Total(blocks[b := h], free) == Share(h, free) + Total(blocks, free)
  {
    TotalWithout(blocks[b := h], b, free);
    assert blocks[b := h] - {b} == blocks;
  }

  lemma TotalUpdate(blocks: Blocks, b: nat, h: Header, free: bool)
    requires b in blocks
    ensures Total(blocks[b := h], free) == Total(blocks, free) - Share(blocks[b], free) + Share(h, free)
  {
    TotalWithout(blocks, b, free);
    TotalWithout(blocks[b := h], b, free);
    assert blocks[b := h] - {b} == blocks - {b};
  }

  /** A free block is among those counted. */
  lemma TotalAtLeast(blocks: Blocks, b: nat)
    requires b in blocks
    ensures Total(blocks, blocks[b].Free?) >= Pages(blocks, b)
  {
    TotalWithout(blocks, b, blocks[b].Free?);
  }

  // ---- Changing the blocks ----

  /** Block a, with the same pages, gets another header. */
  function Marked(blocks: Blocks, a: nat, h: Header): Blocks {
    blocks[a := h]
  }

  lemma MarkKeeps(blocks: Blocks, a: nat, h: Header)
    requires Tiled(blocks) && a in blocks && h.Pages() == Pages(blocks, a)
    ensures Tiled(Marked(blocks, a, h))
    ensures forall p: nat :: Covers(Marked(blocks, a, h), p) <==> Covers(blocks, p)
    ensures h.Used? && CoalescedBut(blocks, a) ==> Coalesced(Marked(blocks, a, h))
    ensures h.Free? && Coalesced(blocks) ==> CoalescedBut(Marked(blocks, a, h), a)
  {
    var after := Marked(blocks, a, h);
    forall p: nat ensures Covers(after, p) <==> Covers(blocks, p) {
      if b: nat :| Within(blocks, b, p) { assert Within(after, b, p); }
      if b: nat :| Within(after, b, p) { assert Within(blocks, b, p); }
    }
    forall b, c | FreeNeighbours(after, b, c) && b != a && c != a ensures FreeNeighbours(blocks, b, c) {
    }
  }

  /** Block a keeps its first n pages; the others become a block of their own. */
  function Split(blocks: Blocks, a: nat, n: nat): Blocks
    requires a in blocks && n < Pages(blocks, a)
  {
    blocks[a := Free(n)][a + n := Free(Pages(blocks, a) - n)]
  }

  lemma SplitTiles(blocks: Blocks, a: nat, n: nat)
    requires Tiled(blocks) && a in blocks && blocks[a].Free? && 0 < n < Pages(blocks, a)
    ensures a + n !in blocks && Tiled(Split(blocks, a, n))
    ensures Pages(Split(blocks, a, n), a) == n && Pages(Split(blocks, a, n), a + n) == Pages(blocks, a) - n
  {
    var k := Pages(blocks, a);
    var after := Split(blocks, a, n);
    forall b, c | b in after && c in after && b < c ensures End(after, b) <= c {
      if c == a + n && b != a { assert b < a; }
    }
  }

  lemma SplitKeeps(blocks: Blocks, a: nat, n: nat)
    requires Tiled(blocks) && a in blocks && blocks[a].Free? && 0 < n < Pages(blocks, a)
    ensures forall free :: Total(Split(blocks, a, n), free) == Total(blocks, free)
  {
    var h1, h2 := Free(n), Free(Pages(blocks, a) - n);
    SplitTiles(blocks, a, n);
    forall free ensures Total(Split(blocks, a, n), free) == Total(blocks, free) {
      TotalUpdate(blocks, a, h1, free);
      TotalWith(blocks[a := h1], a + n, h2, free);
    }
  }

  lemma SplitCovers(blocks: Blocks, a: nat, n: nat)
    requires Tiled(blocks) && a in blocks && blocks[a].Free? && 0 < n < Pages(blocks, a)
    ensures forall p: nat :: Covers(Split(blocks, a, n), p) <==> Covers(blocks, p)
  {
    var after := Split(blocks, a, n);
    SplitTiles(blocks, a, n);
    forall p: nat ensures Covers(after, p) <==> Covers(blocks, p) {
      if b: nat :| Within(blocks, b, p) {
        assert Within(after, if b == a && p >= a + n then a + n else b, p);
      }
      if b: nat :| Within(after, b, p) {
        assert Within(blocks, if b == a + n then a else b, p);
      }
    }
  }

  /** Blocks a and b, which starts where a ends, become one. */
  function Merged(blocks: Blocks, a: nat, b: nat): Blocks
    requires a in blocks && b in blocks
  {
    (blocks - {b})[a := Free(Pages(blocks, a) + Pages(blocks, b))]
  }

  lemma MergeTiles(blocks: Blocks, a: nat, b: nat)
    requires Tiled(blocks) && FreeNeighbours(blocks, a, b)
    ensures a < b && Tiled(Merged(blocks, a, b))
    ensures Pages(Merged(blocks, a, b), a) == Pages(blocks, a) + Pages(blocks, b)
    ensures End(Merged(blocks, a, b), a) == End(blocks, b)
  {
  }

  lemma MergeCovers(blocks: Blocks, a: nat, b: nat)
    requires Tiled(blocks) && FreeNeighbours(blocks, a, b)
    ensures forall p: nat :: Covers(Merged(blocks, a, b), p) <==> Covers(blocks, p)
  {
    var after := Merged(blocks, a, b);
    MergeTiles(blocks, a, b);
    forall p: nat ensures Covers(after, p) <==> Covers(blocks, p) {
      if c: nat :| Within(blocks, c, p) {
        assert Within(after, if c == b then a else c, p);
      }
      if c: nat :| Within(after, c, p) {
        assert Within(blocks, if c == a && p >= b then b else c, p);
      }
    }
  }

  lemma MergeKeeps(blocks: Blocks, a: nat, b: nat)
    requires Tiled(blocks) && FreeNeighbours(blocks, a, b)
    ensures forall free :: Total(Merged(blocks, a, b), free) == Total(blocks, free)
    ensures forall h :: (h == a || h == b) && CoalescedBut(blocks, h) ==> CoalescedBut(Merged(blocks, a, b), a)
  {
    MergeTiles(blocks, a, b);
    var after, h := Merged(blocks, a, b), Free(Pages(blocks, a) + Pages(blocks, b));
    forall free ensures Total(after, free) == Total(blocks, free) {
      TotalWithout(blocks, b, free);
      TotalUpdate(blocks - {b}, a, h, free);
    }
    forall c, d | FreeNeighbours(after, c, d) && c != a && d != a ensures FreeNeighbours(blocks, c, d) {
    }
  }

  lemma WholePages(n: nat)
    ensures PagesFor(n * HBLKSIZE) == n
  {
  }

  /** New pages, not yet free. */
  lemma AddKeeps(blocks: Blocks, a: nat, n: nat)
    requires Tiled(blocks) && n > 0 && forall p: nat :: a <= p < a + n ==> !Covers(blocks, p)
    ensures var after := blocks[a := Used(n * HBLKSIZE)];
            && a !in blocks && Tiled(after) && Pages(after, a) == n
            && (forall p: nat :: Covers(after, p) <==> Covers(blocks, p) || a <= p < a + n)
            && (Coalesced(blocks) ==> Coalesced(after))
            && Total(after, true) == Total(blocks, true) && Total(after, false) == Total(blocks, false) + n
  {
    var after := blocks[a := Used(n * HBLKSIZE)];
    WholePages(n);
    if a in blocks { assert Within(blocks, a, a); }
    forall b: nat | b in blocks ensures End(blocks, b) <= a || a + n <= b {
      if End(blocks, b) > a && b < a + n {
        var p: nat := if b < a then a else b;
        assert Within(blocks, b, p);
        assert Covers(blocks, p);
      }
    }
    forall p: nat ensures Covers(after, p) <==> Covers(blocks, p) || a <= p < a + n {
      if b: nat :| Within(blocks, b, p) { assert Within(after, b, p); }
      if a <= p < a + n { assert Within(after, a, p); }
      if b: nat :| Within(after, b, p) { assert b != a ==> Within(blocks, b, p); }
    }
    forall b, c | FreeNeighbours(after, b, c) ensures FreeNeighbours(blocks, b, c) {
    }
    TotalWith(blocks, a, Used(n * HBLKSIZE), true);
    TotalWith(blocks, a, Used(n * HBLKSIZE), false);
  }
}
