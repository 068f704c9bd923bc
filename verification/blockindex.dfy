/** The index of heap blocks: for every page of the heap, the header of the block it starts, or how far back to look. */
module BlockIndex {
  import opened HeapModel

  /** The greatest forwarding count. */
  const MAX_JUMP: nat := HBLKSIZE - 1

  /** Pages that share a bottom index. */
  const BOTTOM_SZ: nat := 1024

  /** What the index holds for a page, unless it holds nothing. */
  datatype Entry = Jump(n: nat) | Start(h: Header)

  type Entries = map<nat, Entry>

  function Starts(entries: Entries): Blocks {
    map p | p in entries && entries[p].Start? :: entries[p].h
  }

  /** The count for the page i pages into a block. */
  function Count(i: nat): nat {
    if i > MAX_JUMP then MAX_JUMP else i
  }

  /** Page p is inside the block in use that starts at b, but not its first. */
  predicate Inside(entries: Entries, b: nat, p: nat) {
    b in entries && entries[b].Start? && entries[b].h.Used? && b < p < b + entries[b].h.Pages()
  }

  /** The pages inside blocks in use, and no others, have counts. */
  ghost predicate Counted(entries: Entries) {
    && (forall p: nat :: p in entries && entries[p].Jump? ==> exists b: nat :: Inside(entries, b, p))
    && (forall b: nat, p: nat :: Inside(entries, b, p) ==> p in entries && entries[p] == Jump(Count(p - b)))
  }

  ghost predicate Indexed(entries: Entries) {
    Tiled(Starts(entries)) && Counted(entries)
  }

  /** The pages inside a block, but its first. */
  function Interior(h: nat, n: nat): set<nat> {
    set p: nat | h < p < h + n && InInterior(h, n, p)
  }

  predicate InInterior(h: nat, n: nat, p: nat) {
    h < p < h + n
  }

  function Counts(h: nat, n: nat): Entries {
    map p | p in Interior(h, n) :: Jump(Count(p - h))
  }

  /** No block starts from a up to, but not including, b. */
  predicate NoStart(entries: Entries, a: nat, b: nat) {
    forall p: nat :: a <= p < b ==> !(p in entries && entries[p].Start?)
  }

  /** Following a count leads back within the block, past no start. */
  lemma JumpsWithin(entries: Entries, b: nat, p: nat)
    requires Indexed(entries) && Inside(entries, b, p)
    ensures p in entries && entries[p].Jump? && 0 < entries[p].n <= p - b
    ensures p - entries[p].n == b || Inside(entries, b, p - entries[p].n)
  {
  }

  lemma NothingInside(entries: Entries, b: nat, p: nat)
    requires Indexed(entries) && Inside(entries, b, p)
    ensures NoStart(entries, b + 1, p + 1)
  {
    var blocks := Starts(entries);
    assert b in blocks && End(blocks, b) == b + entries[b].h.Pages();
    assert forall q: nat :: q in blocks && b < q ==> End(blocks, b) <= q;
    assert forall q: nat :: q in entries && entries[q].Start? ==> q in blocks;
  }

  /** An entry that is a count belongs to a block. */
  lemma JumpInside(entries: Entries, p: nat) returns (b: nat)
    requires Indexed(entries) && p in entries && entries[p].Jump?
    ensures Inside(entries, b, p)
  {
    b :| Inside(entries, b, p);
  }

  /** The key of the bottom index for a page. */
  function BottomOf(page: nat): nat {
    page / BOTTOM_SZ
  }

  lemma Consecutive(p: nat)
    ensures BottomOf(p + BOTTOM_SZ) == BottomOf(p) + 1
    ensures forall q: nat :: p <= q < p + BOTTOM_SZ ==> BottomOf(p) <= BottomOf(q) <= BottomOf(p) + 1
  {
  }

  lemma SameBottom(a: nat, b: nat)
    requires a <= b
    ensures forall q: nat :: q <= a && BottomOf(q) == BottomOf(b) ==> BottomOf(q) == BottomOf(a)
  {
  }

  predicate Keyed(keys: seq<nat>, entries: Entries) {
    Ascending(keys) && forall p: nat :: p in entries ==> BottomOf(p) in keys
  }

  predicate Ascending(keys: seq<nat>) {
    forall i, j :: 0 <= i < j < |keys| ==> keys[i] < keys[j]
  }

  class Index {
    var keys: seq<nat>       // of the bottom indices, in the order of their links
    var entries: Entries     // of all of them

    /** The keys are in order, and there is one for every entry. Stated so that only `Opened` unfolds it. */
    ghost predicate Valid()
      reads this
    {
      forall k :: k in [keys] ==> Keyed(k, entries)
    }

    lemma Opened()
      ensures Valid() <==> Keyed(keys, entries)
    {
      assert keys in [keys];
    }

    constructor ()
      ensures Valid() && entries == map[]
    {
      keys, entries := [], map[];
      new;
      Opened();
    }

    /** `get_index`: the bottom indices stay linked in ascending order. */
    method GetIndex(page: nat)
      requires Valid()
      modifies this`keys
      ensures Valid() && BottomOf(page) in keys
      ensures forall k :: k in keys <==> k in old(keys) || k == BottomOf(page)
    {
      Opened();
      var hi := BottomOf(page);
      if hi in keys {
        return;
      }
      var i := 0;
      while i < |keys| && keys[i] < hi
        invariant 0 <= i <= |keys|
        invariant forall j :: 0 <= j < i ==> keys[j] < hi
      {
        i := i + 1;
      }
      ghost var before := keys;
      keys := keys[..i] + [hi] + keys[i..];
      forall k ensures k in keys <==> k in before || k == hi {
        if k in before {
          var j :| 0 <= j < |before| && before[j] == k;
          assert keys[if j < i then j else j + 1] == k;
        }
        assert keys[i] == hi;
      }
      Opened();
    }

    /** `GC_install_header`, and the fields of the header. */
    method InstallHeader(page: nat, h: Header)
      requires Valid()
      modifies this
      ensures Valid() && entries == old(entries)[page := Start(h)]
    {
      GetIndex(page);
      Opened();
      entries := entries[page := Start(h)];
      Opened();
    }

    /** New fields for a header that is there. */
    method SetHeader(page: nat, h: Header)
      requires Valid() && page in entries
      modifies this`entries
      ensures Valid() && entries == old(entries)[page := Start(h)]
    {
      Opened();
      entries := entries[page := Start(h)];
      Opened();
    }

    /** `GC_remove_header`. */
    method RemoveHeader(page: nat)
      requires Valid()
      modifies this`entries
      ensures Valid() && entries == old(entries) - {page}
    {
      Opened();
      entries := entries - {page};
      Opened();
    }

    /** The bottom indices that counts for the block of n pages at page are to go into. */
    method GetIndices(page: nat, n: nat)
      requires Valid() && n > 0
      modifies this`keys
      ensures Valid() && forall q: nat :: page <= q < page + n ==> BottomOf(q) in keys
    {
      var p := page;
      while p < page + n
        invariant Valid() && page <= p
        invariant forall q: nat :: page <= q < p ==> BottomOf(q) in keys || BottomOf(q) == BottomOf(p)
      {
        GetIndex(p);
        Consecutive(p);
        p := p + BOTTOM_SZ;
      }
      var last := page + n - 1;
      GetIndex(last);
      SameBottom(last, p);
    }

    /** `GC_install_counts`. */
    method InstallCounts(page: nat, n: nat)
      requires Valid() && n > 0
      modifies this
      ensures Valid() && entries == old(entries) + Counts(page, n)
    {
      GetIndices(page, n);
      SetCounts(page, n);
    }

    method SetCounts(page: nat, n: nat)
      requires Valid() && n > 0 && forall q: nat :: page <= q < page + n ==> BottomOf(q) in keys
      modifies this`entries
      ensures Valid() && entries == old(entries) + Counts(page, n)
    {
      Opened();
      var p := page + 1;
      while p < page + n
        invariant page + 1 <= p <= page + n
        invariant IsCounted(old(entries), entries, page, p - page)
      {
        entries := entries[p := Jump(Count(p - page))];
        p := p + 1;
      }
      CountedIs(old(entries), entries, page, n);
      Opened();
    }

    /** `GC_remove_counts`: the counts of the block are all there, or none is. */
    method RemoveCounts(page: nat, n: nat)
      requires Valid()
      requires (forall p: nat :: page < p < page + n ==> p in entries) ||
                 (forall p: nat :: page < p < page + n ==> p !in entries)
      modifies this`entries
      ensures Valid() && entries == old(entries) - Interior(page, n)
    {
      Opened();
      if n <= 1 || page + 1 !in entries {
        assert n > 1 ==> InInterior(page, n, page + 1);
        assert entries == entries - Interior(page, n);
        return;
      }
      var p := page + 1;
      while p < page + n
        invariant page + 1 <= p <= page + n
        invariant IsUncounted(old(entries), entries, page, p - page)
      {
        entries := entries - {p};
        p := p + 1;
      }
      UncountedIs(old(entries), entries, page, n);
      Opened();
    }

    /** Follows the counts from a page inside a block to its first page. */
    method StartFrom(page: nat) returns (b: nat)
      requires Valid() && Indexed(entries) && page in entries
      ensures b in entries && entries[b].Start? && b <= page && NoStart(entries, b + 1, page + 1)
      ensures entries[page].Jump? ==> Inside(entries, b, page)
    {
      b := page;
      if entries[b].Jump? {
        ghost var first := JumpInside(entries, page);
        while entries[b].Jump?
          invariant b in entries && (b == first || Inside(entries, first, b))
          decreases b
        {
          JumpsWithin(entries, first, b);
          b := b - entries[b].n;
        }
        NothingInside(entries, first, page);
      }
    }

    /** Where the walks over the bottom indices start: the position of the greatest key that is at most hi, plus one. */
    method FindKey(hi: nat) returns (i: nat)
      requires Valid()
      ensures i <= |keys| && (forall j :: 0 <= j < i ==> keys[j] <= hi) && forall j :: i <= j < |keys| ==> keys[j] > hi
    {
      Opened();
      i := |keys|;
      while i > 0 && keys[i - 1] > hi
        invariant i <= |keys| && forall j :: i <= j < |keys| ==> keys[j] > hi
      {
        i := i - 1;
      }
    }

    /** The inner loop of `GC_prev_block`, over the pages of one bottom index. */
    method PrevWithin(base: nat, from: int, h: nat) returns (r: nat)
      requires Valid() && Indexed(entries) && 0 !in entries
      requires 0 <= base + from + 1 <= h + 1 && NoStart(entries, base + from + 1, h + 1)
      ensures r != 0 ==> r in entries && entries[r].Start? && r <= h && NoStart(entries, r + 1, h + 1)
      ensures r == 0 ==> NoStart(entries, base, h + 1)
    {
      var j := from;
      while j >= 0
        invariant j <= from && 0 <= base + j + 1 <= h + 1
        invariant NoStart(entries, base + j + 1, h + 1)
      {
        var p := base + j;
        if p !in entries {
          j := j - 1;
        } else if entries[p].Jump? {
          ghost var b := JumpInside(entries, p);
          NothingInside(entries, b, p);
          JumpsWithin(entries, b, p);
          j := j - entries[p].n;
        } else {
          return p;
        }
      }
      return 0;
    }

    /** `GC_prev_block`: the last block that starts at h or before, or 0. */
    method PrevBlock(h: nat) returns (r: nat)
      requires Valid() && Indexed(entries) && 0 !in entries
      ensures r != 0 ==> r in entries && entries[r].Start? && r <= h && NoStart(entries, r + 1, h + 1)
      ensures r == 0 ==> NoStart(entries, 0, h + 1)
    {
      Opened();
      var i := FindKey(BottomOf(h));
      BottomBounds(h);
      var j: int := if i > 0 && keys[i - 1] == BottomOf(h) then h % BOTTOM_SZ else BOTTOM_SZ - 1;
      KeyGap(entries, keys, i, h + 1);
      while i > 0
        invariant 0 <= i <= |keys| && j < BOTTOM_SZ
        invariant i > 0 ==>
                    0 <= keys[i - 1] * BOTTOM_SZ + j <= h && NoStart(entries, keys[i - 1] * BOTTOM_SZ + j + 1, h + 1)
        invariant i == 0 ==> NoStart(entries, 0, h + 1)
      {
        var base := keys[i - 1] * BOTTOM_SZ;
        r := PrevWithin(base, j, h);
        if r != 0 {
          return r;
        }
        i := i - 1;
        j := BOTTOM_SZ - 1;
        KeyGap(entries, keys, i, base);
      }
      return 0;
    }

    /** The inner loop of `GC_next_block`, over the pages of one bottom index. */
    method NextWithin(base: nat, from: nat, allowFree: bool) returns (r: nat, stop: nat)
      requires Valid() && Indexed(entries) && 0 !in entries
      ensures r != 0 ==> from <= r && Wanted(entries, r, allowFree) && NoneWanted(entries, from, r, allowFree)
      ensures r == 0 ==> stop >= base + BOTTOM_SZ && stop >= from && NoneWanted(entries, from, stop, allowFree)
    {
      var p := from;
      while p < base + BOTTOM_SZ
        invariant from <= p && NoneWanted(entries, from, p, allowFree)
      {
        if p !in entries || entries[p].Jump? {
          p := p + 1;
        } else if allowFree || entries[p].h.Used? {
          return p, p;
        } else {
          FreeSkipped(entries, p);
          p := p + entries[p].h.Pages();
        }
      }
      return 0, p;
    }

    /** The position of the least key that is at least hi. */
    method FirstKey(hi: nat) returns (i: nat)
      requires Valid()
      ensures i <= |keys| && (forall j :: 0 <= j < i ==> keys[j] < hi) && forall j :: i <= j < |keys| ==> keys[j] >= hi
    {
      Opened();
      i := 0;
      while i < |keys| && keys[i] < hi
        invariant i <= |keys| && forall j :: 0 <= j < i ==> keys[j] < hi
      {
        i := i + 1;
      }
    }

    /** `GC_next_block`: the first block, in use unless free ones are allowed too, that starts at h or after, or 0. */
    method NextBlock(h: nat, allowFree: bool) returns (r: nat)
      requires Valid() && Indexed(entries) && 0 !in entries
      ensures r != 0 ==> h <= r && Wanted(entries, r, allowFree) && NoneWanted(entries, h, r, allowFree)
      ensures r == 0 ==> forall p: nat :: h <= p ==> !Wanted(entries, p, allowFree)
    {
      Opened();
      var i := FirstKey(BottomOf(h));
      var j := if i < |keys| && keys[i] == BottomOf(h) then h % BOTTOM_SZ else 0;
      FirstGap(entries, keys, i, h);
      while i < |keys|
        invariant 0 <= i <= |keys|
        invariant i < |keys| ==>
                    h <= keys[i] * BOTTOM_SZ + j && NoneWanted(entries, h, keys[i] * BOTTOM_SZ + j, allowFree)
        invariant i == |keys| ==> forall p: nat :: h <= p ==> !Wanted(entries, p, allowFree)
      {
        var base := keys[i] * BOTTOM_SZ;
        var stop;
        r, stop := NextWithin(base, base + j, allowFree);
        if r != 0 {
          return r;
        }
        KeysFrom(entries, keys, i + 1, base + BOTTOM_SZ);
        i := i + 1;
        j := 0;
      }
      return 0;
    }

    /** The inner loop of `GC_apply_to_all_blocks`, over the pages of one bottom index. */
    method VisitWithin(i: nat, before: seq<nat>) returns (visited: seq<nat>, ghost q: int)
      requires Valid() && Indexed(entries) && i < |keys|
      requires Visits(entries, keys, i, keys[i] * BOTTOM_SZ + BOTTOM_SZ - 1, before)
      ensures q < keys[i] * BOTTOM_SZ && Visits(entries, keys, i, q, visited)
    {
      Opened();
      visited := before;
      var base := keys[i] * BOTTOM_SZ;
      var j: int := BOTTOM_SZ - 1;
      while j >= 0
        invariant j < BOTTOM_SZ && 0 <= base + j + 1
        invariant Visits(entries, keys, i, base + j, visited)
      {
        var p := base + j;
        if p !in entries {
          VisitSkip(entries, keys, i, p, p - 1, visited);
          j := j - 1;
        } else if entries[p].Start? {
          VisitStart(entries, keys, i, p, visited);
          if entries[p].h.Used? {
            visited := visited + [p];
          }
          j := j - 1;
        } else {
          ghost var b := JumpInside(entries, p);
          NothingInside(entries, b, p);
          JumpsWithin(entries, b, p);
          VisitSkip(entries, keys, i, p, p - entries[p].n, visited);
          j := j - entries[p].n;
        }
      }
      q := base + j;
    }

    /** `GC_apply_to_all_blocks`: the blocks in use, in the order in which they are visited. */
    method AllInUse() returns (visited: seq<nat>)
      requires Valid() && Indexed(entries)
      ensures forall b: nat :: b in visited <==> Wanted(entries, b, false)
      ensures NoRepeats(visited)
    {
      Opened();
      visited := [];
      var i := 0;
      while i < |keys|
        invariant 0 <= i <= |keys|
        invariant forall b: nat :: b in visited <==> Wanted(entries, b, false) && BottomOf(b) in keys[..i]
        invariant NoRepeats(visited)
      {
        PassedNone(keys, i);
        ghost var q;
        visited, q := VisitWithin(i, visited);
        PassedAll(entries, keys, i, q);
        i := i + 1;
      }
      assert keys[..i] == keys;
    }

    /** `GC_base`: the address of the object that holds address a, or 0. */
    method Base(a: nat) returns (r: nat)
      requires Valid() && Indexed(entries) && 0 !in entries && WordSized(entries)
      ensures r != 0 ==> exists b :: IsObject(entries, b, r) && Holds(entries, b, r, a)
      ensures r == 0 ==> forall b: nat, o: nat :: IsObject(entries, b, o) ==> !Holds(entries, b, o, a)
    {
      var h, x := a / HBLKSIZE, a;
      PageOf(entries, a);
      if h !in entries {
        return 0;
      }
      if entries[h].Jump? {
        h := StartFrom(h);
        x := h * HBLKSIZE;
      }
      OnlyBlock(entries, h, a);
      if entries[h].h.Free? {
        return 0;
      }
      r := ObjectOf(h, a, x);
    }

    /** The end of `GC_base`, its block found: the object of that block that holds address a, or 0. */
    method ObjectOf(h: nat, a: nat, x: nat) returns (r: nat)
      requires 0 !in entries && WordSized(entries) && h in entries && entries[h].Start? && entries[h].h.Used?
      requires (a / HBLKSIZE == h && x == a) || (Inside(entries, h, a / HBLKSIZE) && x == h * HBLKSIZE)
      ensures r != 0 ==> IsObject(entries, h, r) && Holds(entries, h, r, a)
      ensures r == 0 ==> forall o: nat :: IsObject(entries, h, o) ==> !Holds(entries, h, o, a)
    {
      var sz := entries[h].h.bytes;
      r := RoundDown(h, x, sz);
      if x == a {
        ObjectAt(entries, h, a, r);
      } else {
        ObjectInside(entries, h, a);
      }
      var limit := r + sz;
      if limit > (h + 1) * HBLKSIZE && sz <= HBLKSIZE {
        return 0;
      }
      if a >= limit {
        return 0;
      }
    }

    /** The address to which x rounds down. */
    method RoundDown(h: nat, x: nat, sz: nat) returns (r: nat)
      requires sz > 0 && x / HBLKSIZE == h
      ensures h * HBLKSIZE <= r && r == Address(h, ObjectIndex(h, x, sz), sz) <= x
    {
      RoundedDown(h, sz, x);
      var y := x - x % WORD;
      r := y - (y % HBLKSIZE) % sz;
    }

    /** `get_block_ending_at`: the block that ends just before h, or 0. */
    method BlockEndingAt(h: nat) returns (r: nat)
      requires Valid() && Indexed(entries) && 0 !in entries && h > 0
      requires forall b: nat :: Within(Starts(entries), b, h - 1) ==> End(Starts(entries), b) == h
      ensures r != 0 ==> r in Starts(entries) && End(Starts(entries), r) == h
      ensures r == 0 ==> forall b :: b in Starts(entries) ==> End(Starts(entries), b) != h
    {
      ghost var blocks := Starts(entries);
      var p := h - 1;
      if p in entries {
        r := StartFrom(p);
        assert Within(blocks, r, p);
        return r;
      }
      p := PrevBlock(h - 1);
      if p != 0 && p + entries[p].h.Pages() == h {
        return p;
      }
      LastStart(entries, p, h);
      return 0;
    }

    /** `GC_free_block_ending_at`. */
    method FreeBlockEndingAt(h: nat) returns (r: nat)
      requires Valid() && Indexed(entries) && 0 !in entries && h > 0
      requires forall b: nat :: Within(Starts(entries), b, h - 1) ==> End(Starts(entries), b) == h
      ensures r != 0 ==> r in Starts(entries) && Starts(entries)[r].Free? && End(Starts(entries), r) == h
      ensures r == 0 ==> forall b :: b in Starts(entries) && Starts(entries)[b].Free? ==> End(Starts(entries), b) != h
    {
      r := BlockEndingAt(h);
      if r != 0 {
        OneEnd(Starts(entries), r);
        if entries[r].h.Used? {
          r := 0;
        }
      }
    }
  }

  /** Page p starts a block, in use unless free ones will do. */
  predicate Wanted(entries: Entries, p: nat, allowFree: bool) {
    p in entries && entries[p].Start? && (allowFree || entries[p].h.Used?)
  }

  predicate NoneWanted(entries: Entries, a: nat, b: nat, allowFree: bool) {
    forall p: nat :: a <= p < b ==> !Wanted(entries, p, allowFree)
  }

  /** Blocks on pages of the first i bottom indices, or in the ith after page q. */
  predicate Passed(keys: seq<nat>, i: nat, b: nat, q: int)
    requires i < |keys|
  {
    BottomOf(b) in keys[..i] || (BottomOf(b) == keys[i] && b > q)
  }

  /** When all pages of the ith bottom index are passed, the first i + 1 are. */
  lemma PassedAll(entries: Entries, keys: seq<nat>, i: nat, q: int)
    requires i < |keys| && q < keys[i] * BOTTOM_SZ
    ensures forall b: nat :: Passed(keys, i, b, q) <==> BottomOf(b) in keys[..i + 1]
  {
    assert keys[..i + 1] == keys[..i] + [keys[i]];
    forall b: nat | BottomOf(b) == keys[i] ensures b > q {
      BottomBounds(b);
    }
  }

  /** Before any page of the ith bottom index is passed, the first i are. */
  lemma PassedNone(keys: seq<nat>, i: nat)
    requires i < |keys|
    ensures forall b: nat :: Passed(keys, i, b, keys[i] * BOTTOM_SZ + BOTTOM_SZ - 1) <==> BottomOf(b) in keys[..i]
  {
    forall b: nat | BottomOf(b) == keys[i] ensures b <= keys[i] * BOTTOM_SZ + BOTTOM_SZ - 1 {
      BottomBounds(b);
    }
  }

  predicate NoRepeats(visited: seq<nat>) {
    forall i, j :: 0 <= i < j < |visited| ==> visited[i] != visited[j]
  }

  /** The blocks in use visited by the time page q is reached. */
  ghost predicate Visits(entries: Entries, keys: seq<nat>, i: nat, q: int, visited: seq<nat>)
    requires i < |keys|
  {
    NoRepeats(visited) && forall b: nat :: b in visited <==> Wanted(entries, b, false) && Passed(keys, i, b, q)
  }

  /** Passing pages where no block starts. */
  lemma VisitSkip(entries: Entries, keys: seq<nat>, i: nat, q: int, q': int, visited: seq<nat>)
    requires i < |keys| && q' < q && 0 <= q' + 1 && NoStart(entries, q' + 1, q + 1)
    requires Visits(entries, keys, i, q, visited)
    ensures Visits(entries, keys, i, q', visited)
  {
  }

  lemma VisitStart(entries: Entries, keys: seq<nat>, i: nat, p: nat, visited: seq<nat>)
    requires i < |keys| && Ascending(keys) && keys[i] * BOTTOM_SZ <= p < (keys[i] + 1) * BOTTOM_SZ
    requires Visits(entries, keys, i, p, visited) && p in entries && entries[p].Start?
    ensures Visits(entries, keys, i, p - 1, if entries[p].h.Used? then visited + [p] else visited)
  {
    PassedOne(keys, i, p);
  }

  lemma PassedOne(keys: seq<nat>, i: nat, p: nat)
    requires i < |keys| && Ascending(keys) && keys[i] * BOTTOM_SZ <= p < (keys[i] + 1) * BOTTOM_SZ
    ensures !Passed(keys, i, p, p) && forall b: nat :: Passed(keys, i, b, p - 1) <==> Passed(keys, i, b, p) || b == p
  {
    assert BottomOf(p) == keys[i];
  }

  /** No block starts inside a free one. */
  lemma FreeSkipped(entries: Entries, p: nat)
    requires Indexed(entries) && p in entries && entries[p].Start?
    ensures entries[p].h.Pages() > 0 && NoStart(entries, p + 1, p + entries[p].h.Pages())
  {
    var blocks := Starts(entries);
    assert Pages(blocks, p) > 0;
    assert forall q: nat :: q in blocks && p < q ==> End(blocks, p) <= q;
    assert forall q: nat :: q in entries && entries[q].Start? ==> q in blocks;
  }

  /** No block starts between page lo and the pages of the ith bottom index, if the first i are for earlier pages. */
  lemma KeysFrom(entries: Entries, keys: seq<nat>, i: nat, lo: nat)
    requires Ascending(keys) && i <= |keys| && forall p: nat :: p in entries ==> BottomOf(p) in keys
    requires forall j :: 0 <= j < i ==> (keys[j] + 1) * BOTTOM_SZ <= lo
    ensures i < |keys| ==> NoStart(entries, lo, keys[i] * BOTTOM_SZ)
    ensures i == |keys| ==> forall p: nat :: p >= lo ==> p !in entries
  {
    forall p: nat | p in entries && p >= lo ensures i < |keys| && p >= keys[i] * BOTTOM_SZ {
      BottomBounds(p);
      var j :| 0 <= j < |keys| && keys[j] == BottomOf(p);
      assert i <= j && keys[i] <= keys[j];
    }
  }

  const WORD: nat := 8

  /** Objects are whole numbers of words. */
  predicate WordSized(entries: Entries) {
    forall b :: b in entries && entries[b].Start? && entries[b].h.Used? ==>
                  entries[b].h.bytes > 0 && entries[b].h.bytes % WORD == 0
  }

  /** Address o is that of an object in the block in use that starts at page b: small ones fill its page from the
      start, as many as fit; a large one has the block to itself. */
  ghost predicate IsObject(entries: Entries, b: nat, o: nat) {
    && b in entries && entries[b].Start? && entries[b].h.Used? && entries[b].h.bytes > 0
    && var sz := entries[b].h.bytes;
    exists k: nat :: o == Address(b, k, sz) && if sz > HBLKSIZE then k == 0 else o + sz <= (b + 1) * HBLKSIZE
  }

  function Address(b: nat, k: nat, sz: nat): nat {
    b * HBLKSIZE + k * sz
  }

  ghost predicate Holds(entries: Entries, b: nat, o: nat, a: nat)
    requires IsObject(entries, b, o)
  {
    o <= a < o + entries[b].h.bytes
  }

  /** An object lies in the pages of its block, which the index knows. */
  lemma PageOf(entries: Entries, a: nat)
    requires Indexed(entries)
    ensures forall b: nat, o: nat :: IsObject(entries, b, o) && Holds(entries, b, o, a) ==>
              a / HBLKSIZE in entries && (a / HBLKSIZE == b || Inside(entries, b, a / HBLKSIZE))
  {
    forall b: nat, o: nat | IsObject(entries, b, o) && Holds(entries, b, o, a)
      ensures a / HBLKSIZE in entries && (a / HBLKSIZE == b || Inside(entries, b, a / HBLKSIZE))
    {
      var sz := entries[b].h.bytes;
      var k: nat :| o == Address(b, k, sz) && if sz > HBLKSIZE then k == 0 else o + sz <= (b + 1) * HBLKSIZE;
      PageWithin(b, o, a, sz);
      var p := a / HBLKSIZE;
      assert p == b || Inside(entries, b, p);
    }
  }

  lemma PageWithin(b: nat, o: nat, a: nat, sz: nat)
    requires sz > 0 && o <= a < o + sz
    requires if sz > HBLKSIZE then o == b * HBLKSIZE else b * HBLKSIZE <= o && o + sz <= (b + 1) * HBLKSIZE
    ensures b <= a / HBLKSIZE < b + PagesFor(sz)
  {
    var n := PagesFor(sz);
    assert n * HBLKSIZE >= sz;
    assert b * HBLKSIZE <= a < b * HBLKSIZE + n * HBLKSIZE;
  }

  /** Only the block whose page a is on can hold it. */
  lemma OnlyBlock(entries: Entries, h: nat, a: nat)
    requires Indexed(entries) && h in entries && entries[h].Start?
    requires a / HBLKSIZE == h || Inside(entries, h, a / HBLKSIZE)
    ensures forall b: nat, o: nat :: IsObject(entries, b, o) && Holds(entries, b, o, a) ==> b == h
  {
    PageOf(entries, a);
    var blocks := Starts(entries);
    forall b: nat, o: nat | IsObject(entries, b, o) && Holds(entries, b, o, a) ensures b == h {
      assert b in blocks && h in blocks;
      assert Pages(blocks, h) > 0 && Pages(blocks, b) > 0;
    }
  }

  lemma Product(a: nat, b: nat)
    requires a >= 1
    ensures a * b >= b
  {
  }

  lemma Quotient(d: nat, sz: nat, k: nat)
    requires k * sz <= d < k * sz + sz
    ensures d / sz == k
  {
    var q := d / sz;
    assert d == q * sz + d % sz;
    assert (q - k) * sz == q * sz - k * sz && (k - q) * sz == k * sz - q * sz;
    if q > k {
      Product(q - k, sz);
    } else if q < k {
      Product(k - q, sz);
    }
  }

  lemma {:induction false} WordsIn(k: nat, sz: nat)
    requires sz % WORD == 0
    ensures (k * sz) % WORD == 0
  {
    if k > 0 {
      WordsIn(k - 1, sz);
      assert k * sz == (k - 1) * sz + sz;
    }
  }

  /** An object's address is not above a's when that is rounded down to a word. */
  lemma AlignedBelow(o: nat, a: nat)
    requires o % WORD == 0 && o <= a
    ensures o <= a - a % WORD
  {
  }

  /** Which object of a block's first page address a is in. */
  function ObjectIndex(h: nat, a: nat, sz: nat): nat
    requires sz > 0 && a / HBLKSIZE == h
  {
    AlignedBelow(h * HBLKSIZE, a);
    (a - a % WORD - h * HBLKSIZE) / sz
  }

  /** Rounding an address on page h down to a word and then to an object. */
  lemma RoundedDown(h: nat, sz: nat, a: nat)
    requires sz > 0 && a / HBLKSIZE == h
    ensures var y := a - a % WORD;
            && h * HBLKSIZE <= y && y % HBLKSIZE == y - h * HBLKSIZE < HBLKSIZE
            && y - (y % HBLKSIZE) % sz == Address(h, ObjectIndex(h, a, sz), sz) <= a
  {
    AlignedBelow(h * HBLKSIZE, a);
    var d := a - a % WORD - h * HBLKSIZE;
    OnPage(h, d);
    Divided(d, sz);
  }

  lemma OnPage(h: nat, d: nat)
    requires d < HBLKSIZE
    ensures (h * HBLKSIZE + d) % HBLKSIZE == d
  {
  }

  lemma Divided(d: nat, sz: nat)
    requires sz > 0
    ensures d == (d / sz) * sz + d % sz
  {
  }

  lemma AlignedObject(h: nat, k: nat, sz: nat)
    requires sz % WORD == 0
    ensures Address(h, k, sz) % WORD == 0
  {
    WordsIn(k, sz);
    assert (h * HBLKSIZE) % WORD == 0;
  }

  /** It finds the kth object, if that holds a. */
  lemma FoundObject(h: nat, sz: nat, a: nat, k: nat)
    requires sz > 0 && sz % WORD == 0 && a / HBLKSIZE == h && Address(h, k, sz) <= a < Address(h, k, sz) + sz
    ensures ObjectIndex(h, a, sz) == k
  {
    AlignedBelow(h * HBLKSIZE, a);
    AlignedObject(h, k, sz);
    AlignedBelow(Address(h, k, sz), a);
    Quotient(a - a % WORD - h * HBLKSIZE, sz, k);
  }

  /** A block larger than a page has one object. */
  lemma LargeIndex(h: nat, a: nat, sz: nat)
    requires sz > HBLKSIZE && a / HBLKSIZE == h
    ensures ObjectIndex(h, a, sz) == 0
  {
    RoundedDown(h, sz, a);
  }

  /** What `ObjectOf` finds on a block's first page. */
  lemma ObjectAt(entries: Entries, h: nat, a: nat, r: nat)
    requires WordSized(entries) && h in entries && entries[h].Start? && entries[h].h.Used? && a / HBLKSIZE == h
    requires r == Address(h, ObjectIndex(h, a, entries[h].h.bytes), entries[h].h.bytes)
    ensures r + entries[h].h.bytes <= (h + 1) * HBLKSIZE || entries[h].h.bytes > HBLKSIZE ==> IsObject(entries, h, r)
    ensures forall o: nat :: IsObject(entries, h, o) && Holds(entries, h, o, a) ==>
              o == r && (r + entries[h].h.bytes <= (h + 1) * HBLKSIZE || entries[h].h.bytes > HBLKSIZE)
  {
    var sz := entries[h].h.bytes;
    if sz > HBLKSIZE {
      LargeIndex(h, a, sz);
    }
    forall o: nat | IsObject(entries, h, o) && Holds(entries, h, o, a)
      ensures o == r && (r + sz <= (h + 1) * HBLKSIZE || sz > HBLKSIZE)
    {
      var k: nat :| o == Address(h, k, sz) && if sz > HBLKSIZE then k == 0 else o + sz <= (h + 1) * HBLKSIZE;
      FoundObject(h, sz, a, k);
    }
  }

  /** What it finds further inside: the only object. */
  lemma ObjectInside(entries: Entries, h: nat, a: nat)
    requires Inside(entries, h, a / HBLKSIZE)
    ensures (h * HBLKSIZE) / HBLKSIZE == h && h * HBLKSIZE <= a && entries[h].h.bytes > HBLKSIZE
    ensures IsObject(entries, h, h * HBLKSIZE) && forall o: nat :: IsObject(entries, h, o) ==> o == h * HBLKSIZE
    ensures Address(h, ObjectIndex(h, h * HBLKSIZE, entries[h].h.bytes), entries[h].h.bytes) == h * HBLKSIZE
  {
    var sz := entries[h].h.bytes;
    assert h * HBLKSIZE == Address(h, 0, sz);
    LargeIndex(h, h * HBLKSIZE, sz);
  }

  /** Where the walk from page h starts. */
  lemma FirstGap(entries: Entries, keys: seq<nat>, i: nat, h: nat)
    requires Ascending(keys) && i <= |keys| && forall p: nat :: p in entries ==> BottomOf(p) in keys
    requires (forall j :: 0 <= j < i ==> keys[j] < BottomOf(h)) && forall j :: i <= j < |keys| ==>
               keys[j] >= BottomOf(h)
    ensures i < |keys| && keys[i] == BottomOf(h) ==> keys[i] * BOTTOM_SZ + h % BOTTOM_SZ == h
    ensures i < |keys| && keys[i] != BottomOf(h) ==>
              keys[i] * BOTTOM_SZ >= h && NoStart(entries, h, keys[i] * BOTTOM_SZ)
    ensures i == |keys| ==> forall p: nat :: p >= h ==> p !in entries
  {
    BottomBounds(h);
    KeysFrom(entries, keys, i, h);
  }

  /** At most one block ends at a page. */
  lemma OneEnd(blocks: Blocks, r: nat)
    requires Tiled(blocks) && r in blocks
    ensures forall b: nat :: b in blocks && End(blocks, b) == End(blocks, r) ==> b == r
  {
  }

  /** If the last block to start before h does not end there, none does. */
  lemma LastStart(entries: Entries, r: nat, h: nat)
    requires Indexed(entries) && 0 !in entries && h > 0
    requires r != 0 ==>
               r in entries && entries[r].Start? && r < h && NoStart(entries, r + 1, h) && End(Starts(entries), r) != h
    requires r == 0 ==> NoStart(entries, 0, h)
    ensures forall b :: b in Starts(entries) ==> End(Starts(entries), b) != h
  {
    var blocks := Starts(entries);
    forall b | b in blocks ensures End(blocks, b) != h {
      if b < r {
        assert End(blocks, b) <= r;
      } else {
        assert b in entries && entries[b].Start? && (b == r || b >= h);
      }
    }
  }

  lemma BottomBounds(p: nat)
    ensures BottomOf(p) * BOTTOM_SZ + p % BOTTOM_SZ == p
  {
  }

  /** No block starts between the pages of the first i bottom indices and page hi, if the others are for later pages. */
  lemma KeyGap(entries: Entries, keys: seq<nat>, i: nat, hi: nat)
    requires Ascending(keys) && i <= |keys| && forall p: nat :: p in entries ==> BottomOf(p) in keys
    requires forall j :: i <= j < |keys| ==> keys[j] * BOTTOM_SZ >= hi
    ensures NoStart(entries, if i > 0 then (keys[i - 1] + 1) * BOTTOM_SZ else 0, hi)
  {
    var lo := if i > 0 then (keys[i - 1] + 1) * BOTTOM_SZ else 0;
    forall p: nat | p in entries && p < hi ensures p < lo {
      BottomBounds(p);
      var j :| 0 <= j < |keys| && keys[j] == BottomOf(p);
      assert j < i && keys[j] <= keys[i - 1];
    }
  }

  /** The first n - 1 counts have been put in. */
  ghost predicate IsCounted(before: Entries, after: Entries, page: nat, n: nat) {
    && (forall q: nat :: q in after <==> q in before || InInterior(page, n, q))
    && (forall q: nat :: q in after ==> after[q] == if InInterior(page, n, q) then Jump(Count(q - page)) else before[q])
  }

  /** The first n - 1 counts have been taken out. */
  ghost predicate IsUncounted(before: Entries, after: Entries, page: nat, n: nat) {
    && (forall q: nat :: q in after <==> q in before && !InInterior(page, n, q))
    && (forall q: nat :: q in after ==> after[q] == before[q])
  }

  lemma UncountedIs(before: Entries, after: Entries, page: nat, n: nat)
    requires IsUncounted(before, after, page, n)
    ensures after == before - Interior(page, n)
  {
  }

  lemma CountedIs(before: Entries, after: Entries, page: nat, n: nat)
    requires IsCounted(before, after, page, n)
    ensures after == before + Counts(page, n)
  {
  }
}
