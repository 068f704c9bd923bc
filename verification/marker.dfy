/** The collector's sequential marker: a bounded mark stack, overflow, and recovery by rescanning the heap. */
module Marker {
  import opened Wrappers

  // ---- The memory being marked ----

  /** A word that the collector takes for a pointer holds the object it points to. */
  type Word = Option<nat>

  datatype Block = Block(objs: seq<nat>, uncollectable: bool)

  /** Objects and roots as sequences of words. Static roots are pushed as ranges; the words of `eager` (stacks and
      registers) are followed one by one. Blocks are listed in address order. */
  datatype Memory = Memory(objects: seq<seq<Word>>, statics: seq<seq<Word>>, eager: seq<Word>, blocks: seq<Block>) {
    predicate Valid() {
      && (forall o, w :: 0 <= o < |objects| && 0 <= w < |objects[o]| ==> InHeap(objects[o][w]))
      && (forall r, w :: 0 <= r < |statics| && 0 <= w < |statics[r]| ==> InHeap(statics[r][w]))
      && (forall w :: 0 <= w < |eager| ==> InHeap(eager[w]))
      && (forall b, i :: 0 <= b < |blocks| && 0 <= i < |blocks[b].objs| ==> blocks[b].objs[i] < |objects|)
      && (forall o :: 0 <= o < |objects| && objects[o] != [] ==> InSomeBlock(o))
    }

    predicate InHeap(w: Word) {
      w.Some? ==> w.value < |objects|
    }

    predicate InSomeBlock(o: nat) {
      exists b :: 0 <= b < |blocks| && o in blocks[b].objs
    }

    function Words(src: Source): seq<Word> {
      match src
      case Object(o) => if o < |objects| then objects[o] else []
      case Static(r) => if r < |statics| then statics[r] else []
    }
  }

  /** What a stack entry lets the marker scan. */
  datatype Source = Object(o: nat) | Static(r: nat)

  /** A mark stack entry: the words of src from lo to hi are still to be scanned. */
  datatype Range = Range(src: Source, lo: nat, hi: nat)

  // ---- The marker's invariant ----

  predicate Pending(stack: seq<Range>, src: Source, w: nat) {
    exists i :: 0 <= i < |stack| && stack[i].src == src && stack[i].lo <= w < stack[i].hi
  }

  /** The word's target is marked, or the word is in a range on the stack. */
  predicate Covered(m: Memory, marked: set<nat>, stack: seq<Range>, src: Source, w: nat)
    requires w < |m.Words(src)|
  {
    m.Words(src)[w].None? || m.Words(src)[w].value in marked || Pending(stack, src, w)
  }

  predicate AllCovered(m: Memory, marked: set<nat>, stack: seq<Range>, src: Source) {
    forall w: nat :: w < |m.Words(src)| ==> Covered(m, marked, stack, src, w)
  }

  /** Covered, but for the words of `gap` that are just being scanned. */
  predicate CoveredBut(m: Memory, marked: set<nat>, stack: seq<Range>, src: Source, gap: Range) {
    forall w: nat :: w < |m.Words(src)| ==>
      Covered(m, marked, stack, src, w) || (src == gap.src && gap.lo <= w < gap.hi)
  }

  datatype Phase = Idle | PushUncollectable | RootsPushed | PartiallyInvalid | Invalid

  /** The index of the first block the scan has not passed; a null scan pointer is before the first block. */
  function ScanIndex(scan: Option<nat>): nat {
    if scan.None? then 0 else scan.value
  }

  /** Every marked object with words below block i is covered, and so is each marked object in no block from i on. */
  predicate CoveredBelow(m: Memory, marked: set<nat>, stack: seq<Range>, i: nat, all: bool) {
    forall o :: o in marked ==>
      || AllCovered(m, marked, stack, Object(o))
      || exists b :: i <= b < |m.blocks| && o in m.blocks[b].objs && (all || m.blocks[b].uncollectable)
  }

  predicate RootsCovered(m: Memory, marked: set<nat>, stack: seq<Range>) {
    && (forall r :: 0 <= r < |m.statics| ==> AllCovered(m, marked, stack, Static(r)))
    && (forall w :: 0 <= w < |m.eager| && m.eager[w].Some? ==> m.eager[w].value in marked)
  }

  /** What each phase guarantees. In the phase Invalid nothing is known but how the marking began. */
  predicate PhaseHolds(m: Memory, p: Phase, marked: set<nat>, stack: seq<Range>, scan: Option<nat>, begun: bool) {
    match p
    case Idle => stack == []
    case PushUncollectable => CoveredBelow(m, marked, stack, ScanIndex(scan), false)
    case RootsPushed => CoveredBelow(m, marked, stack, |m.blocks|, true) && RootsCovered(m, marked, stack)
    case PartiallyInvalid => CoveredBelow(m, marked, stack, ScanIndex(scan), true)
    case Invalid => !begun ==> stack == [] && scan == None && CoveredBelow(m, marked, [], 0, false)
  }

  /** Marking is over: roots point to marked objects, and so do marked objects. */
  predicate Complete(m: Memory, marked: set<nat>) {
    && (forall r, w :: 0 <= r < |m.statics| && 0 <= w < |m.statics[r]| && m.statics[r][w].Some? ==>
        m.statics[r][w].value in marked)
    && (forall w :: 0 <= w < |m.eager| && m.eager[w].Some? ==> m.eager[w].value in marked)
    && ClosedUnderPointers(m, marked)
  }

  predicate ClosedUnderPointers(m: Memory, s: set<nat>) {
    forall o, w :: o in s && o < |m.objects| && 0 <= w < |m.objects[o]| && m.objects[o][w].Some? ==>
                     m.objects[o][w].value in s
  }

  lemma CoverageGrows(m: Memory, marked: set<nat>, stack: seq<Range>, marked': set<nat>, stack': seq<Range>)
    requires marked <= marked' && stack <= stack'
    ensures forall src :: AllCovered(m, marked, stack, src) ==> AllCovered(m, marked', stack', src)
    ensures forall src, gap :: CoveredBut(m, marked, stack, src, gap) ==> CoveredBut(m, marked', stack', src, gap)
  {
    forall src, w: nat | w < |m.Words(src)| && Covered(m, marked, stack, src, w)
      ensures Covered(m, marked', stack', src, w)
    {
      if Pending(stack, src, w) {
        var i :| 0 <= i < |stack| && stack[i].src == src && stack[i].lo <= w < stack[i].hi;
        assert stack'[i] == stack[i];
      }
    }
  }

  /** Taking the top entry off the stack leaves its words as the gap; if it is long, all but its front goes back. */
  lemma TakeTop(m: Memory, marked: set<nat>, stack: seq<Range>, cut: nat)
    requires stack != []
    requires var top := stack[|stack| - 1]; top.lo <= cut <= top.hi
    ensures var top := stack[|stack| - 1];
            var rest := if cut == top.hi then stack[..|stack| - 1] else stack[..|stack| - 1] + [top.(lo := cut)];
            forall src :: AllCovered(m, marked, stack, src) ==> CoveredBut(m, marked, rest, src, top.(hi := cut))
  {
    var top := stack[|stack| - 1];
    var rest := if cut == top.hi then stack[..|stack| - 1] else stack[..|stack| - 1] + [top.(lo := cut)];
    forall src, w: nat | w < |m.Words(src)| && Covered(m, marked, stack, src, w)
      ensures Covered(m, marked, rest, src, w) || (src == top.src && top.lo <= w < cut)
    {
      if Pending(stack, src, w) {
        var i :| 0 <= i < |stack| && stack[i].src == src && stack[i].lo <= w < stack[i].hi;
        if i < |stack| - 1 {
          assert rest[i] == stack[i];
        } else if w >= cut {
          assert rest[|rest| - 1] == top.(lo := cut);
        }
      }
    }
  }

  /** Scanning the first word of the gap shortens it. */
  lemma ScanWord(m: Memory, marked: set<nat>, stack: seq<Range>, gap: Range)
    requires gap.lo < gap.hi
    requires gap.lo < |m.Words(gap.src)| ==> m.Words(gap.src)[gap.lo].None? || m.Words(gap.src)[gap.lo].value in marked
    ensures forall src :: CoveredBut(m, marked, stack, src, gap) ==>
              CoveredBut(m, marked, stack, src, gap.(lo := gap.lo + 1))
  {
  }

  lemma EmptyGap(m: Memory, marked: set<nat>, stack: seq<Range>, gap: Range)
    requires gap.lo >= gap.hi
    ensures forall src :: CoveredBut(m, marked, stack, src, gap) ==> AllCovered(m, marked, stack, src)
  {
  }

  /** The work the entries of a stack stand for. */
  function Work(stack: seq<Range>): nat {
    if stack == [] then 0
    else
      var top := stack[|stack| - 1];
      Work(stack[..|stack| - 1]) + 1 + (if top.lo <= top.hi then top.hi - top.lo else 0)
  }

  lemma WorkOfPush(stack: seq<Range>, r: Range)
    ensures Work(stack + [r]) == Work(stack) + 1 + (if r.lo <= r.hi then r.hi - r.lo else 0)
  {
    assert (stack + [r])[..|stack|] == stack;
  }

  /** Work is done when the top is taken off, or its first words are. */
  lemma LessWork(stack: seq<Range>, cut: nat)
    requires stack != []
    requires var top := stack[|stack| - 1]; cut == top.hi || top.lo < cut < top.hi
    ensures var top := stack[|stack| - 1];
            Work(if cut == top.hi then stack[..|stack| - 1] else stack[..|stack| - 1] + [top.(lo := cut)]) < Work(stack)
  {
    WorkOfPush(stack[..|stack| - 1], stack[|stack| - 1].(lo := cut));
  }

  /** The targets of a range's words are inside s. */
  predicate SourcesWithin(m: Memory, stack: seq<Range>, s: set<nat>) {
    forall i :: 0 <= i < |stack| ==> SourceWithin(m, stack[i].src, s)
  }

  predicate SourceWithin(m: Memory, src: Source, s: set<nat>) {
    src.Object? ==> src.o in s
  }

  /** s holds whatever the roots point to and is closed under pointers. */
  predicate Enclosing(m: Memory, s: set<nat>) {
    Complete(m, s)
  }

  const SPLIT_WORDS: nat := 128
  const CREDIT_WORDS: int := 512

  class MarkState {
    const memory: Memory
    const discards: nat
    var phase: Phase
    var marked: set<nat>
    var stack: seq<Range>
    var size: nat
    var scan: Option<nat>
    var begun: bool
    var tooSmall: bool

    /** The facts that hold between any two steps. `s` is any set that encloses what is reachable. */
    ghost predicate Valid(s: set<nat>)
      reads this
    {
      && memory.Valid()
      && Enclosing(memory, s)
      && 0 < discards <= size && |stack| <= size
      && marked <= s && (forall o :: o in marked ==> o < |memory.objects|)
      && SourcesWithin(memory, stack, s)
      && (forall i :: 0 <= i < |stack| ==> stack[i].lo < stack[i].hi)
    }

    /** Objects still to be marked. */
    ghost function Unmarked(): set<nat>
      reads this
    {
      set o: nat | o < |memory.objects| && o !in marked
    }

    /** A heap whose marks have been cleared, except those of uncollectable objects. */
    constructor (m: Memory, stackSize: nat, drop: nat, survivors: set<nat>)
      requires m.Valid() && 0 < drop <= stackSize
      ensures memory == m && discards == drop && size == stackSize
      ensures phase == Invalid && marked == survivors && stack == [] && scan == None && !begun && !tooSmall
    {
      memory, discards, size := m, drop, stackSize;
      phase, marked, stack, scan, begun, tooSmall := Invalid, survivors, [], None, false, false;
    }

    /** Pushes an object that is already marked. A full stack loses its top entries, and marking becomes invalid. */
    method PushObject(o: nat, ghost s: set<nat>)
      requires Valid(s) && o in s && o < |memory.objects|
      modifies this`phase, this`stack, this`tooSmall
      ensures Valid(s)
      ensures memory.objects[o] == [] ==> stack == old(stack) && phase == old(phase)
      ensures memory.objects[o] != [] && |old(stack)| < size ==>
                stack == old(stack) + [Range(Object(o), 0, |memory.objects[o]|)] && phase == old(phase)
      ensures memory.objects[o] != [] && |old(stack)| == size ==>
                && phase == Invalid && tooSmall
                && stack == old(stack)[..size - discards] + [Range(Object(o), 0, |memory.objects[o]|)]
      ensures |stack| <= |old(stack)| + 1
    {
      if |memory.objects[o]| == 0 {
        return;
      }
      if |stack| == size {
        phase, tooSmall := Invalid, true;
        stack := stack[..|stack| - discards];
      }
      stack := stack + [Range(Object(o), 0, |memory.objects[o]|)];
    }

    /** Marks the target of a word, if there is one and it is not marked yet, and pushes it. */
    method MarkAndPush(w: Word, ghost s: set<nat>)
      requires Valid(s) && memory.InHeap(w) && (w.Some? ==> w.value in s)
      modifies this`phase, this`stack, this`tooSmall, this`marked
      ensures Valid(s)
      ensures marked == old(marked) + (if w.Some? then {w.value} else {})
      ensures phase == old(phase) || (phase == Invalid && marked != old(marked))
      ensures marked == old(marked) ==> stack == old(stack)
      ensures phase != Invalid ==> old(stack) <= stack && forall o :: o in marked - old(marked) ==>
                AllCovered(memory, marked, stack, Object(o))
      ensures |stack| <= |old(stack)| + 1
    {
      if w.None? || w.value in marked {
        assert w.Some? ==> marked + {w.value} == marked;
        return;
      }
      marked := marked + {w.value};
      PushObject(w.value, s);
      if phase != Invalid && memory.objects[w.value] != [] {
        PushedIsCovered(memory, marked, stack, w.value);
      }
    }

    /** Scans the words of one range. */
    method ScanRange(r: Range, ghost s: set<nat>)
      requires Valid(s) && SourceWithin(memory, r.src, s) && r.lo <= r.hi
      modifies this`phase, this`stack, this`tooSmall, this`marked
      ensures Valid(s)
      ensures old(marked) <= marked
      ensures phase == old(phase) || (phase == Invalid && marked != old(marked))
      ensures marked == old(marked) ==> stack == old(stack)
      ensures phase != Invalid ==>
                && (forall src :: old(CoveredBut(memory, marked, stack, src, r)) ==>
                    AllCovered(memory, marked, stack, src))
                && (forall o :: o in marked - old(marked) ==> AllCovered(memory, marked, stack, Object(o)))
    {
      var words := memory.Words(r.src);
      var w := r.lo;
      while w < r.hi
        invariant r.lo <= w <= r.hi
        invariant Valid(s)
        invariant old(marked) <= marked
        invariant phase == old(phase) || (phase == Invalid && marked != old(marked))
        invariant marked == old(marked) ==> stack == old(stack)
        invariant phase != Invalid ==>
                    && (forall src :: old(CoveredBut(memory, marked, stack, src, r)) ==>
                        CoveredBut(memory, marked, stack, src, r.(lo := w)))
                    && (forall o :: o in marked - old(marked) ==>
                        CoveredBut(memory, marked, stack, Object(o), r.(lo := w)))
      {
        ghost var marked0, stack0 := marked, stack;
        if w < |words| {
          TargetWithin(memory, s, r.src, w);
          MarkAndPush(words[w], s);
        }
        if phase != Invalid {
          CoverageGrows(memory, marked0, stack0, marked, stack);
          ScanWord(memory, marked, stack, r.(lo := w));
        }
        w := w + 1;
      }
      EmptyGap(memory, marked, stack, r.(lo := w));
    }

    /** Scans the top entry or, if it is long, its front. Returns the number of words scanned. */
    method ScanTop(ghost s: set<nat>) returns (scanned: nat)
      requires Valid(s) && stack != []
      modifies this`phase, this`stack, this`tooSmall, this`marked
      ensures Valid(s) && Kept(old(phase), old(marked), old(stack))
      ensures marked == old(marked) ==> Work(stack) < Work(old(stack))
    {
      var top := stack[|stack| - 1];
      var cut := if top.hi - top.lo >= SPLIT_WORDS then top.lo + SPLIT_WORDS - 1 else top.hi;
      TakeTop(memory, marked, stack, cut);
      LessWork(stack, cut);
      stack := if cut == top.hi then stack[..|stack| - 1] else stack[..|stack| - 1] + [top.(lo := cut)];
      scanned := cut - top.lo;
      ScanRange(top.(hi := cut), s);
    }

    /** Marking went on from an earlier state: it overflowed only on a new mark, and otherwise kept the coverage there
        was and covered what it newly marked. */
    ghost predicate Kept(phase0: Phase, marked0: set<nat>, stack0: seq<Range>)
      reads this
    {
      && marked0 <= marked
      && (phase == phase0 || (phase == Invalid && marked != marked0))
      && (phase != Invalid ==>
            && (forall src :: AllCovered(memory, marked0, stack0, src) ==> AllCovered(memory, marked, stack, src))
            && (forall o :: o in marked - marked0 ==> AllCovered(memory, marked, stack, Object(o))))
    }

    /** `GC_mark_from`: scans from the top of the stack until it is empty or the credit is used up. */
    method MarkFrom(ghost s: set<nat>)
      requires Valid(s) && stack != []
      modifies this`phase, this`stack, this`tooSmall, this`marked, this`begun
      ensures Valid(s) && begun && Kept(old(phase), old(marked), old(stack))
      ensures marked == old(marked) ==> Work(stack) < Work(old(stack))
    {
      begun := true;
      var credit := CREDIT_WORDS;
      while stack != [] && credit >= 0
        invariant Valid(s) && begun && Kept(old(phase), old(marked), old(stack))
        invariant marked == old(marked) ==> Work(stack) < Work(old(stack)) || (stack == old(stack) && credit >= 0)
        decreases Unmarked(), Work(stack)
      {
        ghost var marked0, stack0 := marked, stack;
        var scanned := ScanTop(s);
        credit := credit - scanned;
        UnmarkedShrinks(marked0);
      }
    }

    lemma UnmarkedShrinks(before: set<nat>)
      requires before <= marked && forall o :: o in marked ==> o < |memory.objects|
      ensures marked != before ==> Unmarked() < (set o: nat | o < |memory.objects| && o !in before)
      ensures marked == before ==> Unmarked() == (set o: nat | o < |memory.objects| && o !in before)
    {
      if marked != before {
        var o :| o in marked && o !in before;
        assert o !in Unmarked();
      }
    }

    /** `GC_push_marked`: pushes the marked objects of a block. */
    method PushMarked(b: nat, ghost s: set<nat>)
      requires Valid(s) && b < |memory.blocks|
      requires |stack| + |memory.blocks[b].objs| <= size
      modifies this`phase, this`stack, this`tooSmall, this`begun
      ensures Valid(s) && phase == old(phase)
      ensures begun <==> old(begun) || stack != old(stack)
      ensures old(stack) <= stack
      ensures forall o :: o in memory.blocks[b].objs && o in marked ==> AllCovered(memory, marked, stack, Object(o))
    {
      var objs := memory.blocks[b].objs;
      var i := 0;
      while i < |objs|
        invariant 0 <= i <= |objs| && |stack| <= |old(stack)| + i
        invariant Valid(s) && phase == old(phase) && old(stack) <= stack
        invariant begun <==> old(begun) || stack != old(stack)
        invariant forall j :: 0 <= j < i && objs[j] in marked ==> AllCovered(memory, marked, stack, Object(objs[j]))
      {
        if objs[i] in marked {
          ghost var stack0 := stack;
          PushObject(objs[i], s);
          CoverageGrows(memory, marked, stack0, marked, stack);
          if |memory.objects[objs[i]]| > 0 {
            begun := true;
            PushedIsCovered(memory, marked, stack, objs[i]);
          }
        }
        i := i + 1;
      }
    }

    /** `GC_push_next_marked`: pushes the marked objects of the next block, or ends the scan. */
    method PushNextMarked(ghost s: set<nat>)
      requires Ready(s) && stack == []
      modifies this`phase, this`stack, this`tooSmall, this`begun, this`scan
      ensures Ready(s) && phase == old(phase) && (old(begun) ==> begun)
      ensures old(ScanIndex(scan)) < |memory.blocks| ==> scan == Some(old(ScanIndex(scan)) + 1)
      ensures old(ScanIndex(scan)) >= |memory.blocks| ==> scan == None && stack == []
      ensures CoveredBelow(memory, marked, [], old(ScanIndex(scan)), true) ==>
                CoveredBelow(memory, marked, stack, if scan.None? then |memory.blocks| else scan.value, true)
    {
      var b := ScanIndex(scan);
      if b >= |memory.blocks| {
        scan := None;
        return;
      }
      PushMarked(b, s);
      scan := Some(b + 1);
      BlockPassed(memory, marked, [], stack, b, b + 1, true);
    }

    /** `GC_push_next_marked_uncollectable`: the same, for the next block of uncollectable objects. */
    method PushNextUncollectable(ghost s: set<nat>)
      requires Ready(s) && |stack| <= size / 4
      modifies this`phase, this`stack, this`tooSmall, this`begun, this`scan
      ensures Ready(s) && phase == old(phase)
      ensures scan.Some? ==> old(ScanIndex(scan)) < scan.value
      ensures old(CoveredBelow(memory, marked, stack, ScanIndex(scan), false)) ==>
                CoveredBelow(memory, marked, stack, if scan.None? then |memory.blocks| else scan.value, false)
      ensures scan.None? ==> stack == old(stack)
    {
      var b := ScanIndex(scan);
      while b < |memory.blocks| && !memory.blocks[b].uncollectable
        invariant unchanged(this) && old(ScanIndex(scan)) <= b <= |memory.blocks|
        invariant old(CoveredBelow(memory, marked, stack, ScanIndex(scan), false)) ==>
                    CoveredBelow(memory, marked, stack, b, false)
      {
        BlockPassed(memory, marked, stack, stack, b, b + 1, false);
        b := b + 1;
      }
      if b >= |memory.blocks| {
        scan := None;
        BlockPassed(memory, marked, stack, stack, b, |memory.blocks|, false);
        return;
      }
      PushMarked(b, s);
      CoverageGrows(memory, marked, old(stack), marked, stack);
      scan := Some(b + 1);
      BlockPassed(memory, marked, old(stack), stack, b, b + 1, false);
    }

    /** `GC_push_roots`: static roots become stack entries; if they do not fit, the collector gives up. The words of
        stacks and registers are followed at once. */
    method PushRoots(ghost s: set<nat>) returns (aborted: bool)
      requires Ready(s)
      modifies this`phase, this`stack, this`tooSmall, this`marked
      ensures Ready(s)
      ensures Kept(old(phase), old(marked), old(stack))
      ensures !aborted && phase != Invalid ==> RootsCovered(memory, marked, stack)
      ensures aborted ==> |old(stack)| + |memory.statics| > size
    {
      var r := 0;
      while r < |memory.statics|
        invariant 0 <= r <= |memory.statics|
        invariant Ready(s) && phase == old(phase) && marked == old(marked) && old(stack) <= stack
        invariant |stack| <= |old(stack)| + r
        invariant forall q :: 0 <= q < r ==> AllCovered(memory, marked, stack, Static(q))
      {
        if |memory.statics[r]| > 0 {
          if |stack| >= size {
            CoverageGrows(memory, marked, old(stack), marked, stack);
            return true;
          }
          ghost var stack0 := stack;
          stack := stack + [Range(Static(r), 0, |memory.statics[r]|)];
          CoverageGrows(memory, marked, stack0, marked, stack);
          StaticIsCovered(memory, marked, stack, r);
        }
        r := r + 1;
      }
      CoverageGrows(memory, marked, old(stack), marked, stack);
      PushEager(s);
      aborted := false;
    }

    method PushEager(ghost s: set<nat>)
      requires Ready(s)
      modifies this`phase, this`stack, this`tooSmall, this`marked
      ensures Ready(s)
      ensures Kept(old(phase), old(marked), old(stack))
      ensures forall w :: 0 <= w < |memory.eager| && memory.eager[w].Some? ==> memory.eager[w].value in marked
    {
      var w := 0;
      while w < |memory.eager|
        invariant 0 <= w <= |memory.eager|
        invariant Ready(s) && Kept(old(phase), old(marked), old(stack))
        invariant forall q :: 0 <= q < w && memory.eager[q].Some? ==> memory.eager[q].value in marked
      {
        ghost var marked0, stack0 := marked, stack;
        MarkAndPush(memory.eager[w], s);
        if phase != Invalid {
          CoverageGrows(memory, marked0, stack0, marked, stack);
        }
        w := w + 1;
      }
    }

    /** The static roots fit into the three quarters of the stack that are free whenever they are pushed. */
    predicate RootsFit()
      reads this
    {
      |memory.statics| + size / 4 <= size
    }

    /** What the current phase guarantees, between two calls of MarkSome. */
    ghost predicate Holds()
      reads this
    {
      PhaseHolds(memory, phase, marked, stack, scan, begun) && (phase == PartiallyInvalid ==> begun)
    }

    /** How far marking is from its end, for a given set of marked objects. */
    ghost function Stage(): nat
      reads this
    {
      match phase
      case Idle => 0
      case RootsPushed => 1
      case PartiallyInvalid => 2
      case Invalid => if begun then 3 else 5
      case PushUncollectable => 4
    }

    /** Blocks the scan has still to pass; an invalid scan that has ended passes none. */
    ghost function Remaining(): int
      reads this
    {
      if phase == Invalid && scan.None? then 0 else |memory.blocks| + 1 - ScanIndex(scan)
    }

    /** Marking is nearer its end than it was: something was marked, or a phase, a block or some work is behind it. */
    ghost predicate Nearer(unmarked: set<nat>, stage: nat, remaining: int, work: nat)
      reads this
    {
      || Unmarked() < unmarked
      || (Unmarked() == unmarked
          && (Stage() < stage || (Stage() == stage &&
                                  (Remaining() < remaining || (Remaining() == remaining && Work(stack) < work)))))
    }

    /** `GC_mark_some`: one step of the marker. `memoryLeft` says whether a larger stack can be had, if one is
        wanted. */
    method MarkSome(memoryLeft: bool, ghost s: set<nat>) returns (done: bool, aborted: bool)
      requires Ready(s) && Holds()
      modifies this
      ensures Ready(s) && old(marked) <= marked
      ensures aborted || Holds()
      ensures size >= old(size) && (aborted ==> !RootsFit())
      ensures done ==> !aborted && phase == Idle && stack == [] && Complete(memory, marked)
      ensures !aborted && old(phase) != Idle ==>
                Nearer(old(Unmarked()), old(Stage()), old(Remaining()), old(Work(stack)))
      ensures !aborted && !done && old(phase) != Idle ==> phase != Idle
    {
      done, aborted := false, false;
      match phase {
        case Idle =>
        case PushUncollectable =>
          aborted := MarkUncollectable(s);
        case RootsPushed =>
          if stack != [] {
            ghost var marked0, stack0 := marked, stack;
            MarkFrom(s);
            UnmarkedShrinks(marked0);
            StillCovered(marked0, stack0, |memory.blocks|, true);
          } else {
            NothingPending(memory, marked);
            phase := Idle;
            if tooSmall {
              AllocateStack(memoryLeft);
            }
            done := true;
          }
        case PartiallyInvalid | Invalid =>
          aborted := Recover(memoryLeft, s);
      }
    }

    /** The phase PushUncollectable: marks from the stack when it is a quarter full, else scans one more block. */
    method MarkUncollectable(ghost s: set<nat>) returns (aborted: bool)
      requires Ready(s) && Holds() && phase == PushUncollectable
      modifies this
      ensures Ready(s) && old(marked) <= marked
      ensures aborted || (Holds() && phase != Idle)
      ensures size >= old(size) && (aborted ==> !RootsFit())
      ensures !aborted ==> Nearer(old(Unmarked()), old(Stage()), old(Remaining()), old(Work(stack)))
    {
      aborted := false;
      ghost var marked0, stack0 := marked, stack;
      if |stack| > size / 4 {
        MarkFrom(s);
        UnmarkedShrinks(marked0);
        StillCovered(marked0, stack0, ScanIndex(scan), false);
      } else {
        PushNextUncollectable(s);
        if scan.None? {
          AnyBlock(memory, marked, stack);
          aborted := FinishScan(s);
        }
      }
    }

    /** The phases after an overflow: empties the stack, then rescans the marked objects of one block. */
    method Recover(memoryLeft: bool, ghost s: set<nat>) returns (aborted: bool)
      requires Ready(s) && Holds() && (phase == PartiallyInvalid || phase == Invalid)
      modifies this
      ensures Ready(s) && old(marked) <= marked
      ensures aborted || (Holds() && phase != Idle)
      ensures size >= old(size) && (aborted ==> !RootsFit())
      ensures !aborted ==> Nearer(old(Unmarked()), old(Stage()), old(Remaining()), old(Work(stack)))
    {
      aborted := false;
      ghost var marked0, stack0 := marked, stack;
      if !begun {
        phase := PushUncollectable;
      } else if stack != [] {
        MarkFrom(s);
        UnmarkedShrinks(marked0);
        StillCovered(marked0, stack0, ScanIndex(scan), true);
      } else {
        if scan.None? && phase == Invalid {
          if tooSmall {
            AllocateStack(memoryLeft);
          }
          phase := PartiallyInvalid;
          ScanFromStart(memory, marked);
        }
        PushNextMarked(s);
        if scan.None? && phase == PartiallyInvalid {
          aborted := FinishScan(s);
        }
      }
    }

    /** After the last block, the roots are pushed. */
    method FinishScan(ghost s: set<nat>) returns (aborted: bool)
      requires Ready(s) && (phase == PushUncollectable || phase == PartiallyInvalid)
      requires CoveredBelow(memory, marked, stack, |memory.blocks|, true) && |stack| <= size / 4
      modifies this`phase, this`stack, this`tooSmall, this`marked, this`begun
      ensures Ready(s) && old(marked) <= marked
      ensures aborted || (Holds() && begun)
      ensures aborted ==> !RootsFit()
      ensures !aborted ==>
                (phase == RootsPushed && Unmarked() <= old(Unmarked())) ||
                  (phase == Invalid && Unmarked() < old(Unmarked()))
    {
      ghost var marked0, stack0, phase0 := marked, stack, phase;
      aborted := PushRoots(s);
      UnmarkedShrinks(marked0);
      begun := true;
      if phase != Invalid {
        StillCovered(marked0, stack0, |memory.blocks|, true);
        phase := RootsPushed;
      }
    }

    /** `alloc_mark_stack`: doubles an empty stack if there is memory for it. */
    method AllocateStack(memoryLeft: bool)
      requires stack == []
      modifies this`size, this`tooSmall
      ensures size == if memoryLeft then 2 * old(size) else old(size)
      ensures !tooSmall
    {
      tooSmall := false;
      if memoryLeft {
        size := 2 * size;
      }
    }

    /** Marking without an overflow keeps what is covered below a block covered. */
    lemma StillCovered(marked0: set<nat>, stack0: seq<Range>, b: nat, all: bool)
      requires phase != Invalid ==>
                 && marked0 <= marked
                 && (forall src :: AllCovered(memory, marked0, stack0, src) ==> AllCovered(memory, marked, stack, src))
                 && (forall o :: o in marked - marked0 ==> AllCovered(memory, marked, stack, Object(o)))
      ensures phase != Invalid && CoveredBelow(memory, marked0, stack0, b, all) ==>
                CoveredBelow(memory, marked, stack, b, all)
    {
    }

    /** Valid, with a scan pointer inside the heap and room on the stack for the objects of any one block. */
    ghost predicate Ready(s: set<nat>)
      reads this
    {
      && Valid(s)
      && ScanIndex(scan) <= |memory.blocks|
      && (forall b :: 0 <= b < |memory.blocks| ==> 4 * |memory.blocks[b].objs| <= 3 * size)
    }
  }

  lemma PushedIsCovered(m: Memory, marked: set<nat>, stack: seq<Range>, o: nat)
    requires o < |m.objects| && stack != [] && stack[|stack| - 1] == Range(Object(o), 0, |m.objects[o]|)
    ensures AllCovered(m, marked, stack, Object(o))
  {
    forall w: nat | w < |m.Words(Object(o))| ensures Pending(stack, Object(o), w) {
      var i := |stack| - 1;
      assert stack[i].src == Object(o) && stack[i].lo <= w < stack[i].hi;
    }
  }

  lemma TargetWithin(m: Memory, s: set<nat>, src: Source, w: nat)
    requires m.Valid() && Enclosing(m, s) && SourceWithin(m, src, s) && w < |m.Words(src)|
    ensures m.InHeap(m.Words(src)[w]) && (m.Words(src)[w].Some? ==> m.Words(src)[w].value in s)
  {
  }

  lemma StaticIsCovered(m: Memory, marked: set<nat>, stack: seq<Range>, r: nat)
    requires r < |m.statics| && stack != [] && stack[|stack| - 1] == Range(Static(r), 0, |m.statics[r]|)
    ensures AllCovered(m, marked, stack, Static(r))
  {
    forall w: nat | w < |m.Words(Static(r))| ensures Pending(stack, Static(r), w) {
      var i := |stack| - 1;
      assert stack[i].src == Static(r) && stack[i].lo <= w < stack[i].hi;
    }
  }

  /** The scan moves past block b, whose marked objects it covered, or which it may skip. */
  lemma BlockPassed(m: Memory, marked: set<nat>, stack: seq<Range>, stack': seq<Range>, b: nat, b': nat, all: bool)
    requires CoveredBelow(m, marked, stack, b, all) ==> stack <= stack'
    requires b' == b + 1 || b >= |m.blocks|
    requires b < |m.blocks| ==>
               || (forall o :: o in m.blocks[b].objs && o in marked ==> AllCovered(m, marked, stack', Object(o)))
               || !(all || m.blocks[b].uncollectable)
    ensures CoveredBelow(m, marked, stack, b, all) ==> CoveredBelow(m, marked, stack', b', all)
  {
    if CoveredBelow(m, marked, stack, b, all) {
      CoverageGrows(m, marked, stack, marked, stack');
      forall o | o in marked && !AllCovered(m, marked, stack', Object(o))
        ensures exists q :: b' <= q < |m.blocks| && o in m.blocks[q].objs && (all || m.blocks[q].uncollectable)
      {
        assert !AllCovered(m, marked, stack, Object(o));
        var q :| b <= q < |m.blocks| && o in m.blocks[q].objs && (all || m.blocks[q].uncollectable);
        assert q != b;
      }
    }
  }

  lemma AnyBlock(m: Memory, marked: set<nat>, stack: seq<Range>)
    ensures CoveredBelow(m, marked, stack, |m.blocks|, false) ==> CoveredBelow(m, marked, stack, |m.blocks|, true)
  {
  }

  /** Every object with words to scan is in some block, so a scan from the first block misses nothing. */
  lemma ScanFromStart(m: Memory, marked: set<nat>)
    requires m.Valid() && forall o :: o in marked ==> o < |m.objects|
    ensures CoveredBelow(m, marked, [], 0, true)
  {
    forall o | o in marked && !AllCovered(m, marked, [], Object(o))
      ensures exists b :: 0 <= b < |m.blocks| && o in m.blocks[b].objs
    {
      assert m.objects[o] != [];
      assert m.InSomeBlock(o);
    }
  }

  lemma NothingPending(m: Memory, marked: set<nat>)
    ensures CoveredBelow(m, marked, [], |m.blocks|, true) && RootsCovered(m, marked, []) ==> Complete(m, marked)
  {
    if CoveredBelow(m, marked, [], |m.blocks|, true) && RootsCovered(m, marked, []) {
      forall o, w | o in marked && o < |m.objects| && 0 <= w < |m.objects[o]| && m.objects[o][w].Some?
        ensures m.objects[o][w].value in marked
      {
        assert AllCovered(m, marked, [], Object(o));
        assert Covered(m, marked, [], Object(o), w);
      }
      forall r, w | 0 <= r < |m.statics| && 0 <= w < |m.statics[r]| && m.statics[r][w].Some?
        ensures m.statics[r][w].value in marked
      {
        assert AllCovered(m, marked, [], Static(r));
        assert Covered(m, marked, [], Static(r), w);
      }
    }
  }

  /** A full collection's marking, on a heap where only uncollectable objects are marked: it ends, whatever overflows
      and however often no larger stack can be had. Unless the static roots do not fit the stack, the marked objects
      are then exactly those reachable from the roots and the uncollectable objects. `reachable` is any set that
      contains those and is closed under pointers. */
  method FullMark(m: Memory, stackSize: nat, drop: nat, survivors: set<nat>, memoryLeft: nat -> bool,
                  ghost reachable: set<nat>)
    returns (aborted: bool, marked: set<nat>)
    requires m.Valid() && 0 < drop <= stackSize
    requires forall b :: 0 <= b < |m.blocks| ==> 4 * |m.blocks[b].objs| <= 3 * stackSize
    requires forall o :: o in survivors ==> o < |m.objects| && (m.objects[o] == [] || InUncollectable(m, o))
    requires survivors <= reachable && Enclosing(m, reachable)
    ensures !aborted ==> survivors <= marked && Complete(m, marked) && marked <= reachable
    ensures |m.statics| + stackSize / 4 <= stackSize ==> !aborted
  {
    var st := new MarkState(m, stackSize, drop, survivors);
    forall o | o in survivors && !AllCovered(m, survivors, [], Object(o))
      ensures exists b :: 0 <= b < |m.blocks| && o in m.blocks[b].objs && m.blocks[b].uncollectable
    {
      assert InUncollectable(m, o);
    }
    var done := false;
    aborted := false;
    var calls: nat := 0;
    while !done && !aborted
      invariant st.memory == m && st.Ready(reachable) && survivors <= st.marked && fresh(st)
      invariant !done && !aborted ==> st.Holds() && st.phase != Idle
      invariant done ==> Complete(m, st.marked)
      invariant st.size >= stackSize && (aborted ==> !st.RootsFit())
      decreases !done && !aborted, st.Unmarked(), st.Stage(), st.Remaining(), Work(st.stack)
    {
      done, aborted := st.MarkSome(memoryLeft(calls), reachable);
      calls := calls + 1;
    }
    marked := st.marked;
  }

  predicate InUncollectable(m: Memory, o: nat) {
    exists b :: 0 <= b < |m.blocks| && o in m.blocks[b].objs && m.blocks[b].uncollectable
  }
}
