/** Lists as they lie in the store: what following cdrs finds, and what a procedure's frame is filled with. */
module Listing {
  import opened Wrappers
  import opened Datums
  import opened Symbols
  import opened Machine

  /** Following cdrs from v meets exactly the elements vs, and then NIL. */
  predicate IsList(h: Heap, v: Value, vs: seq<Value>)
    decreases vs
  {
    match v
    case ArgList(us) => us == vs
    case Lit(Nil) => vs == []
    case Lit(Pair(a, d)) => vs != [] && vs[0] == Lit(a) && IsList(h, Lit(d), vs[1..])
    case PairRef(id) => vs != [] && id < |h.pairs| && h.pairs[id].0 == vs[0] && IsList(h, h.pairs[id].1, vs[1..])
    case _ => false
  }

  /** A value is the list of one sequence at most. */
  lemma {:induction false} ListUnique(h: Heap, v: Value, vs: seq<Value>, us: seq<Value>)
    requires IsList(h, v, vs) && IsList(h, v, us)
    ensures vs == us
    decreases vs
  {
    match v
    case Lit(Pair(_, d)) =>
      ListUnique(h, Lit(d), vs[1..], us[1..]);
      assert vs == [vs[0]] + vs[1..] && us == [us[0]] + us[1..];
    case PairRef(id) =>
      ListUnique(h, h.pairs[id].1, vs[1..], us[1..]);
      assert vs == [vs[0]] + vs[1..] && us == [us[0]] + us[1..];
    case _ =>
  }

  /** The pairs passed start longer lists than is left. */
  ghost predicate Passed(h: Heap, seen: set<nat>, n: nat) {
    forall id :: id in seen ==> exists us: seq<Value> :: |us| > n && IsList(h, PairRef(id), us)
  }

  lemma {:induction false} ListIsElements(h: Heap, v: Value, vs: seq<Value>, seen: set<nat>)
    requires IsList(h, v, vs) && Passed(h, seen, |vs|)
    ensures Elements(h, v, seen) == Some(vs)
    decreases vs
  {
    match v
    case Lit(Pair(a, d)) =>
      assert vs == [Lit(a)] + vs[1..];
      ListIsElements(h, Lit(d), vs[1..], seen);
    case PairRef(id) =>
      if id in seen {
        var us: seq<Value> :| |us| > |vs| && IsList(h, PairRef(id), us);
        ListUnique(h, v, vs, us);
        assert false;
      }
      assert vs == [vs[0]] + vs[1..];
      assert Passed(h, seen + {id}, |vs[1..]|);
      ListIsElements(h, h.pairs[id].1, vs[1..], seen + {id});
    case _ =>
  }

  lemma {:induction false} ElementsList(h: Heap, v: Value, seen: set<nat>)
    requires Elements(h, v, seen).Some?
    ensures IsList(h, v, Elements(h, v, seen).value)
    decreases Unseen(h, seen), if v.Lit? then v.x else Nil
  {
    var vs := Elements(h, v, seen).value;
    match v
    case Lit(Pair(_, d)) =>
      ElementsList(h, Lit(d), seen);
      assert vs[1..] == Elements(h, Lit(d), seen).value;
    case PairRef(id) =>
      assert id in Unseen(h, seen) && Unseen(h, seen + {id}) <= Unseen(h, seen) && id !in Unseen(h, seen + {id});
      ElementsList(h, h.pairs[id].1, seen + {id});
      assert vs[1..] == Elements(h, h.pairs[id].1, seen + {id}).value;
    case _ =>
  }

  /** `vector_from_list` finds elements exactly where following cdrs does; whatever is circular or dotted is
      an error. */
  lemma ElementsExact(h: Heap, v: Value, vs: seq<Value>)
    ensures Elements(h, v, {}) == Some(vs) <==> IsList(h, v, vs)
  {
    if IsList(h, v, vs) {
      ListIsElements(h, v, vs, {});
    }
    if Elements(h, v, {}) == Some(vs) {
      ElementsList(h, v, {});
    }
  }

  /** More pairs, and those there were unchanged. */
  predicate Extends(h: Heap, h': Heap) {
    h.pairs <= h'.pairs && h.vecs == h'.vecs
  }

  lemma {:induction false} ListKept(h: Heap, h': Heap, v: Value, vs: seq<Value>)
    requires IsList(h, v, vs) && Extends(h, h')
    ensures IsList(h', v, vs)
    decreases vs
  {
    match v
    case Lit(Pair(_, d)) => ListKept(h, h', Lit(d), vs[1..]);
    case PairRef(id) =>
      assert h'.pairs[id] == h.pairs[id];
      ListKept(h, h', h.pairs[id].1, vs[1..]);
    case _ =>
  }

  /** `list_from_vector` makes a list of just these elements out of as many new pairs. */
  lemma {:induction false} AllocatesList(h: Heap, vs: seq<Value>)
    ensures var (v, h') := AllocateList(h, vs);
            IsList(h', v, vs) && Extends(h, h') && |h'.pairs| == |h.pairs| + |vs|
  {
    if vs != [] {
      AllocatesList(h, vs[1..]);
      var (tail, h1) := AllocateList(h, vs[1..]);
      ListKept(h1, AllocateList(h, vs).1, tail, vs[1..]);
    }
  }

  /** A frame holds what a procedure's parameters stand for: the arguments or, with a rest parameter, the fixed ones
      and a list of the others. */
  predicate Filled(h: Heap, params: seq<Symbol>, rest: Option<Symbol>, args: seq<Value>, frame: seq<Value>) {
    var n := |params|;
    if rest.None? then |args| == n && frame == args
    else |args| >= n && |frame| == n + 1 && frame[..n] == args[..n] && IsList(h, frame[n], args[n..])
  }

  predicate Fits(params: seq<Symbol>, rest: Option<Symbol>, args: seq<Value>) {
    if rest.None? then |args| == |params| else |args| >= |params|
  }

  /** Arguments are bound exactly if there are as many as the procedure takes, and no pair there was is changed. */
  lemma ArgumentsBound(h: Heap, params: seq<Symbol>, rest: Option<Symbol>, args: seq<Value>)
    ensures BindArguments(h, params, rest, args).Some? <==> Fits(params, rest, args)
    ensures Fits(params, rest, args) ==>
              var (frame, h') := BindArguments(h, params, rest, args).value;
              Filled(h', params, rest, args, frame) && Extends(h, h')
  {
    if rest.Some? && |args| >= |params| {
      AllocatesList(h, args[|params|..]);
    }
  }

  /** The machine m' has just entered a closure that m applies to args: with a new frame around the closure's own
      environment and, unless it is a tail call, the registers of m on the dump. */
  ghost predicate Entered(m: State, m': State, clo: MachineClosure, args: seq<Value>, tail: bool) {
    && m'.s == [] && m'.e == [|m.st.frames|] + clo.env && m'.c == clo.body && m'.pc == 0
    && m'.d == (if tail then m.d else Saved(m.s, m.e, m.c, m.pc, m.d))
    && |m'.st.frames| == |m.st.frames| + 1 && m.st.frames <= m'.st.frames
    && Filled(m'.st.heap, clo.params, clo.rest, args, m'.st.frames[|m.st.frames|]) && Extends(m.st.heap, m'.st.heap)
    && m'.st == m.st.(frames := m'.st.frames, heap := m'.st.heap)
  }

  /** Applying a closure is an arity error, or enters it. */
  lemma ClosureEntered(P: Primitives, m: State, id: nat, args: seq<Value>, tail: bool)
    requires id < |m.st.closures|
    ensures var clo, o := m.st.closures[id], Machine.Apply(P, m, Closure(id), args, tail);
            if Fits(clo.params, clo.rest, args) then o.Running? && Entered(m, o.m, clo, args, tail)
            else o == Faulted(ArityMismatch)
  {
    var clo := m.st.closures[id];
    ArgumentsBound(m.st.heap, clo.params, clo.rest, args);
  }
}
