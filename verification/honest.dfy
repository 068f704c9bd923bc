/** Primitives that make up no procedures: with them the direct semantics never reaches a procedure that is not the
    program's. */
module Honesty {
  import opened Wrappers
  import opened Datums
  import Sy = Symbols
  import opened Iteration
  import M = Machine
  import opened Surface
  import opened Direct
  import Meaning
  import R = Reference
  import C = CoreLanguage
  import Agreement
  import Correctness

  /** The procedures in v are among ids. */
  predicate Named(v: Value, ids: set<nat>)
    decreases v
  {
    match v
    case Closure(id) => id in ids
    case ArgList(vs) => forall i :: 0 <= i < |vs| ==> Named(vs[i], ids)
    case _ => true
  }

  predicate AllNamed(vs: seq<Value>, ids: set<nat>) {
    forall i :: 0 <= i < |vs| ==> Named(vs[i], ids)
  }

  predicate HeapNamed(h: M.Heap, ids: set<nat>) {
    && (forall i :: 0 <= i < |h.pairs| ==> Named(h.pairs[i].0, ids) && Named(h.pairs[i].1, ids))
    && (forall i :: 0 <= i < |h.vecs| ==> AllNamed(h.vecs[i], ids))
  }

  /** The procedures in what a primitive answers, and leaves in the heap, were in its arguments or in the heap. */
  ghost predicate Honest(P: M.Primitives) {
    forall name, args, h, ids :: HeapNamed(h, ids) && AllNamed(args, ids) && P(name, args, h).Some? ==>
      Named(P(name, args, h).value.0, ids) && HeapNamed(P(name, args, h).value.1, ids)
  }

  // ---- The procedures of a program ----

  function ProcIds(ps: seq<Proc>): set<nat> {
    set i | 0 <= i < |ps| && ps[i].Proc?
  }

  /** A frame that variables are looked up in. */
  predicate FrameNamed(f: Frame, ids: set<nat>) {
    f.names != [] ==> AllNamed(f.vals, ids)
  }

  predicate GoalNamed(goal: Goal, fs: seq<Frame>) {
    goal.ToLoop? ==> goal.frame < |fs| && fs[goal.frame].names != []
  }

  predicate StepNamed(k: Cont, fs: seq<Frame>, ids: set<nat>) {
    match k
    case Each(done, _, goal, _, _) => AllNamed(done, ids) && GoalNamed(goal, fs)
    case Operating(args, _) => AllNamed(args, ids)
    case _ => true
  }

  predicate ContNamed(k: Cont, fs: seq<Frame>, ids: set<nat>)
    decreases k
  {
    StepNamed(k, fs, ids) && (!k.Finish? ==> ContNamed(k.next, fs, ids))
  }

  ghost predicate MemoryNamed(m: Memory) {
    && (forall i :: 0 <= i < |m.frames| ==> FrameNamed(m.frames[i], ProcIds(m.procs)))
    && (forall x :: x in m.globals ==> Named(m.globals[x], ProcIds(m.procs)))
    && HeapNamed(m.heap, ProcIds(m.procs))
    && (forall i :: 0 <= i < |m.conts| ==> ContNamed(m.conts[i], m.frames, ProcIds(m.procs)))
  }

  ghost predicate ConfigNamed(c: Config) {
    match c
    case Eval(_, _, k, m) => MemoryNamed(m) && ContNamed(k, m.frames, ProcIds(m.procs))
    case Match(v, _, _, k, m) => MemoryNamed(m) && ContNamed(k, m.frames, ProcIds(m.procs)) &&
      Named(v, ProcIds(m.procs))
    case Return(v, k, m) => MemoryNamed(m) && ContNamed(k, m.frames, ProcIds(m.procs)) && Named(v, ProcIds(m.procs))
    case Done(v, m) => MemoryNamed(m) && Named(v, ProcIds(m.procs))
    case Failed(_) => true
    case Forged => false
  }

  // ---- Growth ----

  predicate Kept(fs: seq<Frame>, gs: seq<Frame>) {
    |fs| <= |gs| && forall i :: 0 <= i < |fs| ==> gs[i].names == fs[i].names
  }

  lemma {:induction false} NamedGrows(v: Value, ids: set<nat>, jds: set<nat>)
    requires Named(v, ids) && ids <= jds
    ensures Named(v, jds)
    decreases v
  {
    match v
    case ArgList(vs) =>
      forall i | 0 <= i < |vs| ensures Named(vs[i], jds) {
        NamedGrows(vs[i], ids, jds);
      }
    case _ =>
  }

  lemma AllGrows(vs: seq<Value>, ids: set<nat>, jds: set<nat>)
    requires AllNamed(vs, ids) && ids <= jds
    ensures AllNamed(vs, jds)
  {
    forall i | 0 <= i < |vs| ensures Named(vs[i], jds) {
      NamedGrows(vs[i], ids, jds);
    }
  }

  lemma HeapGrows(h: M.Heap, ids: set<nat>, jds: set<nat>)
    requires HeapNamed(h, ids) && ids <= jds
    ensures HeapNamed(h, jds)
  {
    forall i | 0 <= i < |h.pairs| ensures Named(h.pairs[i].0, jds) && Named(h.pairs[i].1, jds) {
      NamedGrows(h.pairs[i].0, ids, jds);
      NamedGrows(h.pairs[i].1, ids, jds);
    }
    forall i | 0 <= i < |h.vecs| ensures AllNamed(h.vecs[i], jds) {
      AllGrows(h.vecs[i], ids, jds);
    }
  }

  lemma {:induction false} ContGrows(k: Cont, fs: seq<Frame>, ids: set<nat>, gs: seq<Frame>, jds: set<nat>)
    requires ContNamed(k, fs, ids) && Kept(fs, gs) && ids <= jds
    ensures ContNamed(k, gs, jds)
    decreases k
  {
    match k {
      case Each(done, _, _, _, _) => AllGrows(done, ids, jds);
      case Operating(args, _) => AllGrows(args, ids, jds);
      case _ =>
    }
    if !k.Finish? {
      ContGrows(k.next, fs, ids, gs, jds);
    }
  }

  /** Memory with more frames and procedures. */
  lemma MemoryGrows(m: Memory, m': Memory)
    requires MemoryNamed(m) && Kept(m.frames, m'.frames) && m.procs <= m'.procs
    requires m'.heap == m.heap && m'.globals == m.globals && m'.conts == m.conts
    requires forall i :: 0 <= i < |m'.frames| ==> FrameNamed(m'.frames[i], ProcIds(m'.procs))
    ensures MemoryNamed(m')
  {
    var ids, jds := ProcIds(m.procs), ProcIds(m'.procs);
    assert ids <= jds;
    HeapGrows(m.heap, ids, jds);
    forall x | x in m.globals ensures Named(m.globals[x], jds) {
      NamedGrows(m.globals[x], ids, jds);
    }
    forall i | 0 <= i < |m.conts| ensures ContNamed(m.conts[i], m'.frames, jds) {
      ContGrows(m.conts[i], m.frames, ids, m'.frames, jds);
    }
  }

  lemma FramesGrow(m: Memory, jds: set<nat>)
    requires MemoryNamed(m) && ProcIds(m.procs) <= jds
    ensures forall i :: 0 <= i < |m.frames| ==> FrameNamed(m.frames[i], jds)
  {
    forall i | 0 <= i < |m.frames| ensures FrameNamed(m.frames[i], jds) {
      if m.frames[i].names != [] {
        AllGrows(m.frames[i].vals, ProcIds(m.procs), jds);
      }
    }
  }

  /** A new frame and new procedures. */
  lemma Extended(m: Memory, f: Frame, ps: seq<Proc>, k: Cont) returns (m': Memory)
    requires MemoryNamed(m) && ContNamed(k, m.frames, ProcIds(m.procs)) && FrameNamed(f, ProcIds(m.procs + ps))
    ensures m' == m.(frames := m.frames + [f], procs := m.procs + ps)
    ensures MemoryNamed(m') && ContNamed(k, m'.frames, ProcIds(m'.procs)) && ProcIds(m.procs) <= ProcIds(m'.procs)
  {
    m' := m.(frames := m.frames + [f], procs := m.procs + ps);
    FramesGrow(m, ProcIds(m'.procs));
    MemoryGrows(m, m');
    ContGrows(k, m.frames, ProcIds(m.procs), m'.frames, ProcIds(m'.procs));
  }

  // ---- Variables ----

  lemma {:induction false} FindNamed(x: Symbol, scope: Scope, fs: seq<Frame>)
    requires Find(x, scope, fs).Some?
    ensures var (a, j) := Find(x, scope, fs).value; a < |fs| && fs[a].names != []
  {
    if scope[0] >= |fs| || x !in fs[scope[0]].names {
      FindNamed(x, scope[1..], fs);
    }
  }

  lemma AssignedNamed(m: Memory, a: nat, j: nat, v: Value, k: Cont)
    requires MemoryNamed(m) && ContNamed(k, m.frames, ProcIds(m.procs)) && Holds(m, a, j) && Named(v, ProcIds(m.procs))
    ensures MemoryNamed(Assigned(m, a, j, v)) && ContNamed(k, Assigned(m, a, j, v).frames, ProcIds(m.procs))
  {
    var m' := Assigned(m, a, j, v);
    assert m'.procs == m.procs;
    MemoryGrows(m, m');
    ContGrows(k, m.frames, ProcIds(m.procs), m'.frames, ProcIds(m.procs));
  }

  // ---- Lists ----

  lemma {:induction false} ElementsNamed(h: M.Heap, v: Value, seen: set<nat>, ids: set<nat>)
    requires HeapNamed(h, ids) && Named(v, ids) && M.Elements(h, v, seen).Some?
    ensures AllNamed(M.Elements(h, v, seen).value, ids)
    decreases M.Unseen(h, seen), if v.Lit? then v.x else Nil
  {
    match v
    case Lit(Pair(a, d)) => ElementsNamed(h, M.Lit(d), seen, ids);
    case PairRef(id) =>
      assert id in M.Unseen(h, seen) && M.Unseen(h, seen + {id}) <= M.Unseen(h, seen) &&
        id !in M.Unseen(h, seen + {id});
      ElementsNamed(h, h.pairs[id].1, seen + {id}, ids);
    case _ =>
  }

  lemma {:induction false} ListNamed(h: M.Heap, vs: seq<Value>, ids: set<nat>)
    requires HeapNamed(h, ids) && AllNamed(vs, ids)
    ensures Named(M.AllocateList(h, vs).0, ids) && HeapNamed(M.AllocateList(h, vs).1, ids)
  {
    if vs != [] {
      ListNamed(h, vs[1..], ids);
    }
  }

  lemma ArgumentsNamed(h: M.Heap, params: seq<Symbol>, rest: Option<Symbol>, args: seq<Value>, ids: set<nat>)
    requires HeapNamed(h, ids) && AllNamed(args, ids) && M.BindArguments(h, params, rest, args).Some?
    ensures var (vals, h') := M.BindArguments(h, params, rest, args).value; AllNamed(vals, ids) && HeapNamed(h', ids)
  {
    if rest.Some? {
      ListNamed(h, args[|params|..], ids);
    }
  }

  // ---- Steps ----

  lemma ApplyNamed(P: M.Primitives, callee: Value, args: seq<Value>, k: Cont, m: Memory)
    requires Honest(P) && MemoryNamed(m) && ContNamed(k, m.frames, ProcIds(m.procs))
    requires Named(callee, ProcIds(m.procs)) && AllNamed(args, ProcIds(m.procs))
    ensures ConfigNamed(ApplyValue(P, callee, args, k, m))
  {
    match callee
    case Primitive(name) => PrimitiveNamed(P, name, args, k, m);
    case Closure(id) =>
      var p := m.procs[id];
      match M.BindArguments(m.heap, p.params, p.rest, args) {
        case None =>
        case Some((vals, h)) =>
          ArgumentsNamed(m.heap, p.params, p.rest, args, ProcIds(m.procs));
          var m1 := m.(heap := h);
          assert m.procs + [] == m.procs;
          var m2 := Extended(m1, Frame(M.FrameNames(p.params, p.rest), vals), [], k);
      }
    case _ =>
  }

  lemma PrimitiveNamed(P: M.Primitives, name: string, args: seq<Value>, k: Cont, m: Memory)
    requires Honest(P) && MemoryNamed(m) && ContNamed(k, m.frames, ProcIds(m.procs)) && AllNamed(args, ProcIds(m.procs))
    ensures ConfigNamed(CallPrimitive(P, name, args, k, m))
  {
  }

  lemma ReachNamed(P: M.Primitives, goal: Goal, vs: seq<Value>, scope: Scope, k: Cont, m: Memory)
    requires Honest(P) && MemoryNamed(m) && ContNamed(k, m.frames, ProcIds(m.procs))
    requires GoalNamed(goal, m.frames) && AllNamed(vs, ProcIds(m.procs))
    ensures ConfigNamed(Reach(P, goal, vs, scope, k, m))
  {
    match goal
    case ToCall(_, _) =>
    case ToBind(names, body) =>
      AllGrows(vs, ProcIds(m.procs), ProcIds(m.procs + [Unused]));
      var m' := Extended(m, Frame(names, vs), [Unused], k);
    case ToLoop(frame) =>
      if Holds(m, frame, 0) {
        assert FrameNamed(m.frames[frame], ProcIds(m.procs));
        ApplyNamed(P, m.frames[frame].vals[0], vs, k, m);
      }
    case ToRound(loop, outer) =>
      assert m.procs + [] == m.procs;
      var m' := Extended(m, Frame(loop.names, vs), [], k);
    case ToBuild(op) => PrimitiveNamed(P, Sy.Spelling(op), vs, k, m);
  }

  lemma EachNamed(P: M.Primitives, fs: seq<Form>, goal: Goal, scope: Scope, k: Cont, m: Memory)
    requires Honest(P) && MemoryNamed(m) && ContNamed(k, m.frames, ProcIds(m.procs)) && GoalNamed(goal, m.frames)
    ensures ConfigNamed(EvalEach(P, fs, goal, scope, k, m))
  {
    if fs == [] {
      ReachNamed(P, goal, [], scope, k, m);
    }
  }

  /** Forms that open a scope. */
  lemma LoopNamed(P: M.Primitives, f: Form, scope: Scope, k: Cont, m: Memory)
    requires Honest(P) && MemoryNamed(m) && ContNamed(k, m.frames, ProcIds(m.procs)) && f.NamedLet?
    ensures ConfigNamed(EvalStep(P, f, scope, k, m))
  {
    var NamedLet(loop, names, inits, body) := f;
    var p := Proc(names, None, body, [|m.frames|] + scope);
    var vals := [M.Closure(|m.procs| + 1)];
    assert (m.procs + [Unused, p])[|m.procs| + 1] == p;
    var m' := Extended(m, Frame([loop], vals), [Unused, p], k);
    assert m.procs + [Unused] + [p] == m.procs + [Unused, p];
    EachNamed(P, inits, ToLoop(|m.frames|), scope, k, m');
  }

  lemma DoNamed(P: M.Primitives, f: Form, scope: Scope, k: Cont, m: Memory)
    requires Honest(P) && MemoryNamed(m) && ContNamed(k, m.frames, ProcIds(m.procs)) && f.Do?
    ensures ConfigNamed(EvalStep(P, f, scope, k, m))
  {
    var m' := Extended(m, Frame([], [M.Closure(|m.procs| + 1)]), [Unused, Unused], k);
    assert m.procs + [Unused] + [Unused] == m.procs + [Unused, Unused];
    EachNamed(P, f.inits, ToRound(f, scope), scope, k, m');
  }

  lemma LetrecNamed(P: M.Primitives, f: Form, scope: Scope, k: Cont, m: Memory)
    requires Honest(P) && MemoryNamed(m) && ContNamed(k, m.frames, ProcIds(m.procs)) && f.Letrec?
    ensures ConfigNamed(EvalStep(P, f, scope, k, m))
  {
    var m' := Extended(m, Frame(f.names, seq(|f.names|, _ => UNDEFINED)), [Unused], k);
  }

  /** Forms whose parts are evaluated one after the other. */
  lemma PartsNamed(P: M.Primitives, f: Form, scope: Scope, k: Cont, m: Memory)
    requires Honest(P) && MemoryNamed(m) && ContNamed(k, m.frames, ProcIds(m.procs))
    requires f.Call? || f.Let? || f.Build?
    ensures ConfigNamed(EvalStep(P, f, scope, k, m))
  {
    match f
    case Call(operator, args, spread) => EachNamed(P, args, ToCall(operator, spread), scope, k, m);
    case Let(names, inits, body) => EachNamed(P, inits, ToBind(names, body), scope, k, m);
    case Build(op, parts) => EachNamed(P, parts, ToBuild(op), scope, k, m);
  }

  lemma {:induction false} EvalNamed(P: M.Primitives, f: Form, scope: Scope, k: Cont, m: Memory)
    requires Honest(P) && MemoryNamed(m) && ContNamed(k, m.frames, ProcIds(m.procs))
    ensures ConfigNamed(EvalStep(P, f, scope, k, m))
    decreases f
  {
    match f
    case Var(x) =>
      if Find(x, scope, m.frames).Some? {
        FindNamed(x, scope, m.frames);
        assert FrameNamed(m.frames[Find(x, scope, m.frames).value.0], ProcIds(m.procs));
      }
    case Lambda(params, rest, body) => ProcedureNamed(m, Proc(params, rest, body, scope), k);
    case Call(_, _, _) => PartsNamed(P, f, scope, k, m);
    case Let(_, _, _) => PartsNamed(P, f, scope, k, m);
    case Build(_, _) => PartsNamed(P, f, scope, k, m);
    case And(forms) => if |forms| == 1 { EvalNamed(P, forms[0], scope, k, m); }
    case Or(forms) => if |forms| == 1 { EvalNamed(P, forms[0], scope, k, m); }
    case Cond(Otherwise(els)) => EvalNamed(P, els, scope, k, m);
    case NamedLet(_, _, _, _) => LoopNamed(P, f, scope, k, m);
    case Letrec(_, _, _) => LetrecNamed(P, f, scope, k, m);
    case Do(_, _, _, _, _, _) => DoNamed(P, f, scope, k, m);
    case _ =>
  }

  lemma ProcedureNamed(m: Memory, p: Proc, k: Cont)
    requires MemoryNamed(m) && ContNamed(k, m.frames, ProcIds(m.procs)) && p.Proc?
    ensures ConfigNamed(Return(M.Closure(|m.procs|), k, m.(procs := m.procs + [p])))
  {
    var m' := m.(procs := m.procs + [p]);
    assert m'.procs[|m.procs|] == p;
    FramesGrow(m, ProcIds(m'.procs));
    MemoryGrows(m, m');
    ContGrows(k, m.frames, ProcIds(m.procs), m'.frames, ProcIds(m'.procs));
  }

  /** A temporary frame for v. */
  lemma TempNamed(v: Value, w: Value, m: Memory, k: Cont)
    requires MemoryNamed(m) && ContNamed(k, m.frames, ProcIds(m.procs)) && Named(v, ProcIds(m.procs))
    requires Named(w, ProcIds(m.procs))
    ensures var m' := m.Enter([], [v]);
            MemoryNamed(m') && ContNamed(k, m'.frames, ProcIds(m'.procs)) && Named(v, ProcIds(m'.procs)) &&
              Named(w, ProcIds(m'.procs))
  {
    var m' := Extended(m, Frame([], [v]), [Unused], k);
    NamedGrows(v, ProcIds(m.procs), ProcIds(m'.procs));
    NamedGrows(w, ProcIds(m.procs), ProcIds(m'.procs));
  }

  lemma MatchNamed(P: M.Primitives, c: Config)
    requires Honest(P) && ConfigNamed(c) && c.Match?
    ensures ConfigNamed(Next(P, c))
  {
    var ids := ProcIds(c.m.procs);
    if c.choices.Choice? {
      var args := [c.v, M.Lit(c.choices.keys)];
      var memv := Sy.Spelling(Sy.Memv);
      assert AllNamed(args, ids);
      match P(memv, args, c.m.heap)
      case None =>
      case Some((found, h)) =>
        var m' := c.m.(heap := h);
        assert MemoryNamed(m');
        TempNamed(found, c.v, m', c.k);
    }
  }

  lemma AssignReturnNamed(P: M.Primitives, v: Value, k: Cont, m: Memory)
    requires Honest(P) && ConfigNamed(Return(v, k, m)) && (k.Setting? || k.Filling?)
    ensures ConfigNamed(ReturnStep(P, v, k, m))
  {
    match Find(k.name, k.scope, m.frames)
    case None =>
    case Some((a, j)) =>
      if Holds(m, a, j) {
        AssignedNamed(m, a, j, v, k.next);
      }
  }

  lemma EachReturnNamed(P: M.Primitives, v: Value, k: Cont, m: Memory)
    requires k.Each? && Honest(P) && ConfigNamed(Return(v, k, m))
    ensures ConfigNamed(ReturnStep(P, v, k, m))
  {
    var Each(done, todo, goal, scope, next) := k;
    if todo == [] {
      if goal.ToCall? && goal.spread {
        if M.Elements(m.heap, v, {}).Some? {
          ElementsNamed(m.heap, v, {}, ProcIds(m.procs));
          ReachNamed(P, goal, done + M.Elements(m.heap, v, {}).value, scope, next, m);
        }
      } else {
        ReachNamed(P, goal, done + [v], scope, next, m);
      }
    }
  }

  lemma CaptureNamed(P: M.Primitives, v: Value, next: Cont, m: Memory)
    requires Honest(P) && ConfigNamed(Return(v, Capturing(next), m))
    ensures ConfigNamed(ReturnStep(P, v, Capturing(next), m))
  {
    var m' := m.(conts := m.conts + [next]);
    assert MemoryNamed(m');
    ApplyNamed(P, v, [M.Continuation(|m.conts|)], next, m');
  }

  lemma ReturnNamed(P: M.Primitives, v: Value, k: Cont, m: Memory)
    requires Honest(P) && ConfigNamed(Return(v, k, m))
    ensures ConfigNamed(ReturnStep(P, v, k, m))
  {
    match k
    case Each(_, _, _, _, _) => EachReturnNamed(P, v, k, m);
    case Operating(args, next) => ApplyNamed(P, v, args, next, m);
    case Setting(_, _, _) => AssignReturnNamed(P, v, k, m);
    case Filling(_, _, _, _, _, _) => AssignReturnNamed(P, v, k, m);
    case Capturing(next) => CaptureNamed(P, v, next, m);
    case Disjoining(_, _, next) => TempNamed(v, v, m, next);
    case Clausal(_, _, _, next) => TempNamed(v, v, m, next);
    case Selecting(_, _, next) => TempNamed(v, v, m, next);
    case Testing(loop, outer, inner, next) => CommandNamed(P, loop.commands, loop, outer, inner, next, m);
    case Commanding(commands, loop, outer, inner, next) => CommandNamed(P, commands, loop, outer, inner, next, m);
    case _ =>
  }

  lemma CommandNamed(P: M.Primitives, commands: seq<Form>, loop: Loop, outer: Scope, inner: Scope, k: Cont, m: Memory)
    requires Honest(P) && MemoryNamed(m) && ContNamed(k, m.frames, ProcIds(m.procs))
    ensures ConfigNamed(Command(P, commands, loop, outer, inner, k, m))
  {
    if commands == [] {
      EachNamed(P, loop.steps, ToRound(loop, outer), inner, k, m);
    }
  }

  lemma NextNamed(P: M.Primitives, c: Config)
    requires Honest(P) && ConfigNamed(c)
    ensures ConfigNamed(Next(P, c))
  {
    match c
    case Eval(f, scope, k, m) => EvalNamed(P, f, scope, k, m);
    case Match(_, _, _, _, _) => MatchNamed(P, c);
    case Return(v, k, m) => ReturnNamed(P, v, k, m);
    case _ =>
  }

  /** With honest primitives, the exception to DesugaringPreservesMeaning never arises. */
  lemma HonestNeverForges(P: M.Primitives, f: Form, m: Memory, n: nat)
    requires Honest(P) && MemoryNamed(m)
    ensures !Meaning.Steps(P, Meaning.Start(f, m), n).Forged?
  {
    forall c | ConfigNamed(c) ensures ConfigNamed(Meaning.Advance(P)(c)) {
      NextNamed(P, c);
    }
    Invariant(Meaning.Advance(P), c => ConfigNamed(c), Meaning.Start(f, m), n);
  }

  /** With honest primitives, the code compiled for a hygienic program halts with a value if and only if the form that
      the program parses as says that value. */
  lemma HonestlyCompiled(P: M.Primitives, x: Datum, g: nat, f: Form, t: C.Core, v: Value, m: Memory, s: R.RefStore,
                         ms: M.MachineStore)
    requires Honest(P) && MemoryNamed(m) && Meaning.Written(x, g, f, t)
    requires Agreement.MemoryOk(m, s) && Correctness.Ready(s, ms)
    ensures Meaning.Halts(P, Correctness.StartMachine(t, ms), v) <==>
            exists N: nat :: var c := Meaning.Steps(P, Meaning.Start(f, m), N); c.Done? && c.v == v
  {
    var c := Meaning.Start(f, m);
    forall N: nat ensures !Meaning.Steps(P, c, N).Forged? {
      HonestNeverForges(P, f, m, N);
    }
    Meaning.CompilingPreservesMeaning(P, x, g, f, t, v, m, s, ms);
    assert Meaning.Says(P, c, v) <==> exists N: nat :: Meaning.Steps(P, c, N).Done? && Meaning.Steps(P, c, N).v == v;
  }
}
