/** Evaluating what a form became follows the direct evaluation of the form, step by step. */
module DirectSimulation {
  import opened Wrappers
  import opened Datums
  import opened Symbols
  import C = CoreLanguage
  import M = Machine
  import R = Reference
  import opened Surface
  import opened Lowering
  import opened Agreement
  import D = Direct

  /** Some steps of the core evaluation lead from r to a state that corresponds to c. */
  ghost predicate Leads(P: M.Primitives, r: R.Config, c: D.Config) {
    exists n: nat :: ConfigOk(c, R.Steps(P, r, n))
  }

  lemma Now(P: M.Primitives, r: R.Config, c: D.Config)
    requires ConfigOk(c, r)
    ensures Leads(P, r, c)
  {
    assert ConfigOk(c, R.Steps(P, r, 0));
  }

  lemma Later(P: M.Primitives, r: R.Config, c: D.Config)
    requires Leads(P, R.Next(P, r), c)
    ensures Leads(P, r, c)
  {
    var n: nat :| ConfigOk(c, R.Steps(P, R.Next(P, r), n));
    assert R.Advance(P)(r) == R.Next(P, r);
    assert R.Steps(P, r, n + 1) == R.Steps(P, R.Next(P, r), n);
  }

  // ---- Memory ----

  function Closed(s: R.RefStore, c: R.RefClosure): R.RefStore {
    s.(closures := s.closures + [c])
  }

  function Framed(s: R.RefStore, vals: seq<M.Value>): R.RefStore {
    s.(frames := s.frames + [vals])
  }

  lemma MemoryFramed(m: D.Memory, s: R.RefStore, names: seq<Symbol>, vals: seq<M.Value>)
    requires MemoryOk(m, s) && Unrebound(names)
    ensures MemoryOk(m.(frames := m.frames + [D.Frame(names, vals)]), Framed(s, vals))
    ensures Grows(m.frames, s.closures, m.frames + [D.Frame(names, vals)], s.closures)
  {
    StoresGrow(m, s, m.frames + [D.Frame(names, vals)], s.closures);
  }

  lemma MemoryClosed(m: D.Memory, s: R.RefStore, p: D.Proc, c: R.RefClosure)
    requires MemoryOk(m, s) && ProcOk(p, c, m.frames)
    ensures MemoryOk(m.(procs := m.procs + [p]), Closed(s, c))
    ensures Grows(m.frames, s.closures, m.frames, s.closures + [c])
  {
    StoresGrow(m, s, m.frames, s.closures + [c]);
  }

  lemma MemoryEntered(m: D.Memory, s: R.RefStore, names: seq<Symbol>, vals: seq<M.Value>, c: R.RefClosure)
    requires MemoryOk(m, s) && Unrebound(names)
    ensures MemoryOk(m.Enter(names, vals), Framed(Closed(s, c), vals))
    ensures Grows(m.frames, s.closures, m.Enter(names, vals).frames, s.closures + [c])
  {
    MemoryClosed(m, s, D.Unused, c);
    MemoryFramed(m.(procs := m.procs + [D.Unused]), Closed(s, c), names, vals);
  }

  lemma MemoryAssigned(m: D.Memory, s: R.RefStore, a: nat, j: nat, v: M.Value)
    requires MemoryOk(m, s) && D.Holds(m, a, j) && m.frames[a].names != []
    ensures R.InStore(s, a, j)
    ensures MemoryOk(D.Assigned(m, a, j, v), s.(frames := s.frames[a := s.frames[a][j := v]]))
    ensures Grows(m.frames, s.closures, D.Assigned(m, a, j, v).frames, s.closures)
  {
    var gs := D.Assigned(m, a, j, v).frames;
    assert Grows(m.frames, s.closures, gs, s.closures);
    StoresGrow(m, s, gs, s.closures);
  }

  // ---- Calls ----

  lemma ApplyAgrees(P: M.Primitives, callee: M.Value, args: seq<M.Value>, k: D.Cont, rk: R.Kont, m: D.Memory,
                    s: R.RefStore)
    requires Awaits(k, rk, m.frames, s.closures) && MemoryOk(m, s)
    ensures ConfigOk(D.ApplyValue(P, callee, args, k, m), R.Apply(P, callee, args, rk, s))
  {
    if callee.Closure? && callee.id < |m.procs| && m.procs[callee.id].Proc? {
      var p, c := m.procs[callee.id], s.closures[callee.id];
      match M.BindArguments(m.heap, p.params, p.rest, args)
      case None =>
      case Some((vals, h)) =>
        var names := M.FrameNames(p.params, p.rest);
        assert ProcOk(p, c, m.frames);
        Entered(Free(p.body), names, vals, p.scope, c.env, m.frames);
        MemoryFramed(m, s, names, vals);
        var gs := m.frames + [D.Frame(names, vals)];
        AwaitsGrows(k, rk, m.frames, s.closures, gs, s.closures);
    }
  }

  lemma PrimitiveAgrees(P: M.Primitives, name: string, args: seq<M.Value>, k: D.Cont, rk: R.Kont, m: D.Memory,
                        s: R.RefStore)
    requires Awaits(k, rk, m.frames, s.closures) && MemoryOk(m, s)
    ensures ConfigOk(D.CallPrimitive(P, name, args, k, m), R.Apply(P, M.Primitive(name), args, rk, s))
  {
  }

  /** With its arguments ready, the core program's operator does what the goal says. */
  lemma ReachAgrees(P: M.Primitives, goal: D.Goal, vs: seq<M.Value>, scope: D.Scope, k: D.Cont, m: D.Memory,
                    f: Core, spread: bool, env: R.Env, rk: R.Kont, s: R.RefStore)
    requires Aims(goal, f, spread, scope, env, m.frames, s.closures) && (goal.ToCall? || Fitting(goal, |vs|))
    requires Awaits(k, rk, m.frames, s.closures) && MemoryOk(m, s)
    ensures Leads(P, R.Eval(f, env, R.Operator(vs, rk), s), D.Reach(P, goal, vs, scope, k, m))
  {
    var r0 := R.Eval(f, env, R.Operator(vs, rk), s);
    var c := D.Reach(P, goal, vs, scope, k, m);
    UnsealGoal(goal, f, spread, scope, env, m.frames, s.closures);
    match goal
    case ToCall(operator, _) =>
      Unwrap(D.Operating(vs, k), R.Operator(vs, rk), m.frames, s.closures);
      Now(P, r0, c);
    case ToBind(names, body) => BindAgrees(P, names, body, vs, scope, k, m, f, env, rk, s);
    case ToLoop(a) =>
      var r1 := R.Next(P, r0);
      if D.Holds(m, a, 0) {
        ApplyAgrees(P, m.frames[a].vals[0], vs, k, rk, m, s);
        Now(P, R.Next(P, r1), c);
        Later(P, r1, c);
      } else {
        Now(P, r1, c);
      }
      Later(P, r0, c);
    case ToRound(loop, outer) => RoundAgrees(P, loop, outer, vs, scope, k, m, f, env, rk, s);
    case ToBuild(op) =>
      var r1 := R.Next(P, r0);
      assert UsualAt(m.globals, op);
      PrimitiveAgrees(P, Spelling(op), vs, k, rk, m, s);
      Now(P, R.Next(P, r1), c);
      Later(P, r1, c);
      Later(P, r0, c);
  }

  /** The operator of a let is a procedure, which is entered at once. */
  lemma BindAgrees(P: M.Primitives, names: seq<Symbol>, body: Form, vs: seq<M.Value>, scope: D.Scope, k: D.Cont,
                   m: D.Memory,
                   f: Core, env: R.Env, rk: R.Kont, s: R.RefStore)
    requires Aims(D.ToBind(names, body), f, false, scope, env, m.frames, s.closures) && |vs| == |names|
    requires Awaits(k, rk, m.frames, s.closures) && MemoryOk(m, s)
    ensures Leads(P, R.Eval(f, env, R.Operator(vs, rk), s), D.Eval(body, [|m.frames|] + scope, k, m.Enter(names, vs)))
  {
    UnsealGoal(D.ToBind(names, body), f, false, scope, env, m.frames, s.closures);
    var r0 := R.Eval(f, env, R.Operator(vs, rk), s);
    var c := D.Eval(body, [|m.frames|] + scope, k, m.Enter(names, vs));
    var clo := R.RefClosure(names, None, f.body, env);
    var r1 := R.Next(P, r0);
    assert r1 == R.Return(M.Closure(|s.closures|), R.Operator(vs, rk), Closed(s, clo));
    var r2 := R.Next(P, r1);
    assert r2 == R.Eval(f.body, [R.Rib(names, |s.frames|)] + env, rk, Framed(Closed(s, clo), vs));
    Entered(Free(body), names, vs, scope, env, m.frames);
    MemoryEntered(m, s, names, vs, clo);
    AwaitsGrows(k, rk, m.frames, s.closures, m.Enter(names, vs).frames, s.closures + [clo]);
    Now(P, r2, c);
    Later(P, r1, c);
    Later(P, r0, c);
  }

  /** The operator of a do's loop is the procedure in its hidden frame. */
  lemma RoundAgrees(P: M.Primitives, loop: D.Loop, outer: D.Scope, vs: seq<M.Value>, scope: D.Scope, k: D.Cont,
                    m: D.Memory,
                    f: Core, env: R.Env, rk: R.Kont, s: R.RefStore)
    requires Aims(D.ToRound(loop, outer), f, false, scope, env, m.frames, s.closures) && |vs| == |loop.names|
    requires Awaits(k, rk, m.frames, s.closures) && MemoryOk(m, s)
    ensures Leads(P, R.Eval(f, env, R.Operator(vs, rk), s), D.Reach(P, D.ToRound(loop, outer), vs, scope, k, m))
  {
    UnsealGoal(D.ToRound(loop, outer), f, false, scope, env, m.frames, s.closures);
    var r0 := R.Eval(f, env, R.Operator(vs, rk), s);
    var c := D.Reach(P, D.ToRound(loop, outer), vs, scope, k, m);
    var (a, _) := R.Lookup(f.name, env).value;
    var L := m.frames[a].vals[0];
    var clo := s.closures[L.id];
    var r1 := R.Next(P, r0);
    assert r1 == R.Return(L, R.Operator(vs, rk), s);
    var r2 := R.Next(P, r1);
    var env' := [R.Rib(loop.names, |s.frames|)] + clo.env;
    assert r2 == R.Eval(clo.body, env', rk, Framed(s, vs));
    var r3 := R.Next(P, r2);
    assert r3 == R.Eval(clo.body.cond, env', R.Branch(clo.body.thn, clo.body.els, env', rk), Framed(s, vs));
    RoundStarts(loop, outer, f.name, vs, k, m, env, rk, s);
    Now(P, r3, c);
    Later(P, r2, c);
    Later(P, r1, c);
    Later(P, r0, c);
  }

  /** A round begins in a state that corresponds: the loop's name, hidden below its variables, still denotes
      the loop. */
  /** In a round, the loop's name still denotes the loop. */
  lemma RoundLoops(loop: D.Loop, outer: D.Scope, name: Symbol, env: R.Env, a: nat, clo: R.RefClosure, env': R.Env,
                   fs: Frames, gs: Frames, at: nat, cs: Closures)
    requires LoopOk(loop, outer, name, env, fs, cs) && R.Lookup(name, env).value.0 == a
    requires clo == cs[fs[a].vals[0].id] && env' == [R.Rib(loop.names, at)] + clo.env && Grows(fs, cs, gs, cs)
    ensures LoopOk(loop, outer, name, env', gs, cs)
  {
    assert RoundOk(loop, outer, name, a, clo, fs);
    assert env'[1..] == clo.env;
    assert R.Lookup(name, env') == Some((a, 0));
    LoopGrows(loop, outer, name, env, fs, cs, gs, cs);
  }

  lemma RoundRest(loop: D.Loop, outer: D.Scope, inner: D.Scope, name: Symbol, t: Core, env: R.Env, fs: Frames,
                  cs: Closures)
    requires LoopOk(loop, outer, name, env, fs, cs) && RoundBecomes(loop, name, t, loop.commands)
    requires Agree(RoundFree(loop), inner, env, fs)
    ensures RestOk(loop.commands, loop, outer, inner, t, env, fs, cs)
  {
  }

  lemma RoundStarts(loop: D.Loop, outer: D.Scope, name: Symbol, vs: seq<M.Value>, k: D.Cont, m: D.Memory,
                    env: R.Env, rk: R.Kont, s: R.RefStore)
    requires LoopOk(loop, outer, name, env, m.frames, s.closures)
    requires Awaits(k, rk, m.frames, s.closures) && MemoryOk(m, s)
    ensures var clo := s.closures[m.frames[R.Lookup(name, env).value.0].vals[0].id];
            var env' := [R.Rib(loop.names, |s.frames|)] + clo.env;
            var m' := m.(frames := m.frames + [D.Frame(loop.names, vs)]);
            var inner := [|m.frames|] + outer;
            && Agree(Free(loop.test), inner, env', m'.frames) && MemoryOk(m', Framed(s, vs))
            && Awaits(D.Testing(loop, outer, inner, k), R.Branch(clo.body.thn, clo.body.els, env', rk), m'.frames,
                      s.closures)
  {
    var a := R.Lookup(name, env).value.0;
    var clo := s.closures[m.frames[a].vals[0].id];
    assert RoundOk(loop, outer, name, a, clo, m.frames);
    var env' := [R.Rib(loop.names, |s.frames|)] + clo.env;
    var m' := m.(frames := m.frames + [D.Frame(loop.names, vs)]);
    var inner := [|m.frames|] + outer;
    MemoryFramed(m, s, loop.names, vs);
    Entered(RoundFree(loop), loop.names, vs, outer, clo.env, m.frames);
    AwaitsGrows(k, rk, m.frames, s.closures, m'.frames, s.closures);
    RoundLoops(loop, outer, name, env, a, clo, env', m.frames, m'.frames, |s.frames|, s.closures);
    RoundRest(loop, outer, inner, name, clo.body.els, env', m'.frames, s.closures);
    Unwrap(D.Testing(loop, outer, inner, k), R.Branch(clo.body.thn, clo.body.els, env', rk), m'.frames, s.closures);
  }

  lemma FirstOfAll(fs: seq<Form>, ts: seq<Core>, scope: D.Scope, env: R.Env, frames: Frames)
    requires fs != [] && BecomesAll(fs, ts) && Agree(FreeAll(fs), scope, env, frames)
    ensures Becomes(fs[0], ts[0]) && Agree(Free(fs[0]), scope, env, frames)
    ensures BecomesAll(fs[1..], ts[1..]) && Agree(FreeAll(fs[1..]), scope, env, frames)
  {
  }

  lemma EachAwaits(done: seq<M.Value>, fs: seq<Form>, goal: D.Goal, scope: D.Scope, k: D.Cont, f: Core, ts: seq<Core>,
                   spread: bool, env: R.Env, rk: R.Kont, frames: Frames, cs: Closures)
    requires BecomesAll(fs, ts) && Agree(FreeAll(fs), scope, env, frames) && Fitting(goal, |done| + 1 + |fs|)
    requires Aims(goal, f, spread, scope, env, frames, cs) && Awaits(k, rk, frames, cs)
    ensures Awaits(D.Each(done, fs, goal, scope, k), R.Argument(done, ts, f, spread, env, rk), frames, cs)
  {
    var k', rk' := D.Each(done, fs, goal, scope, k), R.Argument(done, ts, f, spread, env, rk);
    assert HeadOk(k', rk', frames, cs);
    Unwrap(k', rk', frames, cs);
  }

  /** The first of a list of forms, while the others wait. */
  lemma EachWaits(done: seq<M.Value>, fs: seq<Form>, goal: D.Goal, scope: D.Scope, k: D.Cont, m: D.Memory,
                  f: Core, ts: seq<Core>, spread: bool, env: R.Env, rk: R.Kont, s: R.RefStore)
    requires fs != [] && BecomesAll(fs, ts) && Agree(FreeAll(fs), scope, env, m.frames) && Fitting(goal, |done| + |fs|)
    requires Aims(goal, f, spread, scope, env, m.frames, s.closures) && Awaits(k, rk, m.frames, s.closures)
    ensures Becomes(fs[0], ts[0]) && Agree(Free(fs[0]), scope, env, m.frames)
    ensures Awaits(D.Each(done, fs[1..], goal, scope, k), R.Argument(done, ts[1..], f, spread, env, rk), m.frames,
              s.closures)
  {
    FirstOfAll(fs, ts, scope, env, m.frames);
    EachAwaits(done, fs[1..], goal, scope, k, f, ts[1..], spread, env, rk, m.frames, s.closures);
  }

  /** A list of forms is evaluated from left to right on both sides. */
  lemma EachAgrees(P: M.Primitives, fs: seq<Form>, goal: D.Goal, scope: D.Scope, k: D.Cont, m: D.Memory,
                   f: Core, ts: seq<Core>, spread: bool, env: R.Env, rk: R.Kont, s: R.RefStore)
    requires BecomesAll(fs, ts) && Agree(FreeAll(fs), scope, env, m.frames) && Fitting(goal, |fs|)
    requires (spread ==> fs != [])
    requires Aims(goal, f, spread, scope, env, m.frames, s.closures)
    requires Awaits(k, rk, m.frames, s.closures) && MemoryOk(m, s)
    ensures Leads(P, R.StartCall(f, ts, spread, env, rk, s), D.EvalEach(P, fs, goal, scope, k, m))
  {
    if fs == [] {
      ReachAgrees(P, goal, [], scope, k, m, f, spread, env, rk, s);
    } else {
      EachWaits([], fs, goal, scope, k, m, f, ts, spread, env, rk, s);
      Now(P, R.Eval(ts[0], env, R.Argument([], ts[1..], f, spread, env, rk), s),
          D.Eval(fs[0], scope, D.Each([], fs[1..], goal, scope, k), m));
    }
  }

  lemma EachReturns(P: M.Primitives, v: M.Value, k: D.Cont, m: D.Memory, rk: R.Kont, s: R.RefStore)
    requires k.Each? && Awaits(k, rk, m.frames, s.closures) && MemoryOk(m, s)
    ensures Leads(P, R.ReturnStep(P, v, rk, s), D.ReturnStep(P, v, k, m))
  {
    var r, c := R.ReturnStep(P, v, rk, s), D.ReturnStep(P, v, k, m);
    var Each(done, todo, goal, scope, next) := k;
    Unwrap(k, rk, m.frames, s.closures);
    UnsealGoal(goal, rk.f, rk.spread, scope, rk.env, m.frames, s.closures);
    if todo != [] {
      EachWaits(done + [v], todo, goal, scope, next, m, rk.f, rk.todo, rk.spread, rk.env, rk.next, s);
      Now(P, r, c);
    } else if goal.ToCall? && goal.spread {
      match M.Elements(m.heap, v, {})
      case None => Now(P, r, c);
      case Some(vs) => ReachAgrees(P, goal, done + vs, scope, next, m, rk.f, rk.spread, rk.env, rk.next, s);
    } else {
      ReachAgrees(P, goal, done + [v], scope, next, m, rk.f, rk.spread, rk.env, rk.next, s);
    }
  }

  // ---- Evaluating a form ----

  lemma UndefinedFound(xs: set<Symbol>, scope: D.Scope, env: R.Env, m: D.Memory, s: R.RefStore)
    requires Agree(xs, scope, env, m.frames) && Known(Undef) in xs && MemoryOk(m, s)
    ensures R.Lookup(Known(Undef), env) == None
    ensures Known(Undef) in s.globals && s.globals[Known(Undef)] == D.UNDEFINED
  {
    StandardUnbound(Known(Undef), scope, m.frames);
    assert UsualAt(m.globals, Undef);
  }

  /** Operands that are all `:undef` take no effect. */
  lemma {:induction false} UndefinedArguments(P: M.Primitives, done: seq<M.Value>, n: nat, f: Core, env: R.Env,
                                              rk: R.Kont, s: R.RefStore, c: D.Config)
    requires R.Lookup(Known(Undef), env) == None
    requires Known(Undef) in s.globals && s.globals[Known(Undef)] == D.UNDEFINED
    requires Leads(P, R.Eval(f, env, R.Operator(done + seq(n + 1, _ => D.UNDEFINED), rk), s), c)
    ensures Leads(P, R.Eval(UNDEFINED, env, R.Argument(done, seq(n, _ => UNDEFINED), f, false, env, rk), s), c)
    decreases n
  {
    var todo := seq(n, _ => UNDEFINED);
    var k := R.Argument(done, todo, f, false, env, rk);
    var r0 := R.Eval(UNDEFINED, env, k, s);
    var r1 := R.Next(P, r0);
    assert r1 == R.Return(D.UNDEFINED, k, s);
    var r2 := R.Next(P, r1);
    if n == 0 {
      assert todo == [];
      assert done + seq(1, _ => D.UNDEFINED) == done + [D.UNDEFINED];
      assert r2 == R.Eval(f, env, R.Operator(done + [D.UNDEFINED], rk), s);
    } else {
      assert todo[1..] == seq(n - 1, _ => UNDEFINED);
      assert done + seq(n + 1, _ => D.UNDEFINED) == (done + [D.UNDEFINED]) + seq(n, _ => D.UNDEFINED);
      UndefinedArguments(P, done + [D.UNDEFINED], n - 1, f, env, rk, s, c);
      assert r2 == R.Eval(UNDEFINED, env,
                          R.Argument(done + [D.UNDEFINED], seq(n - 1, _ => UNDEFINED), f, false, env, rk), s);
    }
    Later(P, r1, c);
    Later(P, r0, c);
  }

  /** Applying a lambda expression to values enters its body. */
  lemma Enters(P: M.Primitives, f: Core, vs: seq<M.Value>, env: R.Env, rk: R.Kont, s: R.RefStore, c: D.Config)
    requires f.Fun? && f.rest.None? && |vs| == |f.params|
    requires Leads(P, R.Eval(f.body, [R.Rib(f.params, |s.frames|)] + env, rk,
                             Framed(Closed(s, R.RefClosure(f.params, None, f.body, env)), vs)), c)
    ensures Leads(P, R.Eval(f, env, R.Operator(vs, rk), s), c)
  {
    var clo := R.RefClosure(f.params, None, f.body, env);
    var r0 := R.Eval(f, env, R.Operator(vs, rk), s);
    var r1 := R.Next(P, r0);
    assert r1 == R.Return(M.Closure(|s.closures|), R.Operator(vs, rk), Closed(s, clo));
    assert R.Next(P, r1) == R.Eval(f.body, [R.Rib(f.params, |s.frames|)] + env, rk, Framed(Closed(s, clo), vs));
    Later(P, r1, c);
    Later(P, r0, c);
  }

  /** The first variable of a letrec awaits its value. */
  lemma FillWaits(names: seq<Symbol>, inits: seq<Form>, body: Form, scope: D.Scope, k: D.Cont, m: D.Memory,
                  t: Core, env: R.Env, rk: R.Kont, s: R.RefStore)
    requires names != [] && FillOk(names, inits, body, scope, t, env, m.frames)
    requires BecomesFill(names, inits, t) && Becomes(body, Bottom(|names|, t))
    requires Awaits(k, rk, m.frames, s.closures)
    ensures inits != [] && t.Then? && t.first.Assign? && t.first.name == names[0] && Becomes(inits[0], t.first.rhs)
    ensures Agree(Free(inits[0]), scope, env, m.frames)
    ensures Awaits(D.Filling(names[0], names[1..], inits[1..], body, scope, k),
                   R.Assigning(names[0], env, R.Continue(t.second, env, rk)), m.frames, s.closures)
  {
    assert names == [names[0]] + names[1..];
    var waiting := R.Assigning(names[0], env, R.Continue(t.second, env, rk));
    var k' := D.Filling(names[0], names[1..], inits[1..], body, scope, k);
    assert HeadOk(k', waiting, m.frames, s.closures);
    Unwrap(k', waiting, m.frames, s.closures);
  }

  lemma FillAgrees(P: M.Primitives, names: seq<Symbol>, inits: seq<Form>, body: Form, scope: D.Scope, k: D.Cont,
                   m: D.Memory,
                   t: Core, env: R.Env, rk: R.Kont, s: R.RefStore)
    requires FillOk(names, inits, body, scope, t, env, m.frames)
    requires BecomesFill(names, inits, t) && Becomes(body, Bottom(|names|, t))
    requires Awaits(k, rk, m.frames, s.closures) && MemoryOk(m, s)
    ensures Leads(P, R.Eval(t, env, rk, s), D.Fill(names, inits, body, scope, k, m))
  {
    var r0, c := R.Eval(t, env, rk, s), D.Fill(names, inits, body, scope, k, m);
    if names == [] {
      Now(P, r0, c);
    } else {
      FillWaits(names, inits, body, scope, k, m, t, env, rk, s);
      var waiting := R.Assigning(names[0], env, R.Continue(t.second, env, rk));
      Now(P, R.Eval(t.first.rhs, env, waiting, s), c);
      AssignFirst(P, t, env, rk, s, c);
    }
  }

  lemma AssignFirst(P: M.Primitives, t: Core, env: R.Env, rk: R.Kont, s: R.RefStore, c: D.Config)
    requires t.Then? && t.first.Assign?
    requires Leads(P, R.Eval(t.first.rhs, env, R.Assigning(t.first.name, env, R.Continue(t.second, env, rk)), s), c)
    ensures Leads(P, R.Eval(t, env, rk, s), c)
  {
    Later(P, R.Eval(t.first, env, R.Continue(t.second, env, rk), s), c);
    Later(P, R.Eval(t, env, rk, s), c);
  }

  /** What a letrec becomes. */
  predicate IsLetrec(names: seq<Symbol>, inits: seq<Form>, t: Core) {
    && t.Call? && t.f.Fun? && t.f.params == names && t.f.rest.None? && Unrebound(names)
    && |names| == |inits| && t.args == seq(|names|, _ => UNDEFINED)
  }

  lemma LetrecShape(names: seq<Symbol>, inits: seq<Form>, body: Form, t: Core)
    requires Lowers(Form.Letrec(names, inits, body), t)
    ensures IsLetrec(names, inits, t) && BecomesFill(names, inits, t.f.body) && Becomes(body, Bottom(|names|, t.f.body))
  {
    Unseal(body, Bottom(|names|, t.f.body));
    UnsealFill(names, inits, t.f.body);
  }

  /** A letrec's scope, its variables still undefined. */
  lemma LetrecEnters(P: M.Primitives, names: seq<Symbol>, inits: seq<Form>, body: Form, scope: D.Scope, k: D.Cont,
                     m: D.Memory,
                     t: Core, env: R.Env, rk: R.Kont, s: R.RefStore)
    requires IsLetrec(names, inits, t) && BecomesFill(names, inits, t.f.body)
    requires Becomes(body, Bottom(|names|, t.f.body))
    requires Agree(FreeAll(inits) + Free(body) - Elems(names) + {Known(Undef)}, scope, env, m.frames)
    requires Awaits(k, rk, m.frames, s.closures) && MemoryOk(m, s)
    ensures var us := seq(|names|, _ => D.UNDEFINED);
            Leads(P, R.Eval(t.f, env, R.Operator(us, rk), s),
                  D.Fill(names, inits, body, [|m.frames|] + scope, k, m.Enter(names, us)))
  {
    var us := seq(|names|, _ => D.UNDEFINED);
    var clo := R.RefClosure(names, None, t.f.body, env);
    MemoryEntered(m, s, names, us, clo);
    var m', scope' := m.Enter(names, us), [|m.frames|] + scope;
    var s', env' := Framed(Closed(s, clo), us), [R.Rib(names, |s.frames|)] + env;
    AwaitsGrows(k, rk, m.frames, s.closures, m'.frames, s'.closures);
    Entered(Elems(names) + FreeAll(inits) + Free(body), names, us, scope, env, m.frames);
    FillAgrees(P, names, inits, body, scope', k, m', t.f.body, env', rk, s');
    Enters(P, t.f, us, env, rk, s, D.Fill(names, inits, body, scope', k, m'));
  }

  /** The call of a letrec's procedure, with n + 1 undefined values. */
  lemma FirstUndefined(P: M.Primitives, n: nat, t: Core, env: R.Env, rk: R.Kont, s: R.RefStore, c: D.Config)
    requires t.Call? && t.args == seq(n + 1, _ => UNDEFINED)
    requires R.Lookup(Known(Undef), env) == None
    requires Known(Undef) in s.globals && s.globals[Known(Undef)] == D.UNDEFINED
    requires Leads(P, R.Eval(t.f, env, R.Operator(seq(n + 1, _ => D.UNDEFINED), rk), s), c)
    ensures Leads(P, R.EvalStep(t, env, rk, s), c)
  {
    assert t.args[1..] == seq(n, _ => UNDEFINED);
    assert [] + seq(n + 1, _ => D.UNDEFINED) == seq(n + 1, _ => D.UNDEFINED);
    UndefinedArguments(P, [], n, t.f, env, rk, s, c);
  }

  lemma LetrecSays(P: M.Primitives, names: seq<Symbol>, inits: seq<Form>, body: Form, scope: D.Scope, k: D.Cont,
                   m: D.Memory)
    ensures D.EvalStep(P, Form.Letrec(names, inits, body), scope, k, m) ==
            D.Fill(names, inits, body, [|m.frames|] + scope, k, m.Enter(names, seq(|names|, _ => D.UNDEFINED)))
  {
  }

  lemma LetrecAgrees(P: M.Primitives, names: seq<Symbol>, inits: seq<Form>, body: Form, scope: D.Scope, k: D.Cont,
                     m: D.Memory,
                     t: Core, env: R.Env, rk: R.Kont, s: R.RefStore)
    requires IsLetrec(names, inits, t) && BecomesFill(names, inits, t.f.body)
    requires Becomes(body, Bottom(|names|, t.f.body))
    requires Agree(FreeAll(inits) + Free(body) - Elems(names) + {Known(Undef)}, scope, env, m.frames)
    requires Awaits(k, rk, m.frames, s.closures) && MemoryOk(m, s)
    ensures Leads(P, R.EvalStep(t, env, rk, s), D.EvalStep(P, Form.Letrec(names, inits, body), scope, k, m))
  {
    var n := |names|;
    var us := seq(n, _ => D.UNDEFINED);
    var c := D.Fill(names, inits, body, [|m.frames|] + scope, k, m.Enter(names, us));
    LetrecSays(P, names, inits, body, scope, k, m);
    UndefinedFound(FreeAll(inits) + Free(body) - Elems(names) + {Known(Undef)}, scope, env, m, s);
    LetrecEnters(P, names, inits, body, scope, k, m, t, env, rk, s);
    if n > 0 {
      FirstUndefined(P, n - 1, t, env, rk, s, c);
    } else {
      assert us == [];
    }
  }

  // ---- Loops ----

  function LoopEnv(t: Core, env: R.Env, s: R.RefStore): R.Env
    requires t.Call? && t.f.Fun?
  {
    [R.Rib(t.f.params, |s.frames|)] + env
  }

  /** The closure of a loop's procedure. */
  function LoopClosure(t: Core, loop: Symbol, names: seq<Symbol>, env: R.Env, s: R.RefStore): R.RefClosure
    requires IsLoop(t, loop, names)
  {
    R.RefClosure(names, None, LoopBody(t), LoopEnv(t, env, s))
  }

  /** The store once a loop's procedure is made, its name bound to it. */
  function LoopStore(t: Core, loop: Symbol, names: seq<Symbol>, env: R.Env, s: R.RefStore): R.RefStore
    requires IsLoop(t, loop, names)
  {
    var s' := Closed(Closed(s, R.RefClosure([loop], None, t.f.body, env)), LoopClosure(t, loop, names, env, s));
    Framed(s', [M.Closure(|s.closures| + 1)])
  }

  /** Up to the evaluation of its initial values, all that a loop does is make its procedure and name it. */
  lemma LoopMakes(P: M.Primitives, t: Core, loop: Symbol, names: seq<Symbol>, env: R.Env, rk: R.Kont, s: R.RefStore,
                  c: D.Config)
    requires IsLoop(t, loop, names) && R.Lookup(Known(Undef), env) == None
    requires Known(Undef) in s.globals && s.globals[Known(Undef)] == D.UNDEFINED
    requires Leads(P, R.StartCall(C.Ref(loop), LoopInits(t), false, LoopEnv(t, env, s), rk,
                                  LoopStore(t, loop, names, env, s)), c)
    ensures Leads(P, R.EvalStep(t, env, rk, s), c)
  {
    LoopNames(P, t, loop, names, env, rk, s, c);
    Enters(P, t.f, [D.UNDEFINED], env, rk, s, c);
    OneUndefined(P, t.f, env, rk, s, c);
    assert t.args[1..] == [];
  }

  lemma OneUndefined(P: M.Primitives, f: Core, env: R.Env, rk: R.Kont, s: R.RefStore, c: D.Config)
    requires R.Lookup(Known(Undef), env) == None
    requires Known(Undef) in s.globals && s.globals[Known(Undef)] == D.UNDEFINED
    requires Leads(P, R.Eval(f, env, R.Operator([D.UNDEFINED], rk), s), c)
    ensures Leads(P, R.Eval(UNDEFINED, env, R.Argument([], [], f, false, env, rk), s), c)
  {
    assert [] + seq(1, _ => D.UNDEFINED) == [D.UNDEFINED];
    assert seq(0, _ => UNDEFINED) == [];
    UndefinedArguments(P, [], 0, f, env, rk, s, c);
  }

  lemma LoopNames(P: M.Primitives, t: Core, loop: Symbol, names: seq<Symbol>, env: R.Env, rk: R.Kont, s: R.RefStore,
                  c: D.Config)
    requires IsLoop(t, loop, names)
    requires Leads(P, R.StartCall(C.Ref(loop), LoopInits(t), false, LoopEnv(t, env, s), rk,
                                  LoopStore(t, loop, names, env, s)), c)
    ensures Leads(P, R.Eval(t.f.body, LoopEnv(t, env, s), rk,
                            Framed(Closed(s, R.RefClosure([loop], None, t.f.body, env)), [D.UNDEFINED])), c)
  {
    var env', body := LoopEnv(t, env, s), t.f.body;
    var s1 := Framed(Closed(s, R.RefClosure([loop], None, body, env)), [D.UNDEFINED]);
    var r1 := R.Eval(body, env', rk, s1);
    var k2 := R.Continue(body.second, env', rk);
    var r2 := R.Next(P, r1);
    assert r2 == R.Eval(body.first, env', k2, s1);
    var r3 := R.Next(P, r2);
    assert r3 == R.Eval(body.first.rhs, env', R.Assigning(loop, env', k2), s1);
    var r4 := R.Next(P, r3);
    var s4 := Closed(s1, LoopClosure(t, loop, names, env, s));
    var L := M.Closure(|s1.closures|);
    assert r4 == R.Return(L, R.Assigning(loop, env', k2), s4);
    LoopAssigned(P, t, loop, names, env, rk, s, c);
    Later(P, r3, c);
    Later(P, r2, c);
    Later(P, r1, c);
  }

  /** The loop's procedure becomes the value of its name. */
  lemma LoopAssigned(P: M.Primitives, t: Core, loop: Symbol, names: seq<Symbol>, env: R.Env, rk: R.Kont, s: R.RefStore,
                     c: D.Config)
    requires IsLoop(t, loop, names)
    requires Leads(P, R.StartCall(C.Ref(loop), LoopInits(t), false, LoopEnv(t, env, s), rk,
                                  LoopStore(t, loop, names, env, s)), c)
    ensures var env', body := LoopEnv(t, env, s), t.f.body;
            var s1 := Framed(Closed(s, R.RefClosure([loop], None, body, env)), [D.UNDEFINED]);
            Leads(P, R.Return(M.Closure(|s1.closures|), R.Assigning(loop, env', R.Continue(body.second, env', rk)),
                              Closed(s1, LoopClosure(t, loop, names, env, s))), c)
  {
    var env', body, a, L := LoopEnv(t, env, s), t.f.body, |s.frames|, M.Closure(|s.closures| + 1);
    var s1 := Framed(Closed(s, R.RefClosure([loop], None, body, env)), [D.UNDEFINED]);
    var s4 := Closed(s1, LoopClosure(t, loop, names, env, s));
    var k2 := R.Continue(body.second, env', rk);
    var r4, s5 := R.Return(L, R.Assigning(loop, env', k2), s4), LoopStore(t, loop, names, env, s);
    assert s5 == s4.(frames := s4.frames[a := [L]]);
    assert R.Lookup(loop, env') == Some((a, 0)) && s4.frames[a] == [D.UNDEFINED];
    AssignOne(P, L, loop, env', k2, s4, a, D.UNDEFINED);
    Later(P, R.Eval(body.second, env', rk, s5), c);
    Later(P, R.Return(L, k2, s5), c);
    Later(P, r4, c);
  }

  /** The variable of a frame of one is assigned. */
  lemma AssignOne(P: M.Primitives, v: M.Value, x: Symbol, env: R.Env, k: R.Kont, s: R.RefStore, a: nat, w: M.Value)
    requires R.Lookup(x, env) == Some((a, 0)) && a < |s.frames| && s.frames[a] == [w]
    ensures R.Next(P, R.Return(v, R.Assigning(x, env, k), s)) == R.Return(v, k, s.(frames := s.frames[a := [v]]))
  {
    assert [w][0 := v] == [v];
  }

  /** The stores after a loop has made its procedure correspond; `own` holds the loop's name, or nothing for a do. */
  lemma MemoryLooped(m: D.Memory, s: R.RefStore, t: Core, loop: Symbol, names: seq<Symbol>, env: R.Env,
                     own: seq<Symbol>, p: D.Proc)
    returns (m': D.Memory)
    requires MemoryOk(m, s) && IsLoop(t, loop, names) && Unrebound(own)
    requires ProcOk(p, LoopClosure(t, loop, names, env, s), m.frames + [D.Frame(own, [M.Closure(|m.procs| + 1)])])
    ensures var e := m.Enter(own, [M.Closure(|m.procs| + 1)]);
            m' == e.(procs := e.procs + [p])
    ensures var s' := LoopStore(t, loop, names, env, s);
            MemoryOk(m', s') && Grows(m.frames, s.closures, m'.frames, s'.closures)
  {
    var L := M.Closure(|m.procs| + 1);
    var clo := R.RefClosure([loop], None, t.f.body, env);
    MemoryEntered(m, s, own, [L], clo);
    var e, s1 := m.Enter(own, [L]), Framed(Closed(s, clo), [L]);
    MemoryClosed(e, s1, p, LoopClosure(t, loop, names, env, s));
    m' := e.(procs := e.procs + [p]);
    assert Closed(s1, LoopClosure(t, loop, names, env, s)) == LoopStore(t, loop, names, env, s);
  }

  lemma NamedLetAgrees(P: M.Primitives, f: Form, scope: D.Scope, k: D.Cont, m: D.Memory, t: Core, env: R.Env,
                       rk: R.Kont, s: R.RefStore)
    requires f.NamedLet? && Lowers(f, t) && Agree(Free(f), scope, env, m.frames)
    requires Awaits(k, rk, m.frames, s.closures) && MemoryOk(m, s)
    ensures Leads(P, R.EvalStep(t, env, rk, s), D.EvalStep(P, f, scope, k, m))
  {
    var NamedLet(loop, names, inits, body) := f;
    var c := D.EvalStep(P, f, scope, k, m);
    var own := [|m.frames|] + scope;
    var vals := [M.Closure(|m.procs| + 1)];
    var fs := m.frames + [D.Frame([loop], vals)];
    var env', s' := LoopEnv(t, env, s), LoopStore(t, loop, names, env, s);
    UndefinedFound(Free(f), scope, env, m, s);
    assert Agree(Free(body) - Elems(names) - {loop}, scope, env, m.frames);
    assert Free(body) - Elems(names) - Elems([loop]) == Free(body) - Elems(names) - {loop};
    Entered(Free(body) - Elems(names), [loop], vals, scope, env, m.frames);
    Unseal(body, LoopBody(t));
    UnsealAll(inits, LoopInits(t));
    var p := D.Proc(names, None, body, own);
    assert ProcOk(p, LoopClosure(t, loop, names, env, s), fs);
    var m' := MemoryLooped(m, s, t, loop, names, env, [loop], p);
    assert m'.frames == fs;
    AgreeGrows(FreeAll(inits), scope, env, m.frames, fs);
    Hidden(FreeAll(inits), loop, |s.frames|, scope, env, fs);
    AwaitsGrows(k, rk, m.frames, s.closures, fs, s'.closures);
    UnsealGoal(D.ToLoop(|m.frames|), C.Ref(loop), false, scope, env', fs, s'.closures);
    EachAgrees(P, inits, D.ToLoop(|m.frames|), scope, k, m', C.Ref(loop), LoopInits(t), false, env', rk, s');
    LoopMakes(P, t, loop, names, env, rk, s, c);
  }

  lemma DoAgrees(P: M.Primitives, f: D.Loop, scope: D.Scope, k: D.Cont, m: D.Memory, t: Core, env: R.Env, rk: R.Kont,
                 s: R.RefStore)
    requires Lowers(f, t) && Agree(Free(f), scope, env, m.frames)
    requires Awaits(k, rk, m.frames, s.closures) && MemoryOk(m, s)
    ensures Leads(P, R.EvalStep(t, env, rk, s), D.EvalStep(P, f, scope, k, m))
  {
    var c := D.EvalStep(P, f, scope, k, m);
    var loop := t.f.params[0];
    var names, inits := f.names, f.inits;
    var vals := [M.Closure(|m.procs| + 1)];
    var fs := m.frames + [D.Frame([], vals)];
    var env', s' := LoopEnv(t, env, s), LoopStore(t, loop, names, env, s);
    UndefinedFound(Free(f), scope, env, m, s);
    var m' := MemoryLooped(m, s, t, loop, names, env, [], D.Unused);
    assert m'.frames == fs;
    AgreeGrows(FreeAll(inits), scope, env, m.frames, fs);
    Hidden(FreeAll(inits), loop, |s.frames|, scope, env, fs);
    AwaitsGrows(k, rk, m.frames, s.closures, fs, s'.closures);
    LoopFound(f, scope, m, t, loop, env, s);
    UnsealAll(inits, LoopInits(t));
    UnsealGoal(D.ToRound(f, scope), C.Ref(loop), false, scope, env', fs, s'.closures);
    EachAgrees(P, inits, D.ToRound(f, scope), scope, k, m', C.Ref(loop), LoopInits(t), false, env', rk, s');
    LoopMakes(P, t, loop, names, env, rk, s, c);
  }

  lemma LoopFound(f: D.Loop, scope: D.Scope, m: D.Memory, t: Core, loop: Symbol, env: R.Env, s: R.RefStore)
    requires Lowers(f, t) && Agree(Free(f), scope, env, m.frames) && loop == t.f.params[0] && MemoryOk(m, s)
    ensures LoopOk(f, scope, loop, LoopEnv(t, env, s), m.frames + [D.Frame([], [M.Closure(|m.procs| + 1)])],
                   LoopStore(t, loop, f.names, env, s).closures)
  {
    var fs := m.frames + [D.Frame([], [M.Closure(|m.procs| + 1)])];
    var clo := LoopClosure(t, loop, f.names, env, s);
    var env', a := LoopEnv(t, env, s), |s.frames|;
    var xs := RoundFree(f) - Elems(f.names);
    assert Agree(xs, scope, env, m.frames);
    AgreeGrows(xs, scope, env, m.frames, fs);
    Hidden(xs, loop, a, scope, env, fs);
    Unseal(f.test, clo.body.cond);
    Unseal(f.result, clo.body.thn);
    assert R.Lookup(loop, env') == Some((a, 0));
    UnsealCommands(f.commands, clo.body.els);
    UnsealAll(f.steps, Bottom(|f.commands|, clo.body.els).args);
    assert RoundBecomes(f, loop, clo.body.els, f.commands);
    assert RoundOk(f, scope, loop, a, clo, fs);
    assert LoopStore(t, loop, f.names, env, s).closures[|m.procs| + 1] == clo;
  }

  // ---- Every form ----

  /** f, t and what surrounds them correspond. */
  ghost predicate Facing(f: Form, scope: D.Scope, k: D.Cont, m: D.Memory, t: Core, env: R.Env, rk: R.Kont,
                         s: R.RefStore) {
    && Becomes(f, t) && Agree(Free(f), scope, env, m.frames)
    && Awaits(k, rk, m.frames, s.closures) && MemoryOk(m, s)
  }

  lemma SimpleAgrees(P: M.Primitives, f: Form, scope: D.Scope, k: D.Cont, m: D.Memory, t: Core, env: R.Env, rk: R.Kont,
                     s: R.RefStore)
    requires f.Quoted? || f.Var? || f.Lambda?
    requires Facing(f, scope, k, m, t, env, rk, s)
    ensures Leads(P, R.EvalStep(t, env, rk, s), D.EvalStep(P, f, scope, k, m))
  {
    Unseal(f, t);
    if f.Lambda? {
      var Lambda(params, rest, body) := f;
      var p, clo := D.Proc(params, rest, body, scope), R.RefClosure(params, rest, t.body, env);
      Unseal(body, t.body);
      assert Free(body) - Elems(M.FrameNames(params, rest)) <= Free(f);
      assert ProcOk(p, clo, m.frames);
      MemoryClosed(m, s, p, clo);
      AwaitsGrows(k, rk, m.frames, s.closures, m.frames, s.closures + [clo]);
    }
    Now(P, R.EvalStep(t, env, rk, s), D.EvalStep(P, f, scope, k, m));
  }

  lemma BranchingAgrees(P: M.Primitives, f: Form, scope: D.Scope, k: D.Cont, m: D.Memory, t: Core, env: R.Env,
                        rk: R.Kont, s: R.RefStore)
    requires (f.If? || f.Then?) && Facing(f, scope, k, m, t, env, rk, s)
    ensures Leads(P, R.EvalStep(t, env, rk, s), D.EvalStep(P, f, scope, k, m))
  {
    Unseal(f, t);
    if f.If? {
      Unseal(f.test, t.cond);
      Unseal(f.thn, t.thn);
      Unseal(f.els, t.els);
    } else {
      Unseal(f.first, t.first);
      Unseal(f.second, t.second);
    }
    var r, c := R.EvalStep(t, env, rk, s), D.EvalStep(P, f, scope, k, m);
    Unwrap(c.k, r.k, m.frames, s.closures);
    Now(P, r, c);
  }

  lemma FirstAgrees(P: M.Primitives, f: Form, scope: D.Scope, k: D.Cont, m: D.Memory, t: Core, env: R.Env, rk: R.Kont,
                    s: R.RefStore)
    requires f.If? || f.Then? || f.Define? || f.Set? || f.CallCC?
    requires Facing(f, scope, k, m, t, env, rk, s)
    ensures Leads(P, R.EvalStep(t, env, rk, s), D.EvalStep(P, f, scope, k, m))
  {
    Unseal(f, t);
    if f.If? || f.Then? {
      BranchingAgrees(P, f, scope, k, m, t, env, rk, s);
    } else {
      match f {
        case Define(_, rhs) => Unseal(rhs, t.rhs);
        case Set(_, rhs) => Unseal(rhs, t.rhs);
        case CallCC(receiver) => Unseal(receiver, t.receiver);
      }
      var r, c := R.EvalStep(t, env, rk, s), D.EvalStep(P, f, scope, k, m);
      Unwrap(c.k, r.k, m.frames, s.closures);
      Now(P, r, c);
    }
  }

  lemma ListAgrees(P: M.Primitives, f: Form, scope: D.Scope, k: D.Cont, m: D.Memory, t: Core, env: R.Env, rk: R.Kont,
                   s: R.RefStore)
    requires f.Call? || f.Let? || f.Build?
    requires Facing(f, scope, k, m, t, env, rk, s)
    ensures Leads(P, R.EvalStep(t, env, rk, s), D.EvalStep(P, f, scope, k, m))
  {
    Unseal(f, t);
    match f
    case Call(operator, args, spread) =>
      Unseal(operator, t.f);
      UnsealAll(args, t.args);
      UnsealGoal(D.ToCall(operator, spread), t.f, spread, scope, env, m.frames, s.closures);
      EachAgrees(P, args, D.ToCall(operator, spread), scope, k, m, t.f, t.args, spread, env, rk, s);
    case Let(names, inits, body) =>
      Unseal(body, t.f.body);
      UnsealAll(inits, t.args);
      UnsealGoal(D.ToBind(names, body), t.f, false, scope, env, m.frames, s.closures);
      EachAgrees(P, inits, D.ToBind(names, body), scope, k, m, t.f, t.args, false, env, rk, s);
    case Build(op, parts) =>
      StandardUnbound(Known(op), scope, m.frames);
      UnsealAll(parts, t.args);
      UnsealGoal(D.ToBuild(op), t.f, false, scope, env, m.frames, s.closures);
      EachAgrees(P, parts, D.ToBuild(op), scope, k, m, t.f, t.args, false, env, rk, s);
  }

  lemma NoneAgrees(P: M.Primitives, f: Form, scope: D.Scope, k: D.Cont, m: D.Memory, t: Core, env: R.Env, rk: R.Kont,
                   s: R.RefStore)
    requires (f.And? || f.Or?) && f.forms == []
    requires Facing(f, scope, k, m, t, env, rk, s)
    ensures Leads(P, R.EvalStep(t, env, rk, s), D.EvalStep(P, f, scope, k, m))
  {
    Unseal(f, t);
    Now(P, R.EvalStep(t, env, rk, s), D.EvalStep(P, f, scope, k, m));
  }

  /** An `and` of several forms tests the first. */
  lemma AndShape(f: Form, t: Core)
    requires Becomes(f, t) && f.And? && |f.forms| > 1
    ensures t.Test? && Becomes(f.forms[0], t.cond) && Becomes(Form.And(f.forms[1..]), t.thn)
    ensures t.els == C.Const(Bool(false))
    ensures Free(f) == Free(f.forms[0]) + Free(Form.And(f.forms[1..]))
  {
    Unseal(f, t);
    Unseal(f.forms[0], t.cond);
    Unseal(Form.And(f.forms[1..]), t.thn);
    assert FreeAll(f.forms) == Free(f.forms[0]) + FreeAll(f.forms[1..]);
    assert Free(f) == Free(f.forms[0]) + FreeAll(f.forms[1..]);
    assert Free(Form.And(f.forms[1..])) == FreeAll(f.forms[1..]);
  }

  /** An `or` of several forms keeps the value of the first in a temporary variable. */
  lemma OrShape(f: Form, t: Core)
    requires Becomes(f, t) && f.Or? && |f.forms| > 1
    ensures IsTemp(t) && Becomes(f.forms[0], t.args[0]) && Becomes(Form.Or(f.forms[1..]), t.f.body.els)
    ensures t.f.params[0] !in Free(Form.Or(f.forms[1..])) && Free(f) == Free(f.forms[0]) + Free(Form.Or(f.forms[1..]))
  {
    Unseal(f, t);
    Unseal(f.forms[0], t.args[0]);
    Unseal(Form.Or(f.forms[1..]), t.f.body.els);
    assert FreeAll(f.forms) == Free(f.forms[0]) + FreeAll(f.forms[1..]);
    assert Free(f) == Free(f.forms[0]) + FreeAll(f.forms[1..]);
    assert Free(Form.Or(f.forms[1..])) == FreeAll(f.forms[1..]);
  }

  /** A clause with a body is a conditional. */
  lemma ClauseShape(f: Form, t: Core)
    requires Becomes(f, t) && f.Cond? && f.clauses.Clause? && f.clauses.outcome.Some?
    ensures t.Test? && Becomes(f.clauses.test, t.cond) && Becomes(f.clauses.outcome.value, t.thn)
    ensures Becomes(Form.Cond(f.clauses.more), t.els)
    ensures Free(f) == Free(f.clauses.test) + Free(f.clauses.outcome.value) + Free(Form.Cond(f.clauses.more))
  {
    Unseal(f, t);
    Unseal(f.clauses.test, t.cond);
    Unseal(f.clauses.outcome.value, t.thn);
    Unseal(Form.Cond(f.clauses.more), t.els);
    assert Free(Form.Cond(f.clauses.more)) == FreeClauses(f.clauses.more);
    assert FreeOption(f.clauses.outcome) == Free(f.clauses.outcome.value);
    assert Free(f) == FreeClauses(f.clauses);
  }

  /** A clause without a body keeps its test's value in a temporary variable. */
  lemma TestClauseShape(f: Form, t: Core)
    requires Becomes(f, t) && f.Cond? && f.clauses.Clause? && f.clauses.outcome.None?
    ensures IsTemp(t) && Becomes(f.clauses.test, t.args[0]) && Becomes(Form.Cond(f.clauses.more), t.f.body.els)
    ensures t.f.params[0] !in Free(Form.Cond(f.clauses.more))
    ensures Free(f) == Free(f.clauses.test) + Free(Form.Cond(f.clauses.more))
  {
    Unseal(f, t);
    Unseal(f.clauses.test, t.args[0]);
    Unseal(Form.Cond(f.clauses.more), t.f.body.els);
    assert Free(Form.Cond(f.clauses.more)) == FreeClauses(f.clauses.more);
    assert Free(f) == FreeClauses(f.clauses);
  }

  lemma AndAgrees(P: M.Primitives, f: Form, scope: D.Scope, k: D.Cont, m: D.Memory, t: Core, env: R.Env, rk: R.Kont,
                  s: R.RefStore)
    requires f.And? && |f.forms| > 1
    requires Facing(f, scope, k, m, t, env, rk, s)
    ensures Leads(P, R.EvalStep(t, env, rk, s), D.EvalStep(P, f, scope, k, m))
  {
    AndShape(f, t);
    var k', rk' := D.Conjoining(f.forms[1..], scope, k), R.Branch(t.thn, t.els, env, rk);
    Unwrap(k', rk', m.frames, s.closures);
    Now(P, R.Eval(t.cond, env, rk', s), D.Eval(f.forms[0], scope, k', m));
  }

  lemma OrAgrees(P: M.Primitives, f: Form, scope: D.Scope, k: D.Cont, m: D.Memory, t: Core, env: R.Env, rk: R.Kont,
                 s: R.RefStore)
    requires f.Or? && |f.forms| > 1
    requires Facing(f, scope, k, m, t, env, rk, s)
    ensures Leads(P, R.EvalStep(t, env, rk, s), D.EvalStep(P, f, scope, k, m))
  {
    OrShape(f, t);
    var k', rk' := D.Disjoining(f.forms[1..], scope, k), R.Argument([], [], t.f, false, env, rk);
    Unwrap(k', rk', m.frames, s.closures);
    assert t.args[1..] == [];
    Now(P, R.Eval(t.args[0], env, rk', s), D.Eval(f.forms[0], scope, k', m));
  }

  lemma ClauseAgrees(P: M.Primitives, f: Form, scope: D.Scope, k: D.Cont, m: D.Memory, t: Core, env: R.Env, rk: R.Kont,
                     s: R.RefStore)
    requires f.Cond? && f.clauses.Clause? && f.clauses.outcome.Some?
    requires Facing(f, scope, k, m, t, env, rk, s)
    ensures Leads(P, R.EvalStep(t, env, rk, s), D.EvalStep(P, f, scope, k, m))
  {
    ClauseShape(f, t);
    var Clause(test, outcome, more) := f.clauses;
    var k', rk' := D.Clausal(outcome, more, scope, k), R.Branch(t.thn, t.els, env, rk);
    Unwrap(k', rk', m.frames, s.closures);
    Now(P, R.Eval(t.cond, env, rk', s), D.Eval(test, scope, k', m));
  }

  lemma TestClauseAgrees(P: M.Primitives, f: Form, scope: D.Scope, k: D.Cont, m: D.Memory, t: Core, env: R.Env,
                         rk: R.Kont, s: R.RefStore)
    requires f.Cond? && f.clauses.Clause? && f.clauses.outcome.None?
    requires Facing(f, scope, k, m, t, env, rk, s)
    ensures Leads(P, R.EvalStep(t, env, rk, s), D.EvalStep(P, f, scope, k, m))
  {
    TestClauseShape(f, t);
    var Clause(test, outcome, more) := f.clauses;
    var k', rk' := D.Clausal(None, more, scope, k), R.Argument([], [], t.f, false, env, rk);
    Unwrap(k', rk', m.frames, s.closures);
    assert t.args[1..] == [];
    Now(P, R.Eval(t.args[0], env, rk', s), D.Eval(test, scope, k', m));
  }

  lemma CaseAgrees(P: M.Primitives, f: Form, scope: D.Scope, k: D.Cont, m: D.Memory, t: Core, env: R.Env, rk: R.Kont,
                   s: R.RefStore)
    requires f.Case?
    requires Facing(f, scope, k, m, t, env, rk, s)
    ensures Leads(P, R.EvalStep(t, env, rk, s), D.EvalStep(P, f, scope, k, m))
  {
    Unseal(f, t);
    Unseal(f.key, t.args[0]);
    var r, c := R.EvalStep(t, env, rk, s), D.EvalStep(P, f, scope, k, m);
    Unwrap(c.k, r.k, m.frames, s.closures);
    Now(P, r, c);
  }

  /** A form that stands for another: an `and` or `or` of one form, a `cond` of which only the else is left. */
  function Alone(f: Form): Option<Form> {
    match f
    case And(forms) => if |forms| == 1 then Some(forms[0]) else None
    case Or(forms) => if |forms| == 1 then Some(forms[0]) else None
    case Cond(Otherwise(els)) => Some(els)
    case _ => None
  }

  lemma AloneStep(P: M.Primitives, f: Form, scope: D.Scope, k: D.Cont, m: D.Memory, t: Core)
    requires Alone(f).Some? && Becomes(f, t)
    ensures Alone(f).value < f && Becomes(Alone(f).value, t) && Free(Alone(f).value) <= Free(f)
    ensures D.EvalStep(P, f, scope, k, m) == D.EvalStep(P, Alone(f).value, scope, k, m)
  {
    Unseal(f, t);
    Unseal(Alone(f).value, t);
  }

  lemma {:induction false} EvalAgrees(P: M.Primitives, f: Form, scope: D.Scope, k: D.Cont, m: D.Memory, t: Core,
                                      env: R.Env, rk: R.Kont, s: R.RefStore)
    requires Facing(f, scope, k, m, t, env, rk, s)
    ensures Leads(P, R.EvalStep(t, env, rk, s), D.EvalStep(P, f, scope, k, m))
    decreases f
  {
    if Alone(f).Some? {
      AloneStep(P, f, scope, k, m, t);
      EvalAgrees(P, Alone(f).value, scope, k, m, t, env, rk, s);
    } else if f.Quoted? || f.Var? || f.Lambda? {
      SimpleAgrees(P, f, scope, k, m, t, env, rk, s);
    } else if f.If? || f.Then? || f.Define? || f.Set? || f.CallCC? {
      FirstAgrees(P, f, scope, k, m, t, env, rk, s);
    } else if f.Call? || f.Let? || f.Build? {
      ListAgrees(P, f, scope, k, m, t, env, rk, s);
    } else if (f.And? || f.Or?) && f.forms == [] {
      NoneAgrees(P, f, scope, k, m, t, env, rk, s);
    } else if f.And? {
      AndAgrees(P, f, scope, k, m, t, env, rk, s);
    } else if f.Or? {
      OrAgrees(P, f, scope, k, m, t, env, rk, s);
    } else if f.Cond? {
      if f.clauses.outcome.Some? {
        ClauseAgrees(P, f, scope, k, m, t, env, rk, s);
      } else {
        TestClauseAgrees(P, f, scope, k, m, t, env, rk, s);
      }
    } else if f.Case? {
      CaseAgrees(P, f, scope, k, m, t, env, rk, s);
    } else {
      Unseal(f, t);
      if f.NamedLet? {
        NamedLetAgrees(P, f, scope, k, m, t, env, rk, s);
      } else if f.Letrec? {
        LetrecShape(f.names, f.inits, f.body, t);
        LetrecAgrees(P, f.names, f.inits, f.body, scope, k, m, t, env, rk, s);
      } else {
        DoAgrees(P, f, scope, k, m, t, env, rk, s);
      }
    }
  }

  // ---- Temporary variables ----

  /** Where a temporary variable's conditional leads. */
  function TempEnd(v: M.Value, rk: R.Kont, s: R.RefStore): R.Config
    requires IsTempCont(rk)
  {
    var s' := Framed(Closed(s, R.RefClosure(rk.f.params, None, rk.f.body, rk.env)), [v]);
    if M.IsFalse(v) then R.Eval(rk.f.body.els, [R.Rib(rk.f.params, |s.frames|)] + rk.env, rk.next, s')
    else R.Return(v, rk.next, s')
  }

  lemma TempRuns(P: M.Primitives, v: M.Value, rk: R.Kont, s: R.RefStore, c: D.Config)
    requires IsTempCont(rk) && Leads(P, TempEnd(v, rk, s), c)
    ensures Leads(P, R.ReturnStep(P, v, rk, s), c)
  {
    var s' := Framed(Closed(s, R.RefClosure(rk.f.params, None, rk.f.body, rk.env)), [v]);
    var env', y, body := [R.Rib(rk.f.params, |s.frames|)] + rk.env, rk.f.params[0], rk.f.body;
    var r1 := R.Eval(body, env', rk.next, s');
    var branch := R.Branch(body.thn, body.els, env', rk.next);
    var r2 := R.Eval(body.cond, env', branch, s');
    assert R.Next(P, r1) == r2;
    assert R.Lookup(y, env') == Some((|s.frames|, 0));
    var r3 := R.Return(v, branch, s');
    assert R.Next(P, r2) == r3;
    var r4 := R.Next(P, r3);
    if M.IsFalse(v) {
      assert r4 == TempEnd(v, rk, s);
    } else {
      assert r4 == R.Eval(C.Ref(y), env', rk.next, s');
      assert R.Next(P, r4) == TempEnd(v, rk, s);
      Later(P, r4, c);
    }
    Later(P, r3, c);
    Later(P, r2, c);
    Later(P, r1, c);
    Enters(P, rk.f, [v], rk.env, rk.next, s, c);
    assert [] + [v] == [v];
  }

  /** What a temporary variable adds to the stores. */
  lemma TempStored(v: M.Value, k: D.Cont, m: D.Memory, clo: R.RefClosure, rk: R.Kont, s: R.RefStore)
    requires Awaits(k, rk, m.frames, s.closures) && MemoryOk(m, s)
    ensures MemoryOk(m.Enter([], [v]), Framed(Closed(s, clo), [v]))
    ensures Awaits(k, rk, m.Enter([], [v]).frames, Closed(s, clo).closures)
    ensures Grows(m.frames, s.closures, m.Enter([], [v]).frames, Closed(s, clo).closures)
  {
    MemoryEntered(m, s, [], [v], clo);
    AwaitsGrows(k, rk, m.frames, s.closures, m.Enter([], [v]).frames, s.closures + [clo]);
  }

  /** A form after a temporary variable, which is not free in it. */
  lemma TempAgrees(P: M.Primitives, v: M.Value, rest: Form, scope: D.Scope, k: D.Cont, m: D.Memory, rk: R.Kont,
                   s: R.RefStore)
    requires IsTempCont(rk) && Becomes(rest, rk.f.body.els) && rk.f.params[0] !in Free(rest)
    requires Agree(Free(rest), scope, rk.env, m.frames) && Awaits(k, rk.next, m.frames, s.closures) && MemoryOk(m, s)
    ensures Leads(P, R.ReturnStep(P, v, rk, s),
                  if M.IsFalse(v) then D.Eval(rest, scope, k, m.Enter([], [v])) else D.Return(v, k, m.Enter([], [v])))
  {
    var c := if M.IsFalse(v) then D.Eval(rest, scope, k, m.Enter([], [v])) else D.Return(v, k, m.Enter([], [v]));
    var fs := m.Enter([], [v]).frames;
    TempStored(v, k, m, R.RefClosure(rk.f.params, None, rk.f.body, rk.env), rk.next, s);
    AgreeGrows(Free(rest), scope, rk.env, m.frames, fs);
    Hidden(Free(rest), rk.f.params[0], |s.frames|, scope, rk.env, fs);
    assert rk.f.params == [rk.f.params[0]];
    Now(P, TempEnd(v, rk, s), c);
    TempRuns(P, v, rk, s, c);
  }

  // ---- Case ----

  lemma MemvStarts(P: M.Primitives, y: Symbol, v: M.Value, keys: Datum, env: R.Env, rk: R.Kont, s: R.RefStore)
    ensures var memv := C.Ref(Known(Memv));
            var k := R.Argument([], [C.Const(keys)], memv, false, env, rk);
            && R.Next(P, R.Eval(MemvCall(y, keys), env, rk, s)) == R.Eval(C.Ref(y), env, k, s)
            && R.ReturnStep(P, v, k, s) ==
               R.Eval(C.Const(keys), env, R.Argument([v], [], memv, false, env, rk), s)
  {
    assert [] + [v] == [v] && [C.Const(keys)][1..] == [];
  }

  /** The steps after the keys' turn has come. */
  lemma MemvSteps(P: M.Primitives, v: M.Value, keys: Datum, name: string, env: R.Env, rk: R.Kont, s: R.RefStore)
    requires R.Lookup(Known(Memv), env) == None
    requires Known(Memv) in s.globals && s.globals[Known(Memv)] == M.Primitive(name)
    ensures var memv := C.Ref(Known(Memv));
            var k3, k5 := R.Argument([v], [], memv, false, env, rk), R.Operator([v, M.Lit(keys)], rk);
            && R.Next(P, R.Eval(C.Const(keys), env, k3, s)) == R.Return(M.Lit(keys), k3, s)
            && R.Next(P, R.Return(M.Lit(keys), k3, s)) == R.Eval(memv, env, k5, s)
            && R.Next(P, R.Eval(memv, env, k5, s)) == R.Return(M.Primitive(name), k5, s)
            && R.Next(P, R.Return(M.Primitive(name), k5, s)) ==
               R.Apply(P, M.Primitive(name), [v, M.Lit(keys)], rk, s)
  {
    assert [v] + [M.Lit(keys)] == [v, M.Lit(keys)];
  }

  lemma MemvRuns(P: M.Primitives, y: Symbol, v: M.Value, keys: Datum, name: string, env: R.Env, rk: R.Kont,
                 s: R.RefStore, c: D.Config)
    requires R.Lookup(y, env).Some? && R.Lookup(Known(Memv), env) == None
    requires var (a, j) := R.Lookup(y, env).value; a < |s.frames| && j == 0 && s.frames[a] == [v]
    requires Known(Memv) in s.globals && s.globals[Known(Memv)] == M.Primitive(name)
    requires Leads(P, R.Apply(P, M.Primitive(name), [v, M.Lit(keys)], rk, s), c)
    ensures Leads(P, R.Eval(MemvCall(y, keys), env, rk, s), c)
  {
    var memv := C.Ref(Known(Memv));
    var k1 := R.Argument([], [C.Const(keys)], memv, false, env, rk);
    MemvStarts(P, y, v, keys, env, rk, s);
    MemvApplied(P, v, keys, name, env, rk, s, c);
    MemvKey(P, y, v, env, k1, s, R.Eval(C.Const(keys), env, R.Argument([v], [], memv, false, env, rk), s), c);
    Later(P, R.Eval(MemvCall(y, keys), env, rk, s), c);
  }

  lemma MemvKey(P: M.Primitives, y: Symbol, v: M.Value, env: R.Env, k: R.Kont, s: R.RefStore, r: R.Config, c: D.Config)
    requires R.Lookup(y, env).Some?
    requires var (a, j) := R.Lookup(y, env).value; a < |s.frames| && j == 0 && s.frames[a] == [v]
    requires R.ReturnStep(P, v, k, s) == r && Leads(P, r, c)
    ensures Leads(P, R.Eval(C.Ref(y), env, k, s), c)
  {
    Later(P, R.Return(v, k, s), c);
    Later(P, R.Eval(C.Ref(y), env, k, s), c);
  }

  lemma MemvApplied(P: M.Primitives, v: M.Value, keys: Datum, name: string, env: R.Env, rk: R.Kont, s: R.RefStore,
                    c: D.Config)
    requires R.Lookup(Known(Memv), env) == None
    requires Known(Memv) in s.globals && s.globals[Known(Memv)] == M.Primitive(name)
    requires Leads(P, R.Apply(P, M.Primitive(name), [v, M.Lit(keys)], rk, s), c)
    ensures Leads(P, R.Eval(C.Const(keys), env, R.Argument([v], [], C.Ref(Known(Memv)), false, env, rk), s), c)
  {
    var memv := C.Ref(Known(Memv));
    var k3, k5 := R.Argument([v], [], memv, false, env, rk), R.Operator([v, M.Lit(keys)], rk);
    MemvSteps(P, v, keys, name, env, rk, s);
    Later(P, R.Return(M.Primitive(name), k5, s), c);
    Later(P, R.Eval(memv, env, k5, s), c);
    Later(P, R.Return(M.Lit(keys), k3, s), c);
    Later(P, R.Eval(C.Const(keys), env, k3, s), c);
  }

  /** What a clause of a case becomes. */
  lemma ChoiceShape(y: Symbol, choices: Choices, t: Core)
    requires LowersChoices(y, choices, t) && choices.Choice?
    ensures LowersChoices(y, choices.more, if choices.outcome.Some? then t.els else t.f.body.els)
    ensures choices.outcome.Some? ==>
              t.Test? && t.cond == MemvCall(y, choices.keys) && Becomes(choices.outcome.value, t.thn)
    ensures choices.outcome.None? ==>
              && IsTemp(t) && t.args[0] == MemvCall(y, choices.keys)
              && t.f.params[0] !in FreeChoices(choices.more) && t.f.params[0] != y
    ensures Known(Memv) in FreeChoices(choices) && FreeChoices(choices.more) <= FreeChoices(choices)
    ensures FreeOption(choices.outcome) <= FreeChoices(choices)
  {
    if choices.outcome.Some? {
      Unseal(choices.outcome.value, t.thn);
    }
  }

  /** The clauses of a case, whose key is in y. */
  lemma DispatchAgrees(P: M.Primitives, y: Symbol, v: M.Value, choices: Choices, scope: D.Scope, k: D.Cont, m: D.Memory,
                       t: Core, env: R.Env, rk: R.Kont, s: R.RefStore)
    requires MatchOk(y, v, choices, scope, t, env, m.frames)
    requires Awaits(k, rk, m.frames, s.closures) && MemoryOk(m, s)
    ensures Leads(P, R.Eval(t, env, rk, s), D.Dispatch(v, choices, scope, k, m))
  {
    if choices.Default? {
      Unseal(choices.els, t);
    }
    Now(P, R.Eval(t, env, rk, s), D.Dispatch(v, choices, scope, k, m));
  }

  lemma MemvFound(P: M.Primitives, y: Symbol, v: M.Value, choices: Choices, scope: D.Scope, m: D.Memory, t: Core,
                  env: R.Env, rk: R.Kont, s: R.RefStore, name: string, c: D.Config)
    requires choices.Choice? && MatchOk(y, v, choices, scope, t, env, m.frames) && MemoryOk(m, s)
    requires Known(Memv) in m.globals && m.globals[Known(Memv)] == M.Primitive(name)
    requires Leads(P, R.Apply(P, M.Primitive(name), [v, M.Lit(choices.keys)], rk, s), c)
    ensures Leads(P, R.Eval(MemvCall(y, choices.keys), env, rk, s), c)
  {
    ChoiceShape(y, choices, t);
    StandardUnbound(Known(Memv), scope, m.frames);
    var a := R.Lookup(y, env).value.0;
    assert m.frames[a].vals == s.frames[a];
    MemvRuns(P, y, v, choices.keys, name, env, rk, s, c);
  }

  /** The state after one clause of a case has had its keys looked through. */
  function Matched(found: M.Value, v: M.Value, choices: Choices, scope: D.Scope, k: D.Cont, m: D.Memory): D.Config
    requires choices.Choice?
  {
    match choices.outcome
    case Some(body) =>
      if M.IsFalse(found) then D.Dispatch(v, choices.more, scope, k, m) else D.Eval(body, scope, k, m)
    case None =>
      var m := m.Enter([], [found]);
      if M.IsFalse(found) then D.Dispatch(v, choices.more, scope, k, m) else D.Return(found, k, m)
  }

  /** A clause with a body, once its keys have been looked through. */
  lemma BodyMatched(P: M.Primitives, found: M.Value, y: Symbol, v: M.Value, choices: Choices, scope: D.Scope,
                    k: D.Cont, m: D.Memory,
                    t: Core, env: R.Env, rk: R.Kont, s: R.RefStore)
    requires choices.Choice? && choices.outcome.Some? && MatchOk(y, v, choices, scope, t, env, m.frames) && t.Test?
    requires Awaits(k, rk, m.frames, s.closures) && MemoryOk(m, s)
    ensures Leads(P, R.Return(found, R.Branch(t.thn, t.els, env, rk), s), Matched(found, v, choices, scope, k, m))
  {
    var r0 := R.Return(found, R.Branch(t.thn, t.els, env, rk), s);
    var c := Matched(found, v, choices, scope, k, m);
    ChoiceShape(y, choices, t);
    if M.IsFalse(found) {
      assert MatchOk(y, v, choices.more, scope, t.els, env, m.frames);
      DispatchAgrees(P, y, v, choices.more, scope, k, m, t.els, env, rk, s);
    } else {
      assert Agree(Free(choices.outcome.value), scope, env, m.frames);
      Now(P, R.Next(P, r0), c);
    }
    Later(P, r0, c);
  }

  /** A clause without one: its test's value is in a temporary variable beside the key's. */
  lemma TestMatched(P: M.Primitives, found: M.Value, y: Symbol, v: M.Value, choices: Choices, scope: D.Scope,
                    k: D.Cont, m: D.Memory,
                    t: Core, env: R.Env, rk: R.Kont, s: R.RefStore)
    requires choices.Choice? && choices.outcome.None? && MatchOk(y, v, choices, scope, t, env, m.frames) && IsTemp(t)
    requires Awaits(k, rk, m.frames, s.closures) && MemoryOk(m, s)
    ensures Leads(P, R.Return(found, R.Argument([], [], t.f, false, env, rk), s),
              Matched(found, v, choices, scope, k, m))
  {
    var waiting := R.Argument([], [], t.f, false, env, rk);
    var c := Matched(found, v, choices, scope, k, m);
    ChoiceShape(y, choices, t);
    var clo := R.RefClosure(t.f.params, None, t.f.body, env);
    var m', s' := m.Enter([], [found]), Framed(Closed(s, clo), [found]);
    TempStored(found, k, m, clo, rk, s);
    if M.IsFalse(found) {
      var env' := [R.Rib(t.f.params, |s.frames|)] + env;
      TempMatch(found, y, v, choices, scope, m, t, env, |s.frames|);
      DispatchAgrees(P, y, v, choices.more, scope, k, m', t.f.body.els, env', rk, s');
    } else {
      Now(P, TempEnd(found, waiting, s), c);
    }
    TempRuns(P, found, waiting, s, c);
    Later(P, R.Return(found, waiting, s), c);
  }

  lemma TempMatch(found: M.Value, y: Symbol, v: M.Value, choices: Choices, scope: D.Scope, m: D.Memory, t: Core,
                  env: R.Env, a: nat)
    requires choices.Choice? && choices.outcome.None? && MatchOk(y, v, choices, scope, t, env, m.frames) && IsTemp(t)
    ensures MatchOk(y, v, choices.more, scope, t.f.body.els, [R.Rib(t.f.params, a)] + env, m.Enter([], [found]).frames)
  {
    ChoiceShape(y, choices, t);
    var env', fs := [R.Rib(t.f.params, a)] + env, m.Enter([], [found]).frames;
    assert t.f.params == [t.f.params[0]] && env'[1..] == env;
    AgreeGrows(FreeChoices(choices.more), scope, env, m.frames, fs);
    Hidden(FreeChoices(choices.more), t.f.params[0], a, scope, env, fs);
    assert R.Lookup(y, env') == R.Lookup(y, env);
  }

  /** What goes on with the value of a clause's memv. */
  function AfterMemv(choices: Choices, t: Core, env: R.Env, rk: R.Kont): R.Kont
    requires choices.Choice? && if choices.outcome.Some? then t.Test? else t.Call?
  {
    if choices.outcome.Some? then R.Branch(t.thn, t.els, env, rk) else R.Argument([], [], t.f, false, env, rk)
  }

  lemma MemvAgrees(P: M.Primitives, y: Symbol, v: M.Value, choices: Choices, scope: D.Scope, k: D.Cont, m: D.Memory,
                   t: Core, env: R.Env, rk: R.Kont, s: R.RefStore)
    requires choices.Choice? && MatchOk(y, v, choices, scope, t, env, m.frames)
    requires if choices.outcome.Some? then t.Test? else IsTemp(t)
    requires Awaits(k, rk, m.frames, s.closures) && MemoryOk(m, s)
    ensures Leads(P, R.Apply(P, M.Primitive(Spelling(Memv)), [v, M.Lit(choices.keys)],
                             AfterMemv(choices, t, env, rk), s),
                  D.Next(P, D.Match(v, choices, scope, k, m)))
  {
    var args := [v, M.Lit(choices.keys)];
    match P(Spelling(Memv), args, m.heap)
    case None =>
      var r := R.Apply(P, M.Primitive(Spelling(Memv)), args, AfterMemv(choices, t, env, rk), s);
      Now(P, r, D.Next(P, D.Match(v, choices, scope, k, m)));
    case Some((found, h)) =>
      if choices.outcome.Some? {
        BodyMatched(P, found, y, v, choices, scope, k, m.(heap := h), t, env, rk, s.(heap := h));
      } else {
        TestMatched(P, found, y, v, choices, scope, k, m.(heap := h), t, env, rk, s.(heap := h));
      }
  }

  lemma MatchAgrees(P: M.Primitives, y: Symbol, v: M.Value, choices: Choices, scope: D.Scope, k: D.Cont, m: D.Memory,
                    t: Core, env: R.Env, rk: R.Kont, s: R.RefStore)
    requires choices.Choice? && MatchOk(y, v, choices, scope, t, env, m.frames)
    requires Awaits(k, rk, m.frames, s.closures) && MemoryOk(m, s)
    ensures Leads(P, R.EvalStep(t, env, rk, s), D.Next(P, D.Match(v, choices, scope, k, m)))
  {
    var c := D.Next(P, D.Match(v, choices, scope, k, m));
    var memv := Spelling(Memv);
    var waiting := AfterMemv(choices, t, env, rk);
    ChoiceShape(y, choices, t);
    MemvAgrees(P, y, v, choices, scope, k, m, t, env, rk, s);
    assert UsualAt(m.globals, Memv);
    MemvFound(P, y, v, choices, scope, m, t, env, waiting, s, memv, c);
    if choices.outcome.None? {
      assert t.args[1..] == [];
    }
  }

  // ---- Returning a value ----

  lemma {:induction false} FindNamed(x: Symbol, scope: D.Scope, fs: Frames)
    requires D.Find(x, scope, fs).Some?
    ensures var (a, j) := D.Find(x, scope, fs).value; a < |fs| && j < |fs[a].names|
  {
    if scope[0] >= |fs| || x !in fs[scope[0]].names {
      FindNamed(x, scope[1..], fs);
    }
  }

  lemma SettingAgrees(P: M.Primitives, v: M.Value, k: D.Cont, m: D.Memory, rk: R.Kont, s: R.RefStore)
    requires k.Setting? && Awaits(k, rk, m.frames, s.closures) && MemoryOk(m, s)
    ensures Leads(P, R.ReturnStep(P, v, rk, s), D.ReturnStep(P, v, k, m))
  {
    Unwrap(k, rk, m.frames, s.closures);
    match D.Find(k.name, k.scope, m.frames) {
      case None => UsualStays(m.globals, k.name, v);
      case Some((a, j)) =>
        FindNamed(k.name, k.scope, m.frames);
        if D.Holds(m, a, j) {
          MemoryAssigned(m, s, a, j, v);
          AwaitsGrows(k.next, rk.next, m.frames, s.closures, D.Assigned(m, a, j, v).frames, s.closures);
        }
    }
    Now(P, R.ReturnStep(P, v, rk, s), D.ReturnStep(P, v, k, m));
  }

  lemma FillingAgrees(P: M.Primitives, v: M.Value, k: D.Cont, m: D.Memory, rk: R.Kont, s: R.RefStore)
    requires k.Filling? && Awaits(k, rk, m.frames, s.closures) && MemoryOk(m, s)
    ensures Leads(P, R.ReturnStep(P, v, rk, s), D.ReturnStep(P, v, k, m))
  {
    Unwrap(k, rk, m.frames, s.closures);
    var Filling(x, names, inits, body, scope, next) := k;
    var (a, j) := D.Find(x, scope, m.frames).value;
    FindNamed(x, scope, m.frames);
    var r0, c := R.ReturnStep(P, v, rk, s), D.ReturnStep(P, v, k, m);
    if D.Holds(m, a, j) {
      var m', t := D.Assigned(m, a, j, v), rk.next.second;
      MemoryAssigned(m, s, a, j, v);
      AwaitsGrows(next, rk.next.next, m.frames, s.closures, m'.frames, s.closures);
      FillGrows([x] + names, inits, body, scope, t, rk.env, m.frames, m'.frames);
      assert forall y :: y in names ==> y in [x] + names;
      assert FillOk(names, inits, body, scope, t, rk.env, m'.frames);
      FillAgrees(P, names, inits, body, scope, next, m', t, rk.env, rk.next.next, r0.st);
      Later(P, r0, c);
    } else {
      Now(P, r0, c);
    }
  }

  lemma RestNext(commands: seq<Form>, loop: D.Loop, outer: D.Scope, inner: D.Scope, t: Core, env: R.Env,
                 fs: Frames, cs: Closures)
    requires commands != [] && RestOk(commands, loop, outer, inner, t, env, fs, cs)
    ensures t.Then? && Becomes(commands[0], t.first) && Agree(Free(commands[0]), inner, env, fs)
    ensures RestOk(commands[1..], loop, outer, inner, t.second, env, fs, cs)
  {
    assert Bottom(|commands|, t) == Bottom(|commands[1..]|, t.second);
    assert FreeAll(commands) == Free(commands[0]) + FreeAll(commands[1..]);
  }

  lemma CommandingWaits(commands: seq<Form>, loop: D.Loop, outer: D.Scope, inner: D.Scope, k: D.Cont, t: Core,
                        env: R.Env, rk: R.Kont, fs: Frames, cs: Closures)
    requires RestOk(commands, loop, outer, inner, t, env, fs, cs) && Awaits(k, rk, fs, cs)
    ensures Awaits(D.Commanding(commands, loop, outer, inner, k), R.Continue(t, env, rk), fs, cs)
  {
    Unwrap(D.Commanding(commands, loop, outer, inner, k), R.Continue(t, env, rk), fs, cs);
  }

  lemma NextCommand(P: M.Primitives, commands: seq<Form>, loop: D.Loop, outer: D.Scope, inner: D.Scope, k: D.Cont,
                    m: D.Memory, t: Core, env: R.Env, rk: R.Kont, s: R.RefStore)
    requires commands != [] && RestOk(commands, loop, outer, inner, t, env, m.frames, s.closures)
    requires Awaits(k, rk, m.frames, s.closures) && MemoryOk(m, s)
    ensures Leads(P, R.Next(P, R.Eval(t, env, rk, s)), D.Command(P, commands, loop, outer, inner, k, m))
  {
    var k', rk' := D.Commanding(commands[1..], loop, outer, inner, k), R.Continue(t.second, env, rk);
    RestNext(commands, loop, outer, inner, t, env, m.frames, s.closures);
    CommandingWaits(commands[1..], loop, outer, inner, k, t.second, env, rk, m.frames, s.closures);
    assert R.Next(P, R.Eval(t, env, rk, s)) == R.Eval(t.first, env, rk', s);
    assert D.Command(P, commands, loop, outer, inner, k, m) == D.Eval(commands[0], inner, k', m);
    Now(P, R.Eval(t.first, env, rk', s), D.Eval(commands[0], inner, k', m));
  }

  lemma CommandAgrees(P: M.Primitives, commands: seq<Form>, loop: D.Loop, outer: D.Scope, inner: D.Scope, k: D.Cont,
                      m: D.Memory,
                      t: Core, env: R.Env, rk: R.Kont, s: R.RefStore)
    requires RestOk(commands, loop, outer, inner, t, env, m.frames, s.closures)
    requires Awaits(k, rk, m.frames, s.closures) && MemoryOk(m, s)
    ensures Leads(P, R.Eval(t, env, rk, s), D.Command(P, commands, loop, outer, inner, k, m))
  {
    var r0, c := R.Eval(t, env, rk, s), D.Command(P, commands, loop, outer, inner, k, m);
    if commands == [] {
      UnsealGoal(D.ToRound(loop, outer), t.f, false, inner, env, m.frames, s.closures);
      EachAgrees(P, loop.steps, D.ToRound(loop, outer), inner, k, m, t.f, t.args, false, env, rk, s);
    } else {
      NextCommand(P, commands, loop, outer, inner, k, m, t, env, rk, s);
    }
    Later(P, r0, c);
  }

  lemma SelectingAgrees(P: M.Primitives, v: M.Value, k: D.Cont, m: D.Memory, rk: R.Kont, s: R.RefStore)
    requires k.Selecting? && Awaits(k, rk, m.frames, s.closures) && MemoryOk(m, s)
    ensures Leads(P, R.ReturnStep(P, v, rk, s), D.ReturnStep(P, v, k, m))
  {
    Unwrap(k, rk, m.frames, s.closures);
    var Selecting(choices, scope, next) := k;
    var f, env := rk.f, rk.env;
    var c := D.ReturnStep(P, v, k, m);
    var clo := R.RefClosure(f.params, None, f.body, env);
    var m', s', env' := m.Enter([], [v]), Framed(Closed(s, clo), [v]), [R.Rib(f.params, |s.frames|)] + env;
    TempStored(v, next, m, clo, rk.next, s);
    AgreeGrows(FreeChoices(choices), scope, env, m.frames, m'.frames);
    assert f.params == [f.params[0]];
    Hidden(FreeChoices(choices), f.params[0], |s.frames|, scope, env, m'.frames);
    assert MatchOk(f.params[0], v, choices, scope, f.body, env', m'.frames);
    DispatchAgrees(P, f.params[0], v, choices, scope, next, m', f.body, env', rk.next, s');
    Enters(P, f, [v], env, rk.next, s, c);
    assert [] + [v] == [v];
  }

  /** Conditionals of every kind. */
  lemma BranchAgrees(P: M.Primitives, v: M.Value, k: D.Cont, m: D.Memory, rk: R.Kont, s: R.RefStore)
    requires k.Choosing? || k.Conjoining? || (k.Clausal? && k.outcome.Some?)
    requires Awaits(k, rk, m.frames, s.closures) && MemoryOk(m, s)
    ensures Leads(P, R.ReturnStep(P, v, rk, s), D.ReturnStep(P, v, k, m))
  {
    Unwrap(k, rk, m.frames, s.closures);
    var r0, c := R.ReturnStep(P, v, rk, s), D.ReturnStep(P, v, k, m);
    if k.Conjoining? && M.IsFalse(v) {
      Now(P, R.Next(P, r0), c);
      Later(P, r0, c);
    } else {
      Now(P, r0, c);
    }
  }

  lemma TestingAgrees(P: M.Primitives, v: M.Value, k: D.Cont, m: D.Memory, rk: R.Kont, s: R.RefStore)
    requires k.Testing? || k.Commanding?
    requires Awaits(k, rk, m.frames, s.closures) && MemoryOk(m, s)
    ensures Leads(P, R.ReturnStep(P, v, rk, s), D.ReturnStep(P, v, k, m))
  {
    Unwrap(k, rk, m.frames, s.closures);
    if k.Commanding? {
      CommandAgrees(P, k.commands, k.loop, k.outer, k.inner, k.next, m, rk.second, rk.env, rk.next, s);
    } else if M.IsFalse(v) {
      CommandAgrees(P, k.loop.commands, k.loop, k.outer, k.inner, k.next, m, rk.els, rk.env, rk.next, s);
    } else {
      Now(P, R.ReturnStep(P, v, rk, s), D.ReturnStep(P, v, k, m));
    }
  }

  lemma PlainReturnAgrees(P: M.Primitives, v: M.Value, k: D.Cont, m: D.Memory, rk: R.Kont, s: R.RefStore)
    requires k.Finish? || k.Continuing? || k.Defining?
    requires Awaits(k, rk, m.frames, s.closures) && MemoryOk(m, s)
    ensures Leads(P, R.ReturnStep(P, v, rk, s), D.ReturnStep(P, v, k, m))
  {
    Unwrap(k, rk, m.frames, s.closures);
    if k.Defining? {
      UsualStays(m.globals, k.name, v);
    }
    Now(P, R.ReturnStep(P, v, rk, s), D.ReturnStep(P, v, k, m));
  }

  lemma UsualStays(globals: map<Symbol, M.Value>, x: Symbol, v: M.Value)
    requires Usual(globals) && !Standard(x)
    ensures Usual(globals[x := v])
  {
    var after := globals[x := v];
    forall op ensures UsualAt(after, op) {
      assert UsualAt(globals, op);
    }
  }

  lemma CallReturnAgrees(P: M.Primitives, v: M.Value, k: D.Cont, m: D.Memory, rk: R.Kont, s: R.RefStore)
    requires k.Operating? || k.Capturing?
    requires Awaits(k, rk, m.frames, s.closures) && MemoryOk(m, s)
    ensures Leads(P, R.ReturnStep(P, v, rk, s), D.ReturnStep(P, v, k, m))
  {
    Unwrap(k, rk, m.frames, s.closures);
    if k.Operating? {
      ApplyAgrees(P, v, k.args, k.next, rk.next, m, s);
    } else {
      var m', s' := m.(conts := m.conts + [k.next]), s.(conts := s.conts + [rk.next]);
      Unsealed(k.next, rk.next, m.frames, s.closures);
      ApplyAgrees(P, v, [M.Continuation(|m.conts|)], k.next, rk.next, m', s');
    }
    Now(P, R.ReturnStep(P, v, rk, s), D.ReturnStep(P, v, k, m));
  }

  lemma TempReturnAgrees(P: M.Primitives, v: M.Value, k: D.Cont, m: D.Memory, rk: R.Kont, s: R.RefStore)
    requires k.Disjoining? || (k.Clausal? && k.outcome.None?)
    requires Awaits(k, rk, m.frames, s.closures) && MemoryOk(m, s)
    ensures Leads(P, R.ReturnStep(P, v, rk, s), D.ReturnStep(P, v, k, m))
  {
    Unwrap(k, rk, m.frames, s.closures);
    var rest := if k.Disjoining? then Form.Or(k.forms) else Form.Cond(k.clauses);
    TempAgrees(P, v, rest, k.scope, k.next, m, rk, s);
  }

  lemma ReturnAgrees(P: M.Primitives, v: M.Value, k: D.Cont, m: D.Memory, rk: R.Kont, s: R.RefStore)
    requires Awaits(k, rk, m.frames, s.closures) && MemoryOk(m, s)
    ensures Leads(P, R.ReturnStep(P, v, rk, s), D.ReturnStep(P, v, k, m))
  {
    if k.Each? {
      EachReturns(P, v, k, m, rk, s);
    } else if k.Setting? {
      SettingAgrees(P, v, k, m, rk, s);
    } else if k.Filling? {
      FillingAgrees(P, v, k, m, rk, s);
    } else if k.Selecting? {
      SelectingAgrees(P, v, k, m, rk, s);
    } else if k.Choosing? || k.Conjoining? || (k.Clausal? && k.outcome.Some?) {
      BranchAgrees(P, v, k, m, rk, s);
    } else if k.Testing? || k.Commanding? {
      TestingAgrees(P, v, k, m, rk, s);
    } else if k.Operating? || k.Capturing? {
      CallReturnAgrees(P, v, k, m, rk, s);
    } else if k.Disjoining? || k.Clausal? {
      TempReturnAgrees(P, v, k, m, rk, s);
    } else {
      PlainReturnAgrees(P, v, k, m, rk, s);
    }
  }

  /** Every step of the direct evaluation is matched by some steps of the core evaluation. */
  lemma StepAgrees(P: M.Primitives, r: R.Config, c: D.Config)
    requires ConfigOk(c, r)
    ensures Leads(P, R.Next(P, r), D.Next(P, c))
  {
    match c
    case Eval(f, scope, k, m) => EvalAgrees(P, f, scope, k, m, r.t, r.env, r.k, r.st);
    case Match(v, choices, scope, k, m) =>
      var y :| MatchOk(y, v, choices, scope, r.t, r.env, m.frames);
      MatchAgrees(P, y, v, choices, scope, k, m, r.t, r.env, r.k, r.st);
    case Return(v, k, m) => ReturnAgrees(P, v, k, m, r.k, r.st);
    case _ => Now(P, R.Next(P, r), c);
  }
}
