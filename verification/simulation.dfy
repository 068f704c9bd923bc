/** The compiled code simulates the reference semantics, one machine instruction at a time. */
module Simulation {
  import opened Wrappers
  import opened Datums
  import opened Symbols
  import opened CoreLanguage
  import M = Machine
  import opened CodeGen
  import R = Reference
  import opened Iteration

  type Code = M.Code
  type Value = M.Value
  type Dump = M.Dump

  // ---- How machine registers represent a continuation ----

  function FramesOf(env: R.Env): (e: seq<nat>)
    ensures |e| == |env|
  {
    seq(|env|, i requires 0 <= i < |env| => env[i].frame)
  }

  function ScopeOf(env: R.Env): (scope: Scope)
    ensures |scope| == |env|
  {
    seq(|env|, i requires 0 <= i < |env| => env[i].names)
  }

  /** A dump entry pushed by a call: its code resumes just after an APP or CALLCC. */
  predicate CallEntry(d: Dump) {
    d.Saved? && 0 < d.pc <= |d.c| && (d.c[d.pc - 1].APP? || d.c[d.pc - 1].CALLCC?)
  }

  /** A dump entry pushed by a test: its code resumes just after a SEL. */
  predicate TestEntry(d: Dump) {
    d.Saved? && 0 < d.pc <= |d.c| && d.c[d.pc - 1].SEL?
  }

  /** The instructions of a call from its next argument on, n arguments in all. */
  function CallRest(todo: seq<Core>, f: Core, spread: bool, n: nat, scope: Scope, tail: bool): Code {
    GenArgs(todo, scope) + ([PackCode(spread, n)] + (Gen(f, scope, false) + [CallCode(tail)]))
  }

  /** Pushing a value on s and running `code` with registers e and d does what k does with the value. */
  ghost predicate Implements(k: R.Kont, s: seq<Value>, e: seq<nat>, code: Code, d: Dump)
    decreases k, d, 1
  {
    && code != []
    && (|| (code[0].RTN? && CallEntry(d) && Implements(k, d.s, d.e, d.c[d.pc..], d.next))
        || (code[0].JOIN? && TestEntry(d) && s == d.s && e == d.e && Implements(k, s, e, d.c[d.pc..], d.next))
        || Direct(k, s, e, code, d))
  }

  /** What follows an expression: code that goes on with its value or, in tail position, RTN to where that code is. */
  ghost predicate Follows(tail: bool, k: R.Kont, s: seq<Value>, e: seq<nat>, code: Code, d: Dump)
    decreases k, d, 2
  {
    if tail then code != [] && code[0].RTN? && CallEntry(d) && Implements(k, d.s, d.e, d.c[d.pc..], d.next)
    else Implements(k, s, e, code, d)
  }

  /** Running `code` evaluates t and passes its value to k. */
  ghost predicate Evaluates(t: Core, env: R.Env, tail: bool, k: R.Kont, s: seq<Value>, code: Code, d: Dump)
    decreases k, d, 3
  {
    var g := Gen(t, ScopeOf(env), tail);
    g <= code && Follows(tail, k, s, FramesOf(env), code[|g|..], d)
  }

  /** The next instruction belongs to k itself. */
  ghost predicate Direct(k: R.Kont, s: seq<Value>, e: seq<nat>, code: Code, d: Dump)
    requires code != []
    decreases k, d, 0
  {
    var ins, after := code[0], code[1..];
    match k
    case Finish => ins.STOP? && d.Empty? && s == []
    case Branch(thn, els, env, next) =>
      && e == FramesOf(env)
      && (|| ins == M.SEL(BranchCode(thn, ScopeOf(env), false), BranchCode(els, ScopeOf(env), false))
          || ins == M.SELR(BranchCode(thn, ScopeOf(env), true), BranchCode(els, ScopeOf(env), true)))
      && Follows(ins.SELR?, next, s, e, after, d)
    case Continue(b, env, next) =>
      && e == FramesOf(env)
      && ins.POP?
      && (Evaluates(b, env, false, next, s, after, d) || Evaluates(b, env, true, next, s, after, d))
    case Argument(done, todo, f, spread, env, next) =>
      && e == FramesOf(env)
      && |done| <= |s| && s[|s| - |done|..] == done
      && (|| Calls(todo, f, spread, |done| + 1 + |todo|, env, false, next, s[..|s| - |done|], code, d)
          || Calls(todo, f, spread, |done| + 1 + |todo|, env, true, next, s[..|s| - |done|], code, d))
    case Operator(args, next) =>
      && s != [] && s[|s| - 1] == M.ArgList(args)
      && (ins.APP? || ins.TAPP?)
      && Follows(ins.TAPP?, next, s[..|s| - 1], e, after, d)
    case Defining(x, next) => ins == M.DEF(x) && Implements(next, s, e, after, d)
    case Assigning(x, env, next) =>
      e == FramesOf(env) && ins == StoreCode(x, ScopeOf(env)) && Implements(next, s, e, after, d)
    case Hole(hs, he, hcode, hd) => s == hs && e == he && code == hcode && d == hd
    case Capturing(next) =>
      && (ins.CALLCC? || ins.TCALLCC?)
      && Follows(ins.TCALLCC?, next, s, e, after, d)
  }

  ghost predicate Calls(todo: seq<Core>, f: Core, spread: bool, n: nat, env: R.Env, tail: bool,
                        k: R.Kont, s: seq<Value>, code: Code, d: Dump)
    decreases k, d, 3
  {
    var g := CallRest(todo, f, spread, n, ScopeOf(env), tail);
    g <= code && Follows(tail, k, s, FramesOf(env), code[|g|..], d)
  }

  /** In tail position too, pushing the value and running the code after it does what k does with it. */
  lemma FollowsImplements(tail: bool, k: R.Kont, s: seq<Value>, e: seq<nat>, code: Code, d: Dump)
    requires Follows(tail, k, s, e, code, d)
    ensures Implements(k, s, e, code, d)
  {
  }

  // ---- Related stores and states ----

  function CompileClosure(clo: R.RefClosure): M.MachineClosure {
    M.MachineClosure(clo.params, clo.rest,
                     BodyCode(clo.body, [M.FrameNames(clo.params, clo.rest)] + ScopeOf(clo.env)),
                     FramesOf(clo.env))
  }

  ghost predicate ImplementsCont(k: R.Kont, mk: M.MachineCont) {
    mk.pc <= |mk.c| && Implements(k, mk.s, mk.e, mk.c[mk.pc..], mk.d)
  }

  ghost predicate StoresRelated(rs: R.RefStore, ms: M.MachineStore) {
    && rs.frames == ms.frames && rs.globals == ms.globals && rs.macros == ms.macros && rs.heap == ms.heap
    && |rs.closures| == |ms.closures|
    && (forall i :: 0 <= i < |rs.closures| ==> ms.closures[i] == CompileClosure(rs.closures[i]))
    && |rs.conts| == |ms.conts|
    && (forall i :: 0 <= i < |rs.conts| ==> ImplementsCont(rs.conts[i], ms.conts[i]))
  }

  ghost predicate Related(r: R.Config, m: M.State) {
    && m.pc <= |m.c|
    && match r
       case Eval(t, env, k, st) =>
         && StoresRelated(st, m.st)
         && m.e == FramesOf(env)
         && (Evaluates(t, env, false, k, m.s, m.c[m.pc..], m.d) || Evaluates(t, env, true, k, m.s, m.c[m.pc..], m.d))
       case Return(v, k, st) =>
         && StoresRelated(st, m.st)
         && m.s != [] && m.Top() == v
         && Implements(k, m.Below(), m.e, m.c[m.pc..], m.d)
       case _ => false
  }

  ghost predicate OutcomeRelated(r: R.Config, o: M.Outcome) {
    match r
    case Done(v, st) => o.Halted? && o.v == v && StoresRelated(st, o.st)
    case Failed(f) => o == M.Faulted(f)
    case _ => o.Running? && Related(r, o.m)
  }

  // ---- Code positions ----

  lemma SplitPrefix(a: Code, b: Code, code: Code)
    requires a + b <= code
    ensures a <= code && b <= code[|a|..]
    ensures code[|a|..][|b|..] == code[|a + b|..]
  {
    assert a == (a + b)[..|a|];
    assert b == (a + b)[|a|..];
    assert code[|a|..][..|b|] == code[|a|..|a| + |b|];
  }

  lemma Fetch(c: Code, pc: nat)
    requires pc <= |c| && c[pc..] != []
    ensures pc < |c| && c[pc] == c[pc..][0] && c[pc + 1..] == c[pc..][1..]
  {
  }

  lemma {:induction false} LookupIsLocation(x: Symbol, env: R.Env)
    ensures match LocationOf(x, ScopeOf(env))
            case None => R.Lookup(x, env) == None
            case Some((i, j)) => i < |env| && R.Lookup(x, env) == Some((FramesOf(env)[i], j))
  {
    if env != [] {
      LookupIsLocation(x, env[1..]);
      assert ScopeOf(env)[1..] == ScopeOf(env[1..]);
      assert FramesOf(env)[1..] == FramesOf(env[1..]);
    }
  }

  /** Code never starts with the instruction that ends a branch or a body. */
  lemma {:induction false} GenStart(t: Core, scope: Scope, tail: bool)
    ensures Gen(t, scope, tail) != [] && !Gen(t, scope, tail)[0].RTN? && !Gen(t, scope, tail)[0].JOIN?
    ensures !Gen(t, scope, tail)[0].STOP?
  {
    match t
    case Const(_) =>
    case Ref(_) =>
    case Test(c, _, _) => GenStart(c, scope, false);
    case Then(a, _) => GenStart(a, scope, false);
    case Fun(_, _, _) =>
    case Def(_, rhs) => GenStart(rhs, scope, false);
    case Assign(_, rhs) => GenStart(rhs, scope, false);
    case CaptureCall(f) => GenStart(f, scope, false);
    case Call(f, args) => if args != [] { GenStart(args[0], scope, false); }
    case Spread(f, args) => if args != [] { GenStart(args[0], scope, false); }
  }

  // ---- Expressions that the machine enters without executing anything ----

  predicate IsCompound(t: Core) {
    match t
    case Const(_) => false
    case Ref(_) => false
    case Fun(_, _, _) => false
    case Call(_, args) => args != []
    case Spread(_, args) => args != []
    case _ => true
  }

  lemma EnterCompound(t: Core, env: R.Env, tail: bool, k: R.Kont, st: R.RefStore, s: seq<Value>, code: Code, d: Dump)
    requires IsCompound(t)
    requires Evaluates(t, env, tail, k, s, code, d)
    ensures var r := R.EvalStep(t, env, k, st);
            r.Eval? && r.env == env && r.st == st && r.t < t && Evaluates(r.t, env, false, r.k, s, code, d)
  {
    match t
    case Test(c, thn, els) => EnterTest(c, thn, els, env, tail, k, s, code, d);
    case Then(a, b) => EnterThen(a, b, env, tail, k, s, code, d);
    case Def(x, rhs) => EnterDef(x, rhs, env, tail, k, s, code, d);
    case Assign(x, rhs) => EnterAssign(x, rhs, env, tail, k, s, code, d);
    case CaptureCall(f) => EnterCapture(f, env, tail, k, s, code, d);
    case Call(f, args) => EnterCall(f, args, false, env, tail, k, s, code, d);
    case Spread(f, args) => EnterCall(f, args, true, env, tail, k, s, code, d);
  }

  lemma EnterDef(x: Symbol, rhs: Core, env: R.Env, tail: bool, k: R.Kont, s: seq<Value>, code: Code, d: Dump)
    requires Evaluates(Def(x, rhs), env, tail, k, s, code, d)
    ensures Evaluates(rhs, env, false, R.Defining(x, k), s, code, d)
  {
    var g, after := Gen(rhs, ScopeOf(env), false), code[|Gen(Def(x, rhs), ScopeOf(env), tail)|..];
    SplitPrefix(g, [M.DEF(x)], code);
    FollowsImplements(tail, k, s, FramesOf(env), after, d);
    assert code[|g|..][1..] == after && code[|g|..][0] == M.DEF(x);
    assert Direct(R.Defining(x, k), s, FramesOf(env), code[|g|..], d);
  }

  lemma EnterAssign(x: Symbol, rhs: Core, env: R.Env, tail: bool, k: R.Kont, s: seq<Value>, code: Code, d: Dump)
    requires Evaluates(Assign(x, rhs), env, tail, k, s, code, d)
    ensures Evaluates(rhs, env, false, R.Assigning(x, env, k), s, code, d)
  {
    var g, after := Gen(rhs, ScopeOf(env), false), code[|Gen(Assign(x, rhs), ScopeOf(env), tail)|..];
    SplitPrefix(g, [StoreCode(x, ScopeOf(env))], code);
    FollowsImplements(tail, k, s, FramesOf(env), after, d);
    assert code[|g|..][1..] == after && code[|g|..][0] == StoreCode(x, ScopeOf(env));
    assert Direct(R.Assigning(x, env, k), s, FramesOf(env), code[|g|..], d);
  }

  lemma EnterCapture(f: Core, env: R.Env, tail: bool, k: R.Kont, s: seq<Value>, code: Code, d: Dump)
    requires Evaluates(CaptureCall(f), env, tail, k, s, code, d)
    ensures Evaluates(f, env, false, R.Capturing(k), s, code, d)
  {
    var g, after := Gen(f, ScopeOf(env), false), code[|Gen(CaptureCall(f), ScopeOf(env), tail)|..];
    SplitPrefix(g, [CaptureCode(tail)], code);
    assert code[|g|..][1..] == after && code[|g|..][0] == CaptureCode(tail);
    assert Direct(R.Capturing(k), s, FramesOf(env), code[|g|..], d);
  }

  lemma EnterTest(c: Core, thn: Core, els: Core, env: R.Env, tail: bool, k: R.Kont, s: seq<Value>, code: Code, d: Dump)
    requires Evaluates(Test(c, thn, els), env, tail, k, s, code, d)
    ensures Evaluates(c, env, false, R.Branch(thn, els, env, k), s, code, d)
  {
    var scope := ScopeOf(env);
    var ct, cf := BranchCode(thn, scope, tail), BranchCode(els, scope, tail);
    SplitPrefix(Gen(c, scope, false), [if tail then M.SELR(ct, cf) else M.SEL(ct, cf)], code);
    var rest := code[|Gen(c, scope, false)|..];
    assert rest[1..] == code[|Gen(Test(c, thn, els), scope, tail)|..];
    assert Direct(R.Branch(thn, els, env, k), s, FramesOf(env), rest, d);
  }

  lemma EnterThen(a: Core, b: Core, env: R.Env, tail: bool, k: R.Kont, s: seq<Value>, code: Code, d: Dump)
    requires Evaluates(Then(a, b), env, tail, k, s, code, d)
    ensures Evaluates(a, env, false, R.Continue(b, env, k), s, code, d)
  {
    var scope := ScopeOf(env);
    SplitPrefix(Gen(a, scope, false), [M.POP] + Gen(b, scope, tail), code);
    var rest := code[|Gen(a, scope, false)|..];
    SplitPrefix([M.POP], Gen(b, scope, tail), rest);
    assert rest[1..][|Gen(b, scope, tail)|..] == code[|Gen(Then(a, b), scope, tail)|..];
    assert Evaluates(b, env, tail, k, s, rest[1..], d);
    assert Direct(R.Continue(b, env, k), s, FramesOf(env), rest, d);
  }

  lemma EnterCall(f: Core, args: seq<Core>, spread: bool, env: R.Env, tail: bool, k: R.Kont, s: seq<Value>, code: Code,
                  d: Dump)
    requires args != []
    requires Evaluates(if spread then Spread(f, args) else Call(f, args), env, tail, k, s, code, d)
    ensures Evaluates(args[0], env, false, R.Argument([], args[1..], f, spread, env, k), s, code, d)
  {
    var scope := ScopeOf(env);
    var first := Gen(args[0], scope, false);
    var others := CallRest(args[1..], f, spread, |args|, scope, tail);
    assert Gen(if spread then Spread(f, args) else Call(f, args), scope, tail) == first + others;
    SplitPrefix(first, others, code);
    assert Calls(args[1..], f, spread, |args|, env, tail, k, s, code[|first|..], d);
    FirstArgument(f, args[1..], spread, env, tail, k, s, code[|first|..], d);
  }

  /** The continuation of the first argument, `todo` being the others. */
  lemma FirstArgument(f: Core, todo: seq<Core>, spread: bool, env: R.Env, tail: bool, k: R.Kont, s: seq<Value>,
                      code: Code, d: Dump)
    requires Calls(todo, f, spread, |todo| + 1, env, tail, k, s, code, d)
    ensures Implements(R.Argument([], todo, f, spread, env, k), s, FramesOf(env), code, d)
  {
    CallRestStart(todo, f, spread, |todo| + 1, ScopeOf(env), tail);
    assert s[|s|..] == [] && s[..|s| - 0] == s;
    ArgumentIsDirect([], todo, f, spread, env, tail, k, s, code, d);
  }

  // ---- One instruction ----

  /** After an expression that is one instruction, its continuation follows. */
  lemma AfterOne(r: R.Config, m: M.State)
    requires r.Eval? && Related(r, m)
    requires r.t.Const? || r.t.Ref? || r.t.Fun?
    ensures m.pc < |m.c| && Implements(r.k, m.s, m.e, m.c[m.pc..][1..], m.d)
    ensures [m.c[m.pc]] == Gen(r.t, ScopeOf(r.env), false)
  {
    var code := m.c[m.pc..];
    var tail := Evaluates(r.t, r.env, true, r.k, m.s, code, m.d);
    FollowsImplements(tail, r.k, m.s, m.e, code[1..], m.d);
  }

  lemma ConstLeaf(P: M.Primitives, r: R.Config, m: M.State)
    requires r.Eval? && Related(r, m) && r.t.Const?
    ensures OutcomeRelated(R.Next(P, r), M.Step(P, m))
  {
    AfterOne(r, m);
    Fetch(m.c, m.pc);
    Pushed(r.k, m, m.st, M.Lit(r.t.x));
  }

  lemma VariableLeaf(P: M.Primitives, r: R.Config, m: M.State)
    requires r.Eval? && Related(r, m) && r.t.Ref?
    ensures OutcomeRelated(R.Next(P, r), M.Step(P, m))
  {
    AfterOne(r, m);
    Fetch(m.c, m.pc);
    LookupIsLocation(r.t.name, r.env);
    var o := R.Next(P, r);
    if o.Return? {
      Pushed(r.k, m, m.st, o.v);
    }
  }

  lemma ProcedureLeaf(P: M.Primitives, r: R.Config, m: M.State)
    requires r.Eval? && Related(r, m) && r.t.Fun?
    ensures OutcomeRelated(R.Next(P, r), M.Step(P, m))
  {
    AfterOne(r, m);
    Fetch(m.c, m.pc);
    var clo := CompileClosure(R.RefClosure(r.t.params, r.t.rest, r.t.body, r.env));
    Pushed(r.k, m, m.st.(closures := m.st.closures + [clo]), M.Closure(|m.st.closures|));
  }

  /** An expression that is a single instruction, or a call without arguments, takes one step on both sides. */
  lemma LeafStep(P: M.Primitives, r: R.Config, m: M.State)
    requires r.Eval? && Related(r, m) && !IsCompound(r.t)
    ensures OutcomeRelated(R.Next(P, r), M.Step(P, m))
  {
    match r.t
    case Const(_) => ConstLeaf(P, r, m);
    case Ref(_) => VariableLeaf(P, r, m);
    case Fun(_, _, _) => ProcedureLeaf(P, r, m);
    case Call(f, _) => EmptyCall(P, f, false, r, m);
    case Spread(f, _) => EmptyCall(P, f, true, r, m);
  }

  /** After one instruction that only pushes v, the machine is ready to return v. */
  lemma Pushed(k: R.Kont, m: M.State, st: M.MachineStore, v: Value)
    requires m.pc < |m.c| && Implements(k, m.s, m.e, m.c[m.pc..][1..], m.d)
    ensures var m' := m.(pc := m.pc + 1, st := st).Push(v);
            m'.Top() == v && m'.Below() == m.s && Implements(k, m'.Below(), m'.e, m'.c[m'.pc..], m'.d)
  {
    assert (m.s + [v])[..|m.s|] == m.s;
    Fetch(m.c, m.pc);
  }

  lemma EmptyCall(P: M.Primitives, f: Core, spread: bool, r: R.Config, m: M.State)
    requires r.Eval? && Related(r, m) && r.t == if spread then Spread(f, []) else Call(f, [])
    ensures OutcomeRelated(R.Next(P, r), M.Step(P, m))
  {
    var code := m.c[m.pc..];
    var tail := Evaluates(r.t, r.env, true, r.k, m.s, code, m.d);
    EmptyCallCode(f, spread, r.env, tail, r.k, m.s, code, m.d);
    OperatorNext(f, [], r.env, tail, r.k, m.s, code[1..], m.d);
    Fetch(m.c, m.pc);
    PackNothing(P, m);
    assert R.Next(P, r) == R.Eval(f, r.env, R.Operator([], r.k), r.st);
  }

  lemma PackNothing(P: M.Primitives, m: M.State)
    requires m.pc < |m.c| && m.c[m.pc] == M.ARGS(0)
    ensures M.Step(P, m) == M.Running(m.(pc := m.pc + 1).Push(M.ArgList([])))
  {
    assert m.s[..|m.s| - 0] == m.s && m.s[|m.s| - 0..] == [];
  }

  lemma EmptyCallCode(f: Core, spread: bool, env: R.Env, tail: bool, k: R.Kont, s: seq<Value>, code: Code, d: Dump)
    requires Evaluates(if spread then Spread(f, []) else Call(f, []), env, tail, k, s, code, d)
    ensures code != [] && code[0] == M.ARGS(0)
    ensures var g := Gen(f, ScopeOf(env), false);
            && g + [CallCode(tail)] <= code[1..]
            && Follows(tail, k, s, FramesOf(env), code[1..][|g| + 1..], d)
  {
    var scope := ScopeOf(env);
    var others := Gen(f, scope, false) + [CallCode(tail)];
    assert Gen(if spread then Spread(f, []) else Call(f, []), scope, tail) == [M.ARGS(0)] + others;
    SplitPrefix([M.ARGS(0)], others, code);
  }

  /** With its argument list on the stack, a call is about to evaluate its operator. */
  lemma OperatorNext(f: Core, args: seq<Value>, env: R.Env, tail: bool, k: R.Kont, s: seq<Value>, code: Code, d: Dump)
    requires Gen(f, ScopeOf(env), false) + [CallCode(tail)] <= code
    requires Follows(tail, k, s, FramesOf(env), code[|Gen(f, ScopeOf(env), false)| + 1..], d)
    ensures Evaluates(f, env, false, R.Operator(args, k), s + [M.ArgList(args)], code, d)
  {
    var g := Gen(f, ScopeOf(env), false);
    SplitPrefix(g, [CallCode(tail)], code);
    var s' := s + [M.ArgList(args)];
    assert s'[..|s'| - 1] == s;
    assert code[|g|..][1..] == code[|g| + 1..];
    assert Direct(R.Operator(args, k), s', FramesOf(env), code[|g|..], d);
  }

  lemma CallRestStart(todo: seq<Core>, f: Core, spread: bool, n: nat, scope: Scope, tail: bool)
    ensures var g := CallRest(todo, f, spread, n, scope, tail);
            g != [] && !g[0].RTN? && !g[0].JOIN? && !g[0].STOP?
  {
    if todo != [] {
      GenStart(todo[0], scope, false);
    }
  }

  /** No continuation's own instruction is RTN or JOIN. */
  lemma NotDirect(k: R.Kont, s: seq<Value>, e: seq<nat>, code: Code, d: Dump)
    requires !k.Hole? && code != [] && (code[0].RTN? || code[0].JOIN?)
    ensures !Direct(k, s, e, code, d)
  {
    if k.Argument? {
      CallRestStart(k.todo, k.f, k.spread, |k.done| + 1 + |k.todo|, ScopeOf(k.env), false);
      CallRestStart(k.todo, k.f, k.spread, |k.done| + 1 + |k.todo|, ScopeOf(k.env), true);
    }
  }

  /** RTN and JOIN change the registers but not the continuation they represent. */
  lemma ReturnThrough(P: M.Primitives, r: R.Config, m: M.State)
    requires r.Return? && Related(r, m)
    requires !Direct(r.k, m.Below(), m.e, m.c[m.pc..], m.d)
    ensures m.d.Saved? && M.Step(P, m).Running? && M.Step(P, m).m.d == m.d.next
    ensures Related(r, M.Step(P, m).m)
  {
    Fetch(m.c, m.pc);
    var m' := M.Step(P, m).m;
    if m.c[m.pc].RTN? {
      assert m'.Below() == m.d.s;
    } else {
      assert m'.Below() == m.Below();
    }
  }

  lemma ReturnStep(P: M.Primitives, r: R.Config, m: M.State)
    requires r.Return? && Related(r, m) && Direct(r.k, m.Below(), m.e, m.c[m.pc..], m.d)
    requires !(r.k.Argument? && r.k.todo != []) && !r.k.Hole?
    ensures OutcomeRelated(R.Next(P, r), M.Step(P, m))
  {
    match r.k
    case Finish => Fetch(m.c, m.pc);
    case Branch(_, _, _, _) => TestStep(P, r, m);
    case Continue(_, _, _) => PopStep(P, r, m);
    case Argument(_, _, _, _, _, _) => PackStep(P, r, m);
    case Operator(_, _) => CallStep(P, r, m);
    case Defining(_, _) => DefineStep(P, r, m);
    case Assigning(_, _, _) => AssignStep(P, r, m);
    case Capturing(_) => CaptureStep(P, r, m);
  }

  lemma PopStep(P: M.Primitives, r: R.Config, m: M.State)
    requires r.Return? && r.k.Continue? && Related(r, m) && Direct(r.k, m.Below(), m.e, m.c[m.pc..], m.d)
    ensures OutcomeRelated(R.Next(P, r), M.Step(P, m))
  {
    Fetch(m.c, m.pc);
  }

  lemma DefineStep(P: M.Primitives, r: R.Config, m: M.State)
    requires r.Return? && r.k.Defining? && Related(r, m) && Direct(r.k, m.Below(), m.e, m.c[m.pc..], m.d)
    ensures OutcomeRelated(R.Next(P, r), M.Step(P, m))
  {
    Fetch(m.c, m.pc);
    Pushed(r.k.next, m.(s := m.Below()), m.st, M.Lit(Sym(r.k.name)));
  }

  lemma AssignStep(P: M.Primitives, r: R.Config, m: M.State)
    requires r.Return? && r.k.Assigning? && Related(r, m) && Direct(r.k, m.Below(), m.e, m.c[m.pc..], m.d)
    ensures OutcomeRelated(R.Next(P, r), M.Step(P, m))
  {
    Fetch(m.c, m.pc);
    LookupIsLocation(r.k.name, r.k.env);
  }

  lemma TestStep(P: M.Primitives, r: R.Config, m: M.State)
    requires r.Return? && r.k.Branch? && Related(r, m) && Direct(r.k, m.Below(), m.e, m.c[m.pc..], m.d)
    ensures OutcomeRelated(R.Next(P, r), M.Step(P, m))
  {
    Fetch(m.c, m.pc);
    var env, next, scope := r.k.env, r.k.next, ScopeOf(r.k.env);
    var t := if M.IsFalse(r.v) then r.k.els else r.k.thn;
    var tail := m.c[m.pc].SELR?;
    var m' := M.Step(P, m).m;
    var g := Gen(t, scope, tail);
    assert m'.c == g + [if tail then M.RTN else M.JOIN];
    assert m'.c[0..] == m'.c && m'.c[|g|..] == [if tail then M.RTN else M.JOIN];
    assert g <= m'.c;
    if !tail {
      assert m'.d.c[m'.d.pc..] == m.c[m.pc..][1..];
    }
    assert Evaluates(t, env, tail, next, m'.s, m'.c[0..], m'.d);
  }

  /** The stack during a call: what was there before, the values so far, and the last one on top. */
  lemma StackShape(s: seq<Value>, done: seq<Value>, v: Value)
    requires s != [] && s[|s| - 1] == v
    requires |done| < |s| && s[..|s| - 1][|s| - 1 - |done|..] == done
    ensures var n := |s| - |done| - 1;
            s[..|s| - 1][..n] == s[..n] && s[n..] == done + [v] && s == s[..n] + done + [v]
  {
    var n := |s| - |done| - 1;
    assert s[..|s| - 1][n..] == s[n..|s| - 1];
  }

  lemma PackArguments(P: M.Primitives, m: M.State, n: nat, vs: seq<Value>)
    requires m.pc < |m.c| && m.c[m.pc] == M.ARGS(n)
    requires n <= |m.s| && m.s[|m.s| - n..] == vs
    ensures M.Step(P, m) == M.Running(m.(s := m.s[..|m.s| - n], pc := m.pc + 1).Push(M.ArgList(vs)))
  {
  }

  lemma PackSpread(P: M.Primitives, m: M.State, n: nat, done: seq<Value>)
    requires m.pc < |m.c| && m.c[m.pc] == M.ARGS_AP(n)
    requires 0 < n <= |m.s| && m.s[|m.s| - n..|m.s| - 1] == done
    ensures M.Step(P, m) ==
            match M.Elements(m.st.heap, m.Top(), {})
            case None => M.Faulted(M.NotAList)
            case Some(vs) => M.Running(m.(s := m.s[..|m.s| - n], pc := m.pc + 1).Push(M.ArgList(done + vs)))
  {
  }

  lemma PackStep(P: M.Primitives, r: R.Config, m: M.State)
    requires r.Return? && r.k.Argument? && r.k.todo == []
    requires Related(r, m) && Direct(r.k, m.Below(), m.e, m.c[m.pc..], m.d)
    ensures OutcomeRelated(R.Next(P, r), M.Step(P, m))
  {
    var n, code := |r.k.done| + 1, m.c[m.pc..];
    StackShape(m.s, r.k.done, r.v);
    var s0 := m.s[..|m.s| - n];
    var tail := Calls([], r.k.f, r.k.spread, n, r.k.env, true, r.k.next, s0, code, m.d);
    PackCodeNext(r.k.f, r.k.spread, n, r.k.env, tail, r.k.next, s0, code, m.d);
    Fetch(m.c, m.pc);
    if r.k.spread {
      SpreadStep(P, r, m, tail, s0);
    } else {
      PackArguments(P, m, n, r.k.done + [r.v]);
      Packed(r, m, r.k.done + [r.v], tail, s0);
    }
  }

  lemma SpreadStep(P: M.Primitives, r: R.Config, m: M.State, tail: bool, s0: seq<Value>)
    requires r.Return? && r.k.Argument? && r.k.todo == [] && r.k.spread
    requires m.pc < |m.c| && StoresRelated(r.st, m.st) && m.e == FramesOf(r.k.env)
    requires m.c[m.pc] == M.ARGS_AP(|r.k.done| + 1)
    requires m.s == s0 + r.k.done + [r.v]
    requires var g, code := Gen(r.k.f, ScopeOf(r.k.env), false), m.c[m.pc..][1..];
             && g + [CallCode(tail)] <= code
             && Follows(tail, r.k.next, s0, FramesOf(r.k.env), code[|g| + 1..], m.d)
    ensures OutcomeRelated(R.Next(P, r), M.Step(P, m))
  {
    var n := |r.k.done| + 1;
    assert m.s[..|m.s| - n] == s0 && m.s[|m.s| - n..|m.s| - 1] == r.k.done;
    PackSpread(P, m, n, r.k.done);
    var vs := M.Elements(m.st.heap, r.v, {});
    if vs.Some? {
      Packed(r, m, r.k.done + vs.value, tail, s0);
    }
  }

  /** After the arguments are packed, the operator is evaluated. */
  lemma Packed(r: R.Config, m: M.State, args: seq<Value>, tail: bool, s0: seq<Value>)
    requires r.Return? && r.k.Argument? && m.pc < |m.c| && StoresRelated(r.st, m.st) && m.e == FramesOf(r.k.env)
    requires var g, code := Gen(r.k.f, ScopeOf(r.k.env), false), m.c[m.pc..][1..];
             && g + [CallCode(tail)] <= code
             && Follows(tail, r.k.next, s0, FramesOf(r.k.env), code[|g| + 1..], m.d)
    ensures Related(R.Eval(r.k.f, r.k.env, R.Operator(args, r.k.next), r.st),
                    m.(s := s0, pc := m.pc + 1).Push(M.ArgList(args)))
  {
    OperatorNext(r.k.f, args, r.k.env, tail, r.k.next, s0, m.c[m.pc..][1..], m.d);
    Fetch(m.c, m.pc);
  }

  lemma PackCodeNext(f: Core, spread: bool, n: nat, env: R.Env, tail: bool, k: R.Kont, s: seq<Value>, code: Code,
                     d: Dump)
    requires Calls([], f, spread, n, env, tail, k, s, code, d)
    ensures code != [] && code[0] == PackCode(spread, n)
    ensures var g := Gen(f, ScopeOf(env), false);
            && g + [CallCode(tail)] <= code[1..]
            && Follows(tail, k, s, FramesOf(env), code[1..][|g| + 1..], d)
  {
    var scope := ScopeOf(env);
    assert CallRest([], f, spread, n, scope, tail) == [PackCode(spread, n)] + (Gen(f, scope, false) + [CallCode(tail)]);
    FirstOff(PackCode(spread, n), Gen(f, scope, false), CallCode(tail), code);
  }

  lemma FirstOff(p: M.Instr, g: Code, c: M.Instr, code: Code)
    requires [p] + (g + [c]) <= code
    ensures code[0] == p && g + [c] <= code[1..] && code[1..][|g| + 1..] == code[|[p] + (g + [c])|..]
  {
    SplitPrefix([p], g + [c], code);
  }

  /** Applying a procedure, with the stack below its operands and the counter past the call. */
  lemma ApplySimulates(P: M.Primitives, callee: Value, args: seq<Value>, tail: bool, k: R.Kont, st: R.RefStore,
                       m: M.State)
    requires 0 < m.pc <= |m.c| && StoresRelated(st, m.st)
    requires Follows(tail, k, m.s, m.e, m.c[m.pc..], m.d)
    requires !tail ==> m.c[m.pc - 1].APP? || m.c[m.pc - 1].CALLCC?
    ensures OutcomeRelated(R.Apply(P, callee, args, k, st), M.Apply(P, m, callee, args, tail))
  {
    match callee
    case Primitive(name) =>
      FollowsImplements(tail, k, m.s, m.e, m.c[m.pc..], m.d);
      var o := R.Apply(P, callee, args, k, st);
      if o.Return? {
        assert (m.s + [o.v])[..|m.s|] == m.s;
      }
    case Continuation(id) =>
      if id < |st.conts| {
        var mk := m.st.conts[id];
        var v := if args == [] then M.NIL else args[0];
        assert ImplementsCont(st.conts[id], mk);
        assert (mk.s + [v])[..|mk.s|] == mk.s;
      }
    case Closure(id) =>
      if id < |st.closures| {
        EnterClosure(P, id, args, tail, k, st, m);
      }
    case _ =>
  }

  lemma EnterClosure(P: M.Primitives, id: nat, args: seq<Value>, tail: bool, k: R.Kont, st: R.RefStore, m: M.State)
    requires 0 < m.pc <= |m.c| && StoresRelated(st, m.st) && id < |st.closures|
    requires Follows(tail, k, m.s, m.e, m.c[m.pc..], m.d)
    requires !tail ==> m.c[m.pc - 1].APP? || m.c[m.pc - 1].CALLCC?
    ensures OutcomeRelated(R.Apply(P, M.Closure(id), args, k, st), M.Apply(P, m, M.Closure(id), args, tail))
  {
    var clo := st.closures[id];
    var bound := M.BindArguments(st.heap, clo.params, clo.rest, args);
    assert m.st.closures[id] == CompileClosure(clo);
    if bound.Some? {
      var m' := M.Apply(P, m, M.Closure(id), args, tail).m;
      var env := [R.Rib(M.FrameNames(clo.params, clo.rest), |st.frames|)] + clo.env;
      assert FramesOf(env) == [|st.frames|] + FramesOf(clo.env);
      assert ScopeOf(env) == [M.FrameNames(clo.params, clo.rest)] + ScopeOf(clo.env);
      var g := Gen(clo.body, ScopeOf(env), true);
      assert m'.c == g + [M.RTN] && m'.c[0..] == m'.c && m'.c[|g|..] == [M.RTN];
      if !tail {
        assert CallEntry(m'.d);
      }
      assert Evaluates(clo.body, env, true, k, m'.s, m'.c[0..], m'.d);
    }
  }

  lemma CallStep(P: M.Primitives, r: R.Config, m: M.State)
    requires r.Return? && r.k.Operator? && Related(r, m) && Direct(r.k, m.Below(), m.e, m.c[m.pc..], m.d)
    ensures OutcomeRelated(R.Next(P, r), M.Step(P, m))
  {
    Fetch(m.c, m.pc);
    var args := r.k.args;
    assert m.s[|m.s| - 2] == M.ArgList(args);
    var m0 := m.(s := m.s[..|m.s| - 2], pc := m.pc + 1);
    assert m0.s == m.Below()[..|m.s| - 2];
    assert M.Elements(m.st.heap, M.ArgList(args), {}) == Some(args);
    if M.IsProcedure(r.v) {
      ApplySimulates(P, r.v, args, m.c[m.pc].TAPP?, r.k.next, r.st, m0);
    }
  }

  /** Both sides capture their continuation. */
  lemma CaptureRelated(tail: bool, k: R.Kont, st: R.RefStore, m: M.State)
    requires m.pc <= |m.c| && StoresRelated(st, m.st) && Follows(tail, k, m.s, m.e, m.c[m.pc..], m.d)
    ensures StoresRelated(st.(conts := st.conts + [k]), M.Capture(m).st)
  {
    FollowsImplements(tail, k, m.s, m.e, m.c[m.pc..], m.d);
    assert ImplementsCont(k, M.MachineCont(m.s, m.e, m.c, m.pc, m.d));
  }

  lemma CaptureSays(P: M.Primitives, r: R.Config)
    requires r.Return? && r.k.Capturing?
    ensures R.Next(P, r) ==
            R.Apply(P, r.v, [M.Continuation(|r.st.conts|)], r.k.next, r.st.(conts := r.st.conts + [r.k.next]))
  {
  }

  lemma CaptureExecutes(P: M.Primitives, m: M.State)
    requires m.pc < |m.c| && (m.c[m.pc].CALLCC? || m.c[m.pc].TCALLCC?) && m.s != []
    ensures M.Step(P, m) == M.Apply(P, M.Capture(m.(s := m.Below(), pc := m.pc + 1)), m.Top(),
                                    [M.Continuation(|m.st.conts|)], m.c[m.pc].TCALLCC?)
  {
  }

  lemma CaptureStep(P: M.Primitives, r: R.Config, m: M.State)
    requires r.Return? && r.k.Capturing? && Related(r, m) && Direct(r.k, m.Below(), m.e, m.c[m.pc..], m.d)
    ensures OutcomeRelated(R.Next(P, r), M.Step(P, m))
  {
    Fetch(m.c, m.pc);
    var m0 := m.(s := m.Below(), pc := m.pc + 1);
    var m' := M.Capture(m0);
    var st := r.st.(conts := r.st.conts + [r.k.next]);
    CaptureRelated(m.c[m.pc].TCALLCC?, r.k.next, r.st, m0);
    CaptureSays(P, r);
    CaptureExecutes(P, m);
    ApplySimulates(P, r.v, [M.Continuation(|r.st.conts|)], m.c[m.pc].TCALLCC?, r.k.next, st, m');
  }

  /** Between the arguments of a call the machine executes nothing. */
  lemma NextArgument(r: R.Config, m: M.State)
    requires r.Return? && r.k.Argument? && r.k.todo != []
    requires Related(r, m) && Direct(r.k, m.Below(), m.e, m.c[m.pc..], m.d)
    ensures Related(R.Eval(r.k.todo[0], r.k.env,
                           R.Argument(r.k.done + [r.v], r.k.todo[1..], r.k.f, r.k.spread, r.k.env, r.k.next), r.st), m)
  {
    StackShape(m.s, r.k.done, r.v);
    NextArgumentReady(r.v, r.k.done, r.k.todo, r.k.f, r.k.spread, r.k.env, r.k.next, m.s, m.c[m.pc..], m.d);
  }

  lemma NextArgumentReady(v: Value, done: seq<Value>, todo: seq<Core>, f: Core, spread: bool, env: R.Env,
                          k: R.Kont, s: seq<Value>, code: Code, d: Dump)
    requires todo != [] && code != [] && |done| < |s| && s[|s| - 1 - |done|..] == done + [v]
    requires var s0 := s[..|s| - 1 - |done|];
             || Calls(todo, f, spread, |done| + 1 + |todo|, env, false, k, s0, code, d)
             || Calls(todo, f, spread, |done| + 1 + |todo|, env, true, k, s0, code, d)
    ensures Evaluates(todo[0], env, false, R.Argument(done + [v], todo[1..], f, spread, env, k), s, code, d)
  {
    var n, s0 := |done| + 1 + |todo|, s[..|s| - 1 - |done|];
    var tail := Calls(todo, f, spread, n, env, true, k, s0, code, d);
    NextArgumentCode(todo, f, spread, n, env, tail, k, s0, code, d);
    var rest := code[|Gen(todo[0], ScopeOf(env), false)|..];
    ArgumentIsDirect(done + [v], todo[1..], f, spread, env, tail, k, s, rest, d);
  }

  lemma ArgumentIsDirect(done: seq<Value>, todo: seq<Core>, f: Core, spread: bool, env: R.Env, tail: bool,
                         k: R.Kont, s: seq<Value>, code: Code, d: Dump)
    requires |done| <= |s| && s[|s| - |done|..] == done && code != []
    requires Calls(todo, f, spread, |done| + 1 + |todo|, env, tail, k, s[..|s| - |done|], code, d)
    ensures Direct(R.Argument(done, todo, f, spread, env, k), s, FramesOf(env), code, d)
    ensures Implements(R.Argument(done, todo, f, spread, env, k), s, FramesOf(env), code, d)
  {
  }

  lemma CallRestMore(todo: seq<Core>, f: Core, spread: bool, n: nat, scope: Scope, tail: bool)
    requires todo != []
    ensures CallRest(todo, f, spread, n, scope, tail) ==
            Gen(todo[0], scope, false) + CallRest(todo[1..], f, spread, n, scope, tail)
  {
    Reassociate(Gen(todo[0], scope, false), GenArgs(todo[1..], scope),
                [PackCode(spread, n)] + (Gen(f, scope, false) + [CallCode(tail)]));
  }

  lemma Reassociate(a: Code, b: Code, c: Code)
    ensures a + b + c == a + (b + c)
  {
  }

  lemma NextArgumentCode(todo: seq<Core>, f: Core, spread: bool, n: nat, env: R.Env, tail: bool,
                         k: R.Kont, s: seq<Value>, code: Code, d: Dump)
    requires todo != [] && Calls(todo, f, spread, n, env, tail, k, s, code, d)
    ensures var g := Gen(todo[0], ScopeOf(env), false);
            g <= code && code[|g|..] != [] && Calls(todo[1..], f, spread, n, env, tail, k, s, code[|g|..], d)
  {
    var scope := ScopeOf(env);
    var first, others := Gen(todo[0], scope, false), CallRest(todo[1..], f, spread, n, scope, tail);
    CallRestMore(todo, f, spread, n, scope, tail);
    SplitPrefix(first, others, code);
  }

  // ---- Whole runs ----

  predicate AtHole(r: R.Config) {
    r.Return? && r.k.Hole?
  }

  /** Each machine step is matched by some number of reference steps: none only for RTN and JOIN, which shorten the
      dump. */
  lemma Sync(P: M.Primitives, r: R.Config, m: M.State) returns (n: nat)
    requires (r.Eval? || r.Return?) && !AtHole(r) && Related(r, m)
    ensures OutcomeRelated(R.Steps(P, r, n), M.Step(P, m))
    ensures n == 0 ==> M.Step(P, m).Running? && M.Depth(M.Step(P, m).m.d) < M.Depth(m.d)
    decreases r.Return?, if r.Eval? then r.t else CoreLanguage.Const(Nil)
  {
    if r.Eval? {
      if IsCompound(r.t) {
        SyncCompound(r, m);
        n := Sync(P, R.Next(P, r), m);
        n := OneMore(P, r, n);
      } else {
        LeafStep(P, r, m);
        n := OneStep(P, r);
      }
    } else if !Direct(r.k, m.Below(), m.e, m.c[m.pc..], m.d) {
      ReturnThrough(P, r, m);
      n := 0;
    } else if r.k.Argument? && r.k.todo != [] {
      NextArgument(r, m);
      n := Sync(P, R.Next(P, r), m);
      n := OneMore(P, r, n);
    } else {
      ReturnStep(P, r, m);
      n := OneStep(P, r);
    }
  }

  lemma SyncCompound(r: R.Config, m: M.State)
    requires r.Eval? && IsCompound(r.t) && Related(r, m)
    ensures var r' := R.EvalStep(r.t, r.env, r.k, r.st); r'.Eval? && r'.t < r.t && Related(r', m)
  {
    var tail := Evaluates(r.t, r.env, true, r.k, m.s, m.c[m.pc..], m.d);
    EnterCompound(r.t, r.env, tail, r.k, r.st, m.s, m.c[m.pc..], m.d);
  }

  lemma OneMore(P: M.Primitives, r: R.Config, n: nat) returns (n': nat)
    ensures n' == n + 1 && R.Steps(P, r, n') == R.Steps(P, R.Next(P, r), n)
  {
    n' := n + 1;
    assert R.Advance(P)(r) == R.Next(P, r);
  }

  lemma OneStep(P: M.Primitives, r: R.Config) returns (n: nat)
    ensures n == 1 && R.Steps(P, r, n) == R.Next(P, r)
  {
    n := 1;
    assert Iterate(R.Advance(P), R.Next(P, r), 0) == R.Next(P, r);
  }
}
