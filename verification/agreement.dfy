/** How a direct evaluation and the evaluation of what its form became correspond, state by state. */
module Agreement {
  import opened Wrappers
  import opened Datums
  import opened Symbols
  import C = CoreLanguage
  import M = Machine
  import R = Reference
  import opened Surface
  import opened Lowering
  import D = Direct

  type Frames = seq<D.Frame>
  type Closures = seq<R.RefClosure>

  // ---- Environments ----

  predicate InRange(scope: D.Scope, fs: Frames) {
    forall i :: 0 <= i < |scope| ==> scope[i] < |fs|
  }

  /** The variables in xs are found in the same places, whatever else env holds. */
  ghost predicate Agree(xs: set<Symbol>, scope: D.Scope, env: R.Env, fs: Frames) {
    InRange(scope, fs) && forall x :: x in xs ==> D.Find(x, scope, fs) == R.Lookup(x, env)
  }

  /** A frame that no scope mentions, and so nothing assigns. */
  predicate IsHidden(fs: Frames, a: nat) {
    a < |fs| && fs[a].names == [] && |fs[a].vals| == 1
  }

  // ---- Continuations ----

  /** What a round of a do became: a test, the result, and the commands before the next call of the loop. */
  ghost predicate RoundBecomes(loop: D.Loop, name: Symbol, rest: Core, commands: seq<Form>) {
    && BecomesCommands(commands, rest)
    && var again := Bottom(|commands|, rest);
    && again.Call? && again.f == C.Ref(name) && BecomesAll(loop.steps, again.args)
  }

  function RoundFree(loop: D.Loop): set<Symbol> {
    Free(loop.test) + Free(loop.result) + FreeAll(loop.commands) + FreeAll(loop.steps)
  }

  /** `name` is in env the procedure of a do: kept in a hidden frame, its closure is the loop's round. */
  ghost predicate LoopOk(loop: D.Loop, outer: D.Scope, name: Symbol, env: R.Env, fs: Frames, cs: Closures) {
    && R.Lookup(name, env).Some?
    && var (a, j) := R.Lookup(name, env).value;
    && j == 0 && IsHidden(fs, a) && fs[a].vals[0].Closure? && fs[a].vals[0].id < |cs|
    && RoundOk(loop, outer, name, a, cs[fs[a].vals[0].id], fs)
  }

  ghost predicate RoundOk(loop: D.Loop, outer: D.Scope, name: Symbol, a: nat, c: R.RefClosure, fs: Frames) {
    && c.params == loop.names && c.rest.None? && name !in loop.names && |loop.names| == |loop.steps|
    && Unrebound(loop.names)
    && R.Lookup(name, c.env) == Some((a, 0))
    && c.body.Test? && Becomes(loop.test, c.body.cond) && Becomes(loop.result, c.body.thn)
    && RoundBecomes(loop, name, c.body.els, loop.commands)
    && Agree(RoundFree(loop) - Elems(loop.names), outer, c.env, fs)
  }

  /** What the core program does with the values of the arguments, f being its operator. */
  ghost predicate GoalOk(goal: D.Goal, f: Core, spread: bool, scope: D.Scope, env: R.Env, fs: Frames, cs: Closures) {
    match goal
    case ToCall(operator, sp) => sp == spread && Becomes(operator, f) && Agree(Free(operator), scope, env, fs)
    case ToBind(names, body) =>
      && !spread && f.Fun? && f.params == names && f.rest.None? && Becomes(body, f.body) && Unrebound(names)
      && Agree(Free(body) - Elems(names), scope, env, fs)
    case ToLoop(a) => !spread && f.Ref? && R.Lookup(f.name, env) == Some((a, 0))
    case ToRound(loop, outer) => !spread && f.Ref? && LoopOk(loop, outer, f.name, env, fs, cs)
    case ToBuild(op) => !spread && IsBuilder(op) && f == C.Ref(Known(op)) && R.Lookup(Known(op), env) == None
  }

  /** The same, for where it does not matter what the goal is. */
  ghost predicate Aims(goal: D.Goal, f: Core, spread: bool, scope: D.Scope, env: R.Env, fs: Frames, cs: Closures) {
    forall g :: g in [goal] ==> GoalOk(g, f, spread, scope, env, fs, cs)
  }

  lemma UnsealGoal(goal: D.Goal, f: Core, spread: bool, scope: D.Scope, env: R.Env, fs: Frames, cs: Closures)
    ensures Aims(goal, f, spread, scope, env, fs, cs) <==> GoalOk(goal, f, spread, scope, env, fs, cs)
  {
    assert goal in [goal];
  }

  /** How many values a goal needs, if it is particular. */
  predicate Fitting(goal: D.Goal, n: nat) {
    match goal
    case ToBind(names, _) => n == |names|
    case ToRound(loop, _) => n == |loop.names|
    case _ => true
  }

  /** A continuation that binds its value to a variable y, and goes on with y's value if that is true, or else
      with t. */
  predicate IsTempCont(k: R.Kont) {
    && k.Argument? && k.done == [] && k.todo == [] && !k.spread
    && IsTemp(C.Call(k.f, [UNDEFINED]))
  }

  /** The first step of a continuation. */
  ghost predicate HeadOk(k: D.Cont, r: R.Kont, fs: Frames, cs: Closures) {
    match k
    case Finish => r.Finish?
    case Choosing(b, c, scope, next) =>
      && r.Branch? && Becomes(b, r.thn) && Becomes(c, r.els) && Agree(Free(b) + Free(c), scope, r.env, fs)
    case Continuing(b, scope, next) =>
      r.Continue? && Becomes(b, r.second) && Agree(Free(b), scope, r.env, fs)
    case Each(done, todo, goal, scope, next) =>
      && r.Argument? && r.done == done && BecomesAll(todo, r.todo) && Agree(FreeAll(todo), scope, r.env, fs)
      && Aims(goal, r.f, r.spread, scope, r.env, fs, cs) && Fitting(goal, |done| + 1 + |todo|)
    case Operating(args, next) => r.Operator? && r.args == args
    case Defining(x, next) => r.Defining? && r.name == x && !Standard(x)
    case Setting(x, scope, next) =>
      r.Assigning? && r.name == x && !Standard(x) && Agree({x}, scope, r.env, fs)
    case Capturing(next) => r.Capturing?
    case Filling(x, names, inits, body, scope, next) =>
      && r.Assigning? && r.name == x && r.next.Continue? && r.next.env == r.env
      && FillOk([x] + names, inits, body, scope, r.next.second, r.env, fs)
      && BecomesFill(names, inits, r.next.second) && Becomes(body, Bottom(|names|, r.next.second))
    case Conjoining(forms, scope, next) =>
      && r.Branch? && forms != [] && Becomes(Form.And(forms), r.thn) && r.els == C.Const(Bool(false))
      && Agree(Free(Form.And(forms)), scope, r.env, fs)
    case Disjoining(forms, scope, next) =>
      && IsTempCont(r) && Becomes(Form.Or(forms), r.f.body.els) && r.f.params[0] !in Free(Form.Or(forms))
      && Agree(Free(Form.Or(forms)), scope, r.env, fs)
    case Clausal(None, more, scope, next) =>
      && IsTempCont(r) && Becomes(Form.Cond(more), r.f.body.els) && r.f.params[0] !in Free(Form.Cond(more))
      && Agree(Free(Form.Cond(more)), scope, r.env, fs)
    case Clausal(Some(body), more, scope, next) =>
      && r.Branch? && Becomes(body, r.thn) && Becomes(Form.Cond(more), r.els)
      && Agree(Free(body), scope, r.env, fs) && Agree(Free(Form.Cond(more)), scope, r.env, fs)
    case Selecting(choices, scope, next) =>
      && r.Argument? && r.done == [] && r.todo == [] && !r.spread
      && r.f.Fun? && |r.f.params| == 1 && r.f.rest.None? && !Standard(r.f.params[0])
      && LowersChoices(r.f.params[0], choices, r.f.body)
      && Agree(FreeChoices(choices), scope, r.env, fs)
    case Testing(loop, outer, inner, next) =>
      && r.Branch? && Becomes(loop.result, r.thn)
      && RestOk(loop.commands, loop, outer, inner, r.els, r.env, fs, cs)
      && Agree(Free(loop.result), inner, r.env, fs)
    case Commanding(commands, loop, outer, inner, next) =>
      && r.Continue?
      && RestOk(commands, loop, outer, inner, r.second, r.env, fs, cs)
  }

  /** The step after the first. */
  predicate HasNext(k: D.Cont, r: R.Kont) {
    !k.Finish? && !r.Finish? && !r.Hole? && (k.Filling? ==> r.next.Continue?)
  }

  function After(k: D.Cont, r: R.Kont): R.Kont
    requires HasNext(k, r)
  {
    if k.Filling? then r.next.next else r.next
  }

  ghost predicate ContOk(k: D.Cont, r: R.Kont, fs: Frames, cs: Closures)
    decreases k
  {
    HeadOk(k, r, fs, cs) && (!k.Finish? ==> HasNext(k, r) && ContOk(k.next, After(k, r), fs, cs))
  }

  /** What is left of a letrec: its names are in scope. */
  ghost predicate FillOk(names: seq<Symbol>, inits: seq<Form>, body: Form, scope: D.Scope, t: Core, env: R.Env,
                         fs: Frames) {
    && Unrebound(names)
    && Agree(Elems(names) + FreeAll(inits) + Free(body), scope, env, fs)
    && forall x :: x in names ==> D.Find(x, scope, fs).Some?
  }

  /** What is left of a round of a do. */
  ghost predicate RestOk(commands: seq<Form>, loop: D.Loop, outer: D.Scope, inner: D.Scope, t: Core, env: R.Env,
                         fs: Frames, cs: Closures) {
    && var again := Bottom(|commands|, t);
    && again.Call? && again.f.Ref?
    && RoundBecomes(loop, again.f.name, t, commands)
    && LoopOk(loop, outer, again.f.name, env, fs, cs)
    && Agree(FreeAll(commands) + FreeAll(loop.steps), inner, env, fs)
  }

  // ---- Stores ----

  predicate UsualAt(globals: map<Symbol, M.Value>, op: Keyword) {
    Standard(Known(op)) ==>
      && Known(op) in globals
      && globals[Known(op)] == if op == Undef then D.UNDEFINED else M.Primitive(Spelling(op))
  }

  /** The procedures and values that expansions refer to have their usual meaning. */
  ghost predicate Usual(globals: map<Symbol, M.Value>) {
    forall op :: UsualAt(globals, op)
  }

  ghost predicate ProcOk(p: D.Proc, c: R.RefClosure, fs: Frames) {
    p.Proc? ==>
      && p.params == c.params && p.rest == c.rest && Becomes(p.body, c.body)
      && Unrebound(M.FrameNames(p.params, p.rest))
      && Agree(Free(p.body) - Elems(M.FrameNames(p.params, p.rest)), p.scope, c.env, fs)
  }

  predicate SameFrames(fs: Frames, gs: seq<seq<M.Value>>) {
    |fs| == |gs| && forall i :: 0 <= i < |fs| ==> fs[i].vals == gs[i] && Unrebound(fs[i].names)
  }

  ghost predicate ProcsOk(ps: seq<D.Proc>, cs: Closures, fs: Frames) {
    |ps| == |cs| && forall i :: 0 <= i < |ps| ==> ProcOk(ps[i], cs[i], fs)
  }

  ghost predicate ContsOk(ks: seq<D.Cont>, rs: seq<R.Kont>, fs: Frames, cs: Closures) {
    |ks| == |rs| && forall i :: 0 <= i < |ks| ==> ContOk(ks[i], rs[i], fs, cs)
  }

  /** The continuations correspond: for where only that matters, and not what they are. */
  ghost predicate Awaits(k: D.Cont, r: R.Kont, fs: Frames, cs: Closures) {
    ContsOk([k], [r], fs, cs)
  }

  lemma Unsealed(k: D.Cont, r: R.Kont, fs: Frames, cs: Closures)
    ensures Awaits(k, r, fs, cs) <==> ContOk(k, r, fs, cs)
  {
    assert [k][0] == k && [r][0] == r;
    if ContOk(k, r, fs, cs) {
      forall i | 0 <= i < 1 ensures ContOk([k][i], [r][i], fs, cs) {
        assert i == 0;
      }
    }
  }

  /** A correspondence one step at a time. */
  lemma Unwrap(k: D.Cont, r: R.Kont, fs: Frames, cs: Closures)
    ensures Awaits(k, r, fs, cs) <==>
            HeadOk(k, r, fs, cs) && (!k.Finish? ==> HasNext(k, r) && Awaits(k.next, After(k, r), fs, cs))
  {
    Unsealed(k, r, fs, cs);
    if !k.Finish? && HasNext(k, r) {
      Unsealed(k.next, After(k, r), fs, cs);
    }
  }

  ghost predicate MemoryOk(m: D.Memory, s: R.RefStore) {
    && SameFrames(m.frames, s.frames) && m.globals == s.globals && m.heap == s.heap && Usual(m.globals)
    && ProcsOk(m.procs, s.closures, m.frames) && ContsOk(m.conts, s.conts, m.frames, s.closures)
  }

  ghost predicate MatchOk(y: Symbol, v: M.Value, choices: Choices, scope: D.Scope, t: Core, env: R.Env, fs: Frames) {
    && LowersChoices(y, choices, t) && Agree(FreeChoices(choices), scope, env, fs)
    && R.Lookup(y, env).Some?
    && var (a, j) := R.Lookup(y, env).value;
    j == 0 && IsHidden(fs, a) && fs[a].vals == [v]
  }

  ghost predicate ConfigOk(c: D.Config, r: R.Config) {
    match c
    case Eval(f, scope, k, m) =>
      && r.Eval? && Becomes(f, r.t) && Agree(Free(f), scope, r.env, m.frames)
      && Awaits(k, r.k, m.frames, r.st.closures) && MemoryOk(m, r.st)
    case Match(v, choices, scope, k, m) =>
      && r.Eval? && choices.Choice? && (exists y :: MatchOk(y, v, choices, scope, r.t, r.env, m.frames))
      && Awaits(k, r.k, m.frames, r.st.closures) && MemoryOk(m, r.st)
    case Return(v, k, m) => r.Return? && v == r.v && Awaits(k, r.k, m.frames, r.st.closures) && MemoryOk(m, r.st)
    case Done(v, m) => r.Done? && v == r.v && MemoryOk(m, r.st)
    case Failed(fault) => r == R.Failed(fault)
    case Forged => true
  }

  // ---- Growth ----

  /** Frames and closures are only added; a frame keeps its names, and a hidden one its value. */
  predicate Grows(fs: Frames, cs: Closures, gs: Frames, ds: Closures) {
    && |fs| <= |gs| && cs <= ds
    && forall i :: 0 <= i < |fs| ==> gs[i].names == fs[i].names && (fs[i].names == [] ==> gs[i] == fs[i])
  }

  lemma {:induction false} FindGrows(x: Symbol, scope: D.Scope, fs: Frames, gs: Frames)
    requires InRange(scope, fs) && Grows(fs, [], gs, [])
    ensures D.Find(x, scope, gs) == D.Find(x, scope, fs)
  {
    if scope != [] {
      assert InRange(scope[1..], fs);
      assert scope[0] < |fs|;
      FindGrows(x, scope[1..], fs, gs);
    }
  }

  lemma AgreeGrows(xs: set<Symbol>, scope: D.Scope, env: R.Env, fs: Frames, gs: Frames)
    requires Agree(xs, scope, env, fs) && Grows(fs, [], gs, [])
    ensures Agree(xs, scope, env, gs)
  {
    forall x | x in xs ensures D.Find(x, scope, gs) == R.Lookup(x, env) {
      FindGrows(x, scope, fs, gs);
    }
  }

  lemma LoopGrows(loop: D.Loop, outer: D.Scope, name: Symbol, env: R.Env, fs: Frames, cs: Closures, gs: Frames,
                  ds: Closures)
    requires Grows(fs, cs, gs, ds) && LoopOk(loop, outer, name, env, fs, cs)
    ensures LoopOk(loop, outer, name, env, gs, ds)
  {
    var (a, j) := R.Lookup(name, env).value;
    var c := cs[fs[a].vals[0].id];
    AgreeGrows(RoundFree(loop) - Elems(loop.names), outer, c.env, fs, gs);
    assert RoundOk(loop, outer, name, a, c, gs);
    assert gs[a] == fs[a];
  }

  lemma GoalGrows(goal: D.Goal, f: Core, spread: bool, scope: D.Scope, env: R.Env, fs: Frames, cs: Closures,
                  gs: Frames, ds: Closures)
    requires Grows(fs, cs, gs, ds) && GoalOk(goal, f, spread, scope, env, fs, cs)
    ensures GoalOk(goal, f, spread, scope, env, gs, ds)
  {
    match goal
    case ToCall(operator, _) => AgreeGrows(Free(operator), scope, env, fs, gs);
    case ToBind(names, body) => AgreeGrows(Free(body) - Elems(names), scope, env, fs, gs);
    case ToRound(loop, outer) => LoopGrows(loop, outer, f.name, env, fs, cs, gs, ds);
    case _ =>
  }

  lemma AimsGrows(goal: D.Goal, f: Core, spread: bool, scope: D.Scope, env: R.Env, fs: Frames, cs: Closures,
                  gs: Frames, ds: Closures)
    requires Grows(fs, cs, gs, ds) && Aims(goal, f, spread, scope, env, fs, cs)
    ensures Aims(goal, f, spread, scope, env, gs, ds)
  {
    UnsealGoal(goal, f, spread, scope, env, fs, cs);
    GoalGrows(goal, f, spread, scope, env, fs, cs, gs, ds);
    UnsealGoal(goal, f, spread, scope, env, gs, ds);
  }

  lemma RestGrows(commands: seq<Form>, loop: D.Loop, outer: D.Scope, inner: D.Scope, t: Core, env: R.Env, fs: Frames,
                  cs: Closures, gs: Frames, ds: Closures)
    requires Grows(fs, cs, gs, ds) && RestOk(commands, loop, outer, inner, t, env, fs, cs)
    ensures RestOk(commands, loop, outer, inner, t, env, gs, ds)
  {
    LoopGrows(loop, outer, Bottom(|commands|, t).f.name, env, fs, cs, gs, ds);
    AgreeGrows(FreeAll(commands) + FreeAll(loop.steps), inner, env, fs, gs);
  }

  lemma FillGrows(names: seq<Symbol>, inits: seq<Form>, body: Form, scope: D.Scope, t: Core, env: R.Env, fs: Frames,
                  gs: Frames)
    requires Grows(fs, [], gs, []) && FillOk(names, inits, body, scope, t, env, fs)
    ensures FillOk(names, inits, body, scope, t, env, gs)
  {
    AgreeGrows(Elems(names) + FreeAll(inits) + Free(body), scope, env, fs, gs);
    forall x | x in names ensures D.Find(x, scope, gs).Some? {
      FindGrows(x, scope, fs, gs);
    }
  }

  lemma OptionGrows(f: Option<Form>, scope: D.Scope, env: R.Env, fs: Frames, gs: Frames)
    requires f.Some? ==> Agree(Free(f.value), scope, env, fs)
    requires Grows(fs, [], gs, [])
    ensures f.Some? ==> Agree(Free(f.value), scope, env, gs)
  {
    if f.Some? {
      AgreeGrows(Free(f.value), scope, env, fs, gs);
    }
  }

  lemma HeadGrows(k: D.Cont, r: R.Kont, fs: Frames, cs: Closures, gs: Frames, ds: Closures)
    requires Grows(fs, cs, gs, ds) && HeadOk(k, r, fs, cs)
    ensures HeadOk(k, r, gs, ds)
  {
    match k
    case Finish =>
    case Choosing(b, c, scope, next) =>
      AgreeGrows(Free(b) + Free(c), scope, r.env, fs, gs);
    case Continuing(b, scope, next) =>
      AgreeGrows(Free(b), scope, r.env, fs, gs);
    case Each(done, todo, goal, scope, next) =>
      AgreeGrows(FreeAll(todo), scope, r.env, fs, gs);
      AimsGrows(goal, r.f, r.spread, scope, r.env, fs, cs, gs, ds);
    case Operating(_, next) =>
    case Defining(_, next) =>
    case Setting(x, scope, next) =>
      AgreeGrows({x}, scope, r.env, fs, gs);
    case Capturing(next) =>
    case Filling(x, names, inits, body, scope, next) =>
      FillGrows([x] + names, inits, body, scope, r.next.second, r.env, fs, gs);
    case Conjoining(forms, scope, next) => AgreeGrows(Free(Form.And(forms)), scope, r.env, fs, gs);
    case Disjoining(forms, scope, next) => AgreeGrows(Free(Form.Or(forms)), scope, r.env, fs, gs);
    case Clausal(outcome, more, scope, next) =>
      AgreeGrows(Free(Form.Cond(more)), scope, r.env, fs, gs);
      OptionGrows(outcome, scope, r.env, fs, gs);
    case Selecting(choices, scope, next) =>
      AgreeGrows(FreeChoices(choices), scope, r.env, fs, gs);
    case Testing(loop, outer, inner, next) =>
      RestGrows(loop.commands, loop, outer, inner, r.els, r.env, fs, cs, gs, ds);
      AgreeGrows(Free(loop.result), inner, r.env, fs, gs);
    case Commanding(commands, loop, outer, inner, next) =>
      RestGrows(commands, loop, outer, inner, r.second, r.env, fs, cs, gs, ds);
  }

  lemma {:induction false} ContGrows(k: D.Cont, r: R.Kont, fs: Frames, cs: Closures, gs: Frames, ds: Closures)
    requires Grows(fs, cs, gs, ds) && ContOk(k, r, fs, cs)
    ensures ContOk(k, r, gs, ds)
  {
    HeadGrows(k, r, fs, cs, gs, ds);
    if !k.Finish? {
      ContGrows(k.next, After(k, r), fs, cs, gs, ds);
    }
  }

  lemma AwaitsGrows(k: D.Cont, r: R.Kont, fs: Frames, cs: Closures, gs: Frames, ds: Closures)
    requires Grows(fs, cs, gs, ds) && Awaits(k, r, fs, cs)
    ensures Awaits(k, r, gs, ds)
  {
    Unsealed(k, r, fs, cs);
    ContGrows(k, r, fs, cs, gs, ds);
    Unsealed(k, r, gs, ds);
  }

  lemma StoresGrow(m: D.Memory, s: R.RefStore, gs: Frames, ds: Closures)
    requires MemoryOk(m, s) && Grows(m.frames, s.closures, gs, ds)
    ensures ProcsOk(m.procs, s.closures, gs) && ContsOk(m.conts, s.conts, gs, ds)
  {
    forall i | 0 <= i < |m.procs| ensures ProcOk(m.procs[i], s.closures[i], gs) {
      var p := m.procs[i];
      if p.Proc? {
        AgreeGrows(Free(p.body) - Elems(M.FrameNames(p.params, p.rest)), p.scope, s.closures[i].env, m.frames, gs);
      }
    }
    forall i | 0 <= i < |m.conts| ensures ContOk(m.conts[i], s.conts[i], gs, ds) {
      ContGrows(m.conts[i], s.conts[i], m.frames, s.closures, gs, ds);
    }
  }

  // ---- Scopes ----

  lemma Entered(xs: set<Symbol>, names: seq<Symbol>, vals: seq<M.Value>, scope: D.Scope, env: R.Env, fs: Frames)
    requires Agree(xs - Elems(names), scope, env, fs)
    ensures Agree(xs, [|fs|] + scope, [R.Rib(names, |fs|)] + env, fs + [D.Frame(names, vals)])
  {
    var gs := fs + [D.Frame(names, vals)];
    var scope', env' := [|fs|] + scope, [R.Rib(names, |fs|)] + env;
    assert scope'[1..] == scope && env'[1..] == env;
    forall x | x in xs ensures D.Find(x, scope', gs) == R.Lookup(x, env') {
      if x !in names {
        FindGrows(x, scope, fs, gs);
      }
    }
  }

  /** A rib whose names the form does not use makes no difference. */
  lemma Hidden(xs: set<Symbol>, y: Symbol, a: nat, scope: D.Scope, env: R.Env, fs: Frames)
    requires Agree(xs, scope, env, fs) && y !in xs
    ensures Agree(xs, scope, [R.Rib([y], a)] + env, fs)
  {
    var env' := [R.Rib([y], a)] + env;
    assert env'[1..] == env;
    forall x | x in xs ensures D.Find(x, scope, fs) == R.Lookup(x, env') {
      assert x !in [y];
    }
  }

  lemma {:induction false} StandardUnbound(x: Symbol, scope: D.Scope, fs: Frames)
    requires Standard(x) && forall i :: 0 <= i < |fs| ==> Unrebound(fs[i].names)
    ensures D.Find(x, scope, fs) == None
  {
    if scope != [] {
      StandardUnbound(x, scope[1..], fs);
    }
  }
}
