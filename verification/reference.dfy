/** The reference semantics: an evaluator on core expressions with explicit continuations, variables found by name. */
module Reference {
  import opened Wrappers
  import opened Datums
  import opened Symbols
  import opened Iteration
  import opened CoreLanguage
  import opened Machine

  /** One rib of an environment: the variables of a frame, and the frame. */
  datatype Rib = Rib(names: seq<Symbol>, frame: nat)

  type Env = seq<Rib>

  /** A continuation: what is to be done with the value of an expression. A hole stands for whatever surrounds the
      expression, known only by the machine registers that await the value. */
  datatype Kont =
    | Finish
    | Branch(thn: Core, els: Core, env: Env, next: Kont)
    | Continue(second: Core, env: Env, next: Kont)
    | Argument(done: seq<Value>, todo: seq<Core>, f: Core, spread: bool, env: Env, next: Kont)
    | Operator(args: seq<Value>, next: Kont)
    | Defining(name: Symbol, next: Kont)
    | Assigning(name: Symbol, env: Env, next: Kont)
    | Capturing(next: Kont)
    | Hole(s: seq<Value>, e: seq<nat>, code: Code, d: Dump)

  datatype RefClosure = RefClosure(params: seq<Symbol>, rest: Option<Symbol>, body: Core, env: Env)

  type RefStore = Store<RefClosure, Kont>

  datatype Config =
    | Eval(t: Core, env: Env, k: Kont, st: RefStore)
    | Return(v: Value, k: Kont, st: RefStore)
    | Done(v: Value, st: RefStore)
    | Failed(f: Fault)

  /** The frame and index that x denotes, or None for a global variable. */
  function Lookup(x: Symbol, env: Env): Option<(nat, nat)> {
    if env == [] then None
    else
      match IndexOf(x, env[0].names)
      case Some(j) => Some((env[0].frame, j))
      case None => Lookup(x, env[1..])
  }

  predicate InStore(st: RefStore, frame: nat, index: nat) {
    frame < |st.frames| && index < |st.frames[frame]|
  }

  function Apply(P: Primitives, callee: Value, args: seq<Value>, k: Kont, st: RefStore): Config {
    match callee
    case Primitive(name) =>
      (match P(name, args, st.heap)
       case None => Failed(PrimitiveFailed)
       case Some((v, h)) => Return(v, k, st.(heap := h)))
    case Continuation(id) =>
      if id >= |st.conts| then Failed(NotCallable)
      else Return(if args == [] then NIL else args[0], st.conts[id], st)
    case Closure(id) =>
      if id >= |st.closures| then Failed(NotCallable)
      else
        var clo := st.closures[id];
        (match BindArguments(st.heap, clo.params, clo.rest, args)
         case None => Failed(ArityMismatch)
         case Some((frame, h)) =>
           var env := [Rib(FrameNames(clo.params, clo.rest), |st.frames|)] + clo.env;
           Eval(clo.body, env, k, st.(frames := st.frames + [frame], heap := h)))
    case _ => Failed(NotCallable)
  }

  /** One step of evaluation. */
  function Next(P: Primitives, r: Config): Config {
    match r
    case Eval(t, env, k, st) => EvalStep(t, env, k, st)
    case Return(v, k, st) => ReturnStep(P, v, k, st)
    case _ => r
  }

  function EvalStep(t: Core, env: Env, k: Kont, st: RefStore): Config {
    match t
    case Const(x) => Return(Lit(x), k, st)
    case Ref(x) =>
      (match Lookup(x, env)
       case Some((a, j)) => if InStore(st, a, j) then Return(st.frames[a][j], k, st) else Failed(FrameOutOfRange)
       case None => if x in st.globals then Return(st.globals[x], k, st) else Failed(Unbound(x)))
    case Test(c, thn, els) => Eval(c, env, Branch(thn, els, env, k), st)
    case Then(a, b) => Eval(a, env, Continue(b, env, k), st)
    case Fun(params, rest, body) =>
      Return(Closure(|st.closures|), k, st.(closures := st.closures + [RefClosure(params, rest, body, env)]))
    case Def(x, rhs) => Eval(rhs, env, Defining(x, k), st)
    case Assign(x, rhs) => Eval(rhs, env, Assigning(x, env, k), st)
    case CaptureCall(f) => Eval(f, env, Capturing(k), st)
    case Call(f, args) => StartCall(f, args, false, env, k, st)
    case Spread(f, args) => StartCall(f, args, true, env, k, st)
  }

  /** Arguments are evaluated from left to right, the operator after them. */
  function StartCall(f: Core, args: seq<Core>, spread: bool, env: Env, k: Kont, st: RefStore): Config {
    if args == [] then Eval(f, env, Operator([], k), st)
    else Eval(args[0], env, Argument([], args[1..], f, spread, env, k), st)
  }

  function ReturnStep(P: Primitives, v: Value, k: Kont, st: RefStore): Config {
    match k
    case Finish => Done(v, st)
    case Branch(thn, els, env, next) => Eval(if IsFalse(v) then els else thn, env, next, st)
    case Continue(b, env, next) => Eval(b, env, next, st)
    case Argument(done, todo, f, spread, env, next) =>
      if todo != [] then Eval(todo[0], env, Argument(done + [v], todo[1..], f, spread, env, next), st)
      else if !spread then Eval(f, env, Operator(done + [v], next), st)
      else
        (match Elements(st.heap, v, {})
         case None => Failed(NotAList)
         case Some(vs) => Eval(f, env, Operator(done + vs, next), st))
    case Operator(args, next) => Apply(P, v, args, next, st)
    case Defining(x, next) => Return(Lit(Sym(x)), next, st.(globals := st.globals[x := v]))
    case Assigning(x, env, next) =>
      (match Lookup(x, env)
       case Some((a, j)) =>
         if InStore(st, a, j) then Return(v, next, st.(frames := st.frames[a := st.frames[a][j := v]]))
         else Failed(FrameOutOfRange)
       case None => Return(v, next, st.(globals := st.globals[x := v])))
    case Capturing(next) =>
      Apply(P, v, [Continuation(|st.conts|)], next, st.(conts := st.conts + [next]))
    case Hole(_, _, _, _) => Return(v, k, st)
  }

  function Advance(P: Primitives): Config -> Config {
    (r: Config) => Next(P, r)
  }

  /** At most n steps. */
  function Steps(P: Primitives, r: Config, n: nat): Config {
    Iterate(Advance(P), r, n)
  }

  /** Evaluation is over: with a value, with an error, or with a value for what surrounds the expression. */
  predicate Final(r: Config) {
    r.Done? || r.Failed? || (r.Return? && r.k.Hole?)
  }
}
