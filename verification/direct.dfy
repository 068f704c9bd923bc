/** The direct semantics of source forms: an evaluator that knows scopes and control, but no generated names. */
module Direct {
  import opened Wrappers
  import opened Datums
  import Sy = Symbols
  import opened Surface
  import M = Machine

  type Symbol = Sy.Symbol
  type Value = M.Value

  /** Every value but `#f` counts as true, the empty list and zero too. */
  predicate CountsAsFalse(v: Value) {
    v == M.Lit(Bool(false))
  }

  /** The variables of one scope, in place. A frame that no scope mentions has no names. */
  datatype Frame = Frame(names: seq<Symbol>, vals: seq<Value>)

  /** Frames, innermost first. */
  type Scope = seq<nat>

  /** A procedure of the program. `Unused` is the number of one that the program cannot name. */
  datatype Proc = Unused | Proc(params: seq<Symbol>, rest: Option<Symbol>, body: Form, scope: Scope)

  datatype Memory = Memory(frames: seq<Frame>, globals: map<Symbol, Value>, heap: M.Heap, procs: seq<Proc>,
                           conts: seq<Cont>) {
    /** A new scope, which like every scope takes up a procedure's number. */
    function Enter(names: seq<Symbol>, vals: seq<Value>): Memory {
      this.(frames := frames + [Frame(names, vals)], procs := procs + [Unused])
    }
  }

  /** What to do with the values of a list of forms. */
  datatype Goal =
    | ToCall(f: Form, spread: bool)
    | ToBind(names: seq<Symbol>, body: Form)      // enter the body of a let
    | ToLoop(frame: nat)                          // call the procedure of a named let
    | ToRound(loop: Loop, outer: Scope)           // begin the next round of a do
    | ToBuild(op: Sy.Keyword)                     // build part of a template

  type Loop = f: Form | f.Do? witness Do([], [], [], Quoted(Nil), Quoted(Nil), [])

  datatype Cont =
    | Finish
    | Choosing(thn: Form, els: Form, scope: Scope, next: Cont)
    | Continuing(second: Form, scope: Scope, next: Cont)
    | Each(done: seq<Value>, todo: seq<Form>, goal: Goal, scope: Scope, next: Cont)
    | Operating(args: seq<Value>, next: Cont)
    | Defining(name: Symbol, next: Cont)
    | Setting(name: Symbol, scope: Scope, next: Cont)
    | Capturing(next: Cont)
    | Filling(name: Symbol, names: seq<Symbol>, inits: seq<Form>, body: Form, scope: Scope, next: Cont)  // letrec
    | Conjoining(forms: seq<Form>, scope: Scope, next: Cont)
    | Disjoining(forms: seq<Form>, scope: Scope, next: Cont)
    | Clausal(outcome: Option<Form>, clauses: Clauses, scope: Scope, next: Cont)
    | Selecting(choices: Choices, scope: Scope, next: Cont)
    | Testing(loop: Loop, outer: Scope, inner: Scope, next: Cont)                       // do
    | Commanding(commands: seq<Form>, loop: Loop, outer: Scope, inner: Scope, next: Cont) // do

  datatype Config =
    | Eval(f: Form, scope: Scope, k: Cont, m: Memory)
    | Match(v: Value, choices: Choices, scope: Scope, k: Cont, m: Memory)
    | Return(v: Value, k: Cont, m: Memory)
    | Done(v: Value, m: Memory)
    | Failed(fault: M.Fault)
    | Forged   // a primitive has made up a procedure

  const UNDEFINED: Value := M.Lit(Sym(Sy.Known(Sy.Undef)))

  /** The frame and index that x denotes, or None for a global variable. */
  function Find(x: Symbol, scope: Scope, frames: seq<Frame>): Option<(nat, nat)> {
    if scope == [] then None
    else if scope[0] >= |frames| then Find(x, scope[1..], frames)
    else
      match Sy.IndexOf(x, frames[scope[0]].names)
      case Some(j) => Some((scope[0], j))
      case None => Find(x, scope[1..], frames)
  }

  predicate Holds(m: Memory, frame: nat, index: nat) {
    frame < |m.frames| && index < |m.frames[frame].vals|
  }

  function Assigned(m: Memory, frame: nat, index: nat, v: Value): Memory
    requires Holds(m, frame, index)
  {
    var f := m.frames[frame];
    m.(frames := m.frames[frame := f.(vals := f.vals[index := v])])
  }

  function ApplyValue(P: M.Primitives, callee: Value, args: seq<Value>, k: Cont, m: Memory): Config {
    match callee
    case Primitive(name) => CallPrimitive(P, name, args, k, m)
    case Continuation(id) =>
      if id >= |m.conts| then Failed(M.NotCallable)
      else Return(if args == [] then M.NIL else args[0], m.conts[id], m)
    case Closure(id) =>
      if id >= |m.procs| then Failed(M.NotCallable)
      else if m.procs[id].Unused? then Forged
      else
        var p := m.procs[id];
        (match M.BindArguments(m.heap, p.params, p.rest, args)
         case None => Failed(M.ArityMismatch)
         case Some((vals, h)) =>
           var frame := Frame(M.FrameNames(p.params, p.rest), vals);
           Eval(p.body, [|m.frames|] + p.scope, k, m.(frames := m.frames + [frame], heap := h)))
    case _ => Failed(M.NotCallable)
  }

  function CallPrimitive(P: M.Primitives, name: string, args: seq<Value>, k: Cont, m: Memory): Config {
    match P(name, args, m.heap)
    case None => Failed(M.PrimitiveFailed)
    case Some((v, h)) => Return(v, k, m.(heap := h))
  }

  function Next(P: M.Primitives, c: Config): Config {
    match c
    case Eval(f, scope, k, m) => EvalStep(P, f, scope, k, m)
    case Match(v, Default(els), scope, k, m) => Eval(els, scope, k, m)
    case Match(v, Choice(keys, outcome, more), scope, k, m) =>
      (match P(Sy.Spelling(Sy.Memv), [v, M.Lit(keys)], m.heap)
       case None => Failed(M.PrimitiveFailed)
       case Some((found, h)) =>
         var m := m.(heap := h);
         match outcome
         case Some(body) => if CountsAsFalse(found) then Dispatch(v, more, scope, k, m) else Eval(body, scope, k, m)
         case None =>
           var m := m.Enter([], [found]);
           if CountsAsFalse(found) then Dispatch(v, more, scope, k, m) else Return(found, k, m))
    case Return(v, k, m) => ReturnStep(P, v, k, m)
    case _ => c
  }

  function EvalStep(P: M.Primitives, f: Form, scope: Scope, k: Cont, m: Memory): Config
    decreases f
  {
    match f
    case Quoted(x) => Return(M.Lit(x), k, m)
    case Var(x) =>
      (match Find(x, scope, m.frames)
       case Some((a, j)) => if Holds(m, a, j) then Return(m.frames[a].vals[j], k, m) else Failed(M.FrameOutOfRange)
       case None => if x in m.globals then Return(m.globals[x], k, m) else Failed(M.Unbound(x)))
    case If(a, b, c) => Eval(a, scope, Choosing(b, c, scope, k), m)
    case Then(a, b) => Eval(a, scope, Continuing(b, scope, k), m)
    case Lambda(params, rest, body) =>
      Return(M.Closure(|m.procs|), k, m.(procs := m.procs + [Proc(params, rest, body, scope)]))
    case Define(x, rhs) => Eval(rhs, scope, Defining(x, k), m)
    case Set(x, rhs) => Eval(rhs, scope, Setting(x, scope, k), m)
    case CallCC(receiver) => Eval(receiver, scope, Capturing(k), m)
    case Call(operator, args, spread) => EvalEach(P, args, ToCall(operator, spread), scope, k, m)
    case Let(names, inits, body) => EvalEach(P, inits, ToBind(names, body), scope, k, m)
    case NamedLet(loop, names, inits, body) =>
      // a scope for the loop's name alone, in which its procedure is closed
      var own := [|m.frames|] + scope;
      var m' := m.Enter([loop], [M.Closure(|m.procs| + 1)]);
      EvalEach(P, inits, ToLoop(|m.frames|), scope, k, m'.(procs := m'.procs + [Proc(names, None, body, own)]))
    case Letrec(names, inits, body) =>
      var m' := m.Enter(names, seq(|names|, _ => UNDEFINED));
      Fill(names, inits, body, [|m.frames|] + scope, k, m')
    case And(forms) =>
      if forms == [] then Return(M.Lit(Bool(true)), k, m)
      else if |forms| == 1 then EvalStep(P, forms[0], scope, k, m)
      else Eval(forms[0], scope, Conjoining(forms[1..], scope, k), m)
    case Or(forms) =>
      if forms == [] then Return(M.Lit(Bool(false)), k, m)
      else if |forms| == 1 then EvalStep(P, forms[0], scope, k, m)
      else Eval(forms[0], scope, Disjoining(forms[1..], scope, k), m)
    case Cond(Otherwise(els)) => EvalStep(P, els, scope, k, m)
    case Cond(Clause(test, outcome, more)) => Eval(test, scope, Clausal(outcome, more, scope, k), m)
    case Case(key, choices) => Eval(key, scope, Selecting(choices, scope, k), m)
    case Do(_, inits, _, _, _, _) =>
      // the frame and the two procedure numbers that the loop takes up
      var own := m.Enter([], [M.Closure(|m.procs| + 1)]);
      EvalEach(P, inits, ToRound(f, scope), scope, k, own.(procs := own.procs + [Unused]))
    case Build(op, parts) => EvalEach(P, parts, ToBuild(op), scope, k, m)
  }

  /** From left to right, then the goal. */
  function EvalEach(P: M.Primitives, fs: seq<Form>, goal: Goal, scope: Scope, k: Cont, m: Memory): Config {
    if fs == [] then Reach(P, goal, [], scope, k, m)
    else Eval(fs[0], scope, Each([], fs[1..], goal, scope, k), m)
  }

  function Reach(P: M.Primitives, goal: Goal, vs: seq<Value>, scope: Scope, k: Cont, m: Memory): Config {
    match goal
    case ToCall(f, _) => Eval(f, scope, Operating(vs, k), m)
    case ToBind(names, body) => Eval(body, [|m.frames|] + scope, k, m.Enter(names, vs))
    case ToLoop(frame) =>
      if Holds(m, frame, 0) then ApplyValue(P, m.frames[frame].vals[0], vs, k, m) else Failed(M.FrameOutOfRange)
    case ToRound(loop, outer) =>
      var inner := [|m.frames|] + outer;
      Eval(loop.test, inner, Testing(loop, outer, inner, k), m.(frames := m.frames + [Frame(loop.names, vs)]))
    case ToBuild(op) => CallPrimitive(P, Sy.Spelling(op), vs, k, m)
  }

  /** The variables of a letrec get their values one after the other, all in scope. */
  function Fill(names: seq<Symbol>, inits: seq<Form>, body: Form, scope: Scope, k: Cont, m: Memory): Config {
    if names == [] || inits == [] then Eval(body, scope, k, m)
    else Eval(inits[0], scope, Filling(names[0], names[1..], inits[1..], body, scope, k), m)
  }

  /** The clauses of a case in turn, for key v. */
  function Dispatch(v: Value, choices: Choices, scope: Scope, k: Cont, m: Memory): Config {
    match choices
    case Default(els) => Eval(els, scope, k, m)
    case _ => Match(v, choices, scope, k, m)
  }

  function ReturnStep(P: M.Primitives, v: Value, k: Cont, m: Memory): Config {
    match k
    case Finish => Done(v, m)
    case Choosing(thn, els, scope, next) => Eval(if CountsAsFalse(v) then els else thn, scope, next, m)
    case Continuing(second, scope, next) => Eval(second, scope, next, m)
    case Each(done, todo, goal, scope, next) =>
      if todo != [] then Eval(todo[0], scope, Each(done + [v], todo[1..], goal, scope, next), m)
      else if goal.ToCall? && goal.spread then
        (match M.Elements(m.heap, v, {})
         case None => Failed(M.NotAList)
         case Some(vs) => Reach(P, goal, done + vs, scope, next, m))
      else Reach(P, goal, done + [v], scope, next, m)
    case Operating(args, next) => ApplyValue(P, v, args, next, m)
    case Defining(x, next) => Return(M.Lit(Sym(x)), next, m.(globals := m.globals[x := v]))
    case Setting(x, scope, next) =>
      (match Find(x, scope, m.frames)
       case Some((a, j)) => if Holds(m, a, j) then Return(v, next, Assigned(m, a, j, v)) else Failed(M.FrameOutOfRange)
       case None => Return(v, next, m.(globals := m.globals[x := v])))
    case Capturing(next) =>
      ApplyValue(P, v, [M.Continuation(|m.conts|)], next, m.(conts := m.conts + [next]))
    case Filling(x, names, inits, body, scope, next) =>
      (match Find(x, scope, m.frames)
       case Some((a, j)) =>
         if Holds(m, a, j) then Fill(names, inits, body, scope, next, Assigned(m, a, j, v))
           else Failed(M.FrameOutOfRange)
       case None => Failed(M.Unbound(x)))
    case Conjoining(forms, scope, next) =>
      if CountsAsFalse(v) then Return(v, next, m) else Eval(And(forms), scope, next, m)
    case Disjoining(forms, scope, next) =>
      var m' := m.Enter([], [v]);
      if CountsAsFalse(v) then Eval(Or(forms), scope, next, m') else Return(v, next, m')
    case Clausal(None, more, scope, next) =>
      var m' := m.Enter([], [v]);
      if CountsAsFalse(v) then Eval(Cond(more), scope, next, m') else Return(v, next, m')
    case Clausal(Some(body), more, scope, next) =>
      Eval(if CountsAsFalse(v) then Cond(more) else body, scope, next, m)
    case Selecting(choices, scope, next) => Dispatch(v, choices, scope, next, m.Enter([], [v]))
    case Testing(loop, outer, inner, next) =>
      if CountsAsFalse(v) then Command(P, loop.commands, loop, outer, inner, next, m)
      else Eval(loop.result, inner, next, m)
    case Commanding(commands, loop, outer, inner, next) => Command(P, commands, loop, outer, inner, next, m)
  }

  /** The commands of a do in turn, then the steps and the next round. */
  function Command(P: M.Primitives, commands: seq<Form>, loop: Loop, outer: Scope, inner: Scope, k: Cont,
                   m: Memory): Config {
    if commands == [] then EvalEach(P, loop.steps, ToRound(loop, outer), inner, k, m)
    else Eval(commands[0], inner, Commanding(commands[1..], loop, outer, inner, k), m)
  }

  predicate Final(c: Config) {
    c.Done? || c.Failed? || c.Forged?
  }
}
