/** What a source form becomes in the core language: a relation, with the side conditions that make it hygienic. */
module Lowering {
  import opened Datums
  import opened Symbols
  import C = CoreLanguage
  import opened Surface

  type Core = C.Core

  const UNDEFINED: Core := C.Ref(Known(Undef))

  /** What a template is built with. */
  predicate IsBuilder(op: Keyword) {
    op.Cons? || op.Append? || op.ListToVector?
  }

  predicate Unrebound(names: seq<Symbol>) {
    forall x :: x in names ==> !Standard(x)
  }

  /** `((lambda (y) (if y y else)) value)` for some y. */
  predicate IsTemp(t: Core) {
    && t.Call? && |t.args| == 1 && t.f.Fun? && |t.f.params| == 1 && t.f.rest.None?
    && t.f.body.Test? && t.f.body.cond == C.Ref(t.f.params[0]) && t.f.body.thn == C.Ref(t.f.params[0])
    && !Standard(t.f.params[0])
  }

  /** `((lambda (loop) (set! loop (lambda names body)) (loop init ...)) :undef)`. */
  predicate IsLoop(t: Core, loop: Symbol, names: seq<Symbol>) {
    && t.Call? && t.args == [UNDEFINED] && t.f.Fun? && t.f.params == [loop] && t.f.rest.None?
    && t.f.body.Then? && t.f.body.first.Assign? && t.f.body.first.name == loop
    && t.f.body.first.rhs.Fun? && t.f.body.first.rhs.params == names && t.f.body.first.rhs.rest.None?
    && t.f.body.second.Call? && t.f.body.second.f == C.Ref(loop)
    && !Standard(loop)
  }

  function LoopBody(t: Core): Core
    requires t.Call? && t.f.Fun? && t.f.body.Then? && t.f.body.first.Assign? && t.f.body.first.rhs.Fun?
  {
    t.f.body.first.rhs.body
  }

  function LoopInits(t: Core): seq<Core>
    requires t.Call? && t.f.Fun? && t.f.body.Then? && t.f.body.second.Call?
  {
    t.f.body.second.args
  }

  /** What follows the first n parts of a sequence. */
  function Bottom(n: nat, t: Core): Core
    decreases n
  {
    if n > 0 && t.Then? then Bottom(n - 1, t.second) else t
  }

  /** t is what f becomes. Generated variables are not free where they are in scope, the variables that expansions
      refer to are not rebound. */
  predicate Lowers(f: Form, t: Core)
    decreases f
  {
    match f
    case Quoted(x) => t == C.Const(x)
    case Var(x) => t == C.Ref(x)
    case If(a, b, c) => t.Test? && Lowers(a, t.cond) && Lowers(b, t.thn) && Lowers(c, t.els)
    case Then(a, b) => t.Then? && Lowers(a, t.first) && Lowers(b, t.second)
    case Lambda(params, rest, body) =>
      && t.Fun? && t.params == params && t.rest == rest && Lowers(body, t.body)
      && Unrebound(params) && (rest.Some? ==> !Standard(rest.value))
    case Define(x, rhs) => t.Def? && t.name == x && Lowers(rhs, t.rhs) && !Standard(x)
    case Set(x, rhs) => t.Assign? && t.name == x && Lowers(rhs, t.rhs) && !Standard(x)
    case CallCC(receiver) => t.CaptureCall? && Lowers(receiver, t.receiver)
    case Call(operator, args, spread) =>
      (if spread then t.Spread? else t.Call?) && Lowers(operator, t.f) && LowersAll(args, t.args)
      && (spread ==> args != [])
    case Let(names, inits, body) =>
      && t.Call? && t.f.Fun? && t.f.params == names && t.f.rest.None? && |names| == |inits| && Unrebound(names)
      && LowersAll(inits, t.args) && Lowers(body, t.f.body)
    case NamedLet(loop, names, inits, body) =>
      && IsLoop(t, loop, names) && |names| == |inits| && Unrebound(names)
      && LowersAll(inits, LoopInits(t)) && Lowers(body, LoopBody(t)) && loop !in FreeAll(inits) && !IsSyntaxName(loop)
    case Letrec(names, inits, body) =>
      && t.Call? && t.f.Fun? && t.f.params == names && t.f.rest.None? && Unrebound(names)
      && |names| == |inits| && t.args == seq(|names|, _ => UNDEFINED)
      && LowersFill(names, inits, t.f.body) && Lowers(body, Bottom(|names|, t.f.body))
    case And(forms) => LowersAnd(forms, t)
    case Or(forms) => LowersOr(forms, t)
    case Cond(clauses) => LowersClauses(clauses, t)
    case Case(key, choices) =>
      && t.Call? && |t.args| == 1 && t.f.Fun? && |t.f.params| == 1 && t.f.rest.None? && !Standard(t.f.params[0])
      && Lowers(key, t.args[0]) && LowersChoices(t.f.params[0], choices, t.f.body)
    case Do(names, inits, steps, test, result, commands) =>
      && t.Call? && t.f.Fun? && t.f.params != [] && var loop := t.f.params[0];
      && IsLoop(t, loop, names) && |names| == |inits| == |steps| && Unrebound(names) && loop !in names
      && LowersAll(inits, LoopInits(t)) && loop !in FreeAll(inits)
      && var u := LoopBody(t);
      && u.Test? && Lowers(test, u.cond) && Lowers(result, u.thn) && LowersCommands(commands, u.els)
      && loop !in Free(test) + Free(result) + FreeAll(commands) + FreeAll(steps)
      && var again := Bottom(|commands|, u.els);
      && again.Call? && again.f == C.Ref(loop) && LowersAll(steps, again.args)
    case Build(op, parts) => t.Call? && IsBuilder(op) && t.f == C.Ref(Known(op)) && LowersAll(parts, t.args)
  }

  predicate LowersAll(fs: seq<Form>, ts: seq<Core>)
    decreases fs
  {
    |fs| == |ts| && forall i :: 0 <= i < |fs| ==> Lowers(fs[i], ts[i])
  }

  /** t is what f becomes: for where only that matters, and not what f is. */
  predicate Becomes(f: Form, t: Core) {
    LowersAll([f], [t])
  }

  lemma Unseal(f: Form, t: Core)
    ensures Becomes(f, t) <==> Lowers(f, t)
  {
    assert [f][0] == f && [t][0] == t;
    if Lowers(f, t) {
      forall i | 0 <= i < 1 ensures Lowers([f][i], [t][i]) {
        assert i == 0;
      }
    }
  }

  /** Assignments of the inits to the names, before whatever follows. */
  predicate LowersFill(names: seq<Symbol>, inits: seq<Form>, t: Core)
    decreases inits
  {
    |names| == |inits| && (inits != [] ==>
      && t.Then? && t.first.Assign? && t.first.name == names[0] && Lowers(inits[0], t.first.rhs)
      && LowersFill(names[1..], inits[1..], t.second))
  }

  predicate LowersCommands(commands: seq<Form>, t: Core)
    decreases commands
  {
    commands != [] ==> t.Then? && Lowers(commands[0], t.first) && LowersCommands(commands[1..], t.second)
  }

  predicate LowersAnd(forms: seq<Form>, t: Core)
    decreases forms
  {
    if forms == [] then t == C.Const(Bool(true))
    else if |forms| == 1 then Lowers(forms[0], t)
    else t.Test? && Lowers(forms[0], t.cond) && LowersAnd(forms[1..], t.thn) && t.els == C.Const(Bool(false))
  }

  predicate LowersOr(forms: seq<Form>, t: Core)
    decreases forms
  {
    if forms == [] then t == C.Const(Bool(false))
    else if |forms| == 1 then Lowers(forms[0], t)
    else
      IsTemp(t) && Lowers(forms[0], t.args[0]) && LowersOr(forms[1..], t.f.body.els) &&
        t.f.params[0] !in FreeAll(forms[1..])
  }

  predicate LowersClauses(clauses: Clauses, t: Core)
    decreases clauses
  {
    match clauses
    case Otherwise(els) => Lowers(els, t)
    case Clause(test, None, more) =>
      IsTemp(t) && Lowers(test, t.args[0]) && LowersClauses(more, t.f.body.els) && t.f.params[0] !in FreeClauses(more)
    case Clause(test, Some(body), more) =>
      t.Test? && Lowers(test, t.cond) && Lowers(body, t.thn) && LowersClauses(more, t.els)
  }

  /** `(memv y 'keys)`. */
  function MemvCall(y: Symbol, keys: Datum): Core {
    C.Call(C.Ref(Known(Memv)), [C.Ref(y), C.Const(keys)])
  }

  /** The clauses of a case whose key y holds. */
  predicate LowersChoices(y: Symbol, choices: Choices, t: Core)
    decreases choices
  {
    && y !in FreeChoices(choices)
    && match choices
       case Default(els) => Lowers(els, t)
       case Choice(keys, None, more) =>
         IsTemp(t) && t.args[0] == MemvCall(y, keys) && LowersChoices(y, more, t.f.body.els)
         && t.f.params[0] !in FreeChoices(more) && t.f.params[0] != y
       case Choice(keys, Some(body), more) =>
         t.Test? && t.cond == MemvCall(y, keys) && Lowers(body, t.thn) && LowersChoices(y, more, t.els)
  }

  // ---- The same of several forms ----

  predicate BecomesAll(fs: seq<Form>, ts: seq<Core>) {
    |fs| == |ts| && forall i :: 0 <= i < |fs| ==> Becomes(fs[i], ts[i])
  }

  lemma UnsealAll(fs: seq<Form>, ts: seq<Core>)
    requires LowersAll(fs, ts)
    ensures BecomesAll(fs, ts)
  {
    forall i | 0 <= i < |fs| ensures Becomes(fs[i], ts[i]) {
      Unseal(fs[i], ts[i]);
    }
  }

  lemma SealAll(fs: seq<Form>, ts: seq<Core>)
    requires BecomesAll(fs, ts)
    ensures LowersAll(fs, ts)
  {
    forall i | 0 <= i < |fs| ensures Lowers(fs[i], ts[i]) {
      Unseal(fs[i], ts[i]);
    }
  }

  predicate BecomesFill(names: seq<Symbol>, inits: seq<Form>, t: Core)
    decreases inits
  {
    |names| == |inits| && (inits != [] ==>
      && t.Then? && t.first.Assign? && t.first.name == names[0] && Becomes(inits[0], t.first.rhs)
      && BecomesFill(names[1..], inits[1..], t.second))
  }

  lemma {:induction false} UnsealFill(names: seq<Symbol>, inits: seq<Form>, t: Core)
    requires LowersFill(names, inits, t)
    ensures BecomesFill(names, inits, t)
    decreases inits
  {
    if inits != [] {
      Unseal(inits[0], t.first.rhs);
      UnsealFill(names[1..], inits[1..], t.second);
    }
  }

  predicate BecomesCommands(commands: seq<Form>, t: Core)
    decreases commands
  {
    commands != [] ==> t.Then? && Becomes(commands[0], t.first) && BecomesCommands(commands[1..], t.second)
  }

  lemma {:induction false} UnsealCommands(commands: seq<Form>, t: Core)
    requires LowersCommands(commands, t)
    ensures BecomesCommands(commands, t)
    decreases commands
  {
    if commands != [] {
      Unseal(commands[0], t.first);
      UnsealCommands(commands[1..], t.second);
    }
  }
}
