/** Which programs keep their meaning: hygiene, by the names that desugaring does draw from the counter. */
module Hygiene {
  import opened Wrappers
  import opened Symbols
  import opened Surface
  import opened Lowering

  // ---- Generated names ----

  function OrName(n: nat): Symbol {
    Gensym("or", n)
  }

  function CondName(n: nat): Symbol {
    Gensym("cond", n)
  }

  function CaseName(n: nat): Symbol {
    Gensym("case", n)
  }

  function LoopName(n: nat): Symbol {
    Gensym("loop", n)
  }

  /** How many names an `or` of n forms draws. */
  function OrDraws(n: nat): nat {
    if n == 0 then 0 else n - 1
  }

  /** How many names the clauses of a cond draw: one for each without an outcome. */
  function ClauseDraws(clauses: Clauses): nat {
    match clauses
    case Otherwise(_) => 0
    case Clause(_, outcome, more) => (if outcome.None? then 1 else 0) + ClauseDraws(more)
  }

  function ChoiceDraws(choices: Choices): nat {
    match choices
    case Default(_) => 0
    case Choice(_, outcome, more) => (if outcome.None? then 1 else 0) + ChoiceDraws(more)
  }

  // ---- The counter ----

  /** Where the counter stands when f has been desugared from g on. */
  function After(f: Form, g: nat): nat
    decreases f
  {
    match f
    case Quoted(_) => g
    case Var(_) => g
    case If(a, b, c) => After(c, After(b, After(a, g)))
    case Then(a, b) => After(b, After(a, g))
    case Lambda(_, _, body) => After(body, g)
    case Define(_, rhs) => After(rhs, g)
    case Set(_, rhs) => After(rhs, g)
    case CallCC(receiver) => After(receiver, g)
    case Call(operator, args, _) => After(operator, AfterAll(args, g))
    case Let(_, inits, body) => After(body, AfterAll(inits, g))
    case NamedLet(_, _, inits, body) => AfterAll(inits, After(body, g))
    case Letrec(_, inits, body) => After(body, AfterAll(inits, g))
    case And(forms) => AfterAll(forms, g)
    case Or(forms) => AfterAll(forms, g + OrDraws(|forms|))
    case Cond(clauses) => AfterClauses(clauses, g + ClauseDraws(clauses))
    case Case(key, choices) => AfterChoices(choices, After(key, g + 1) + ChoiceDraws(choices))
    case Do(_, inits, steps, test, result, commands) =>
      AfterAll(inits, AfterAll(steps, AfterAll(commands, After(result, After(test, g + 1)))))
    case Build(_, parts) => AfterAll(parts, g)
  }

  function AfterAll(fs: seq<Form>, g: nat): nat
    decreases fs
  {
    if fs == [] then g else AfterAll(fs[1..], After(fs[0], g))
  }

  function AfterOption(f: Option<Form>, g: nat): nat
    decreases f
  {
    match f
    case None => g
    case Some(body) => After(body, g)
  }

  function AfterClauses(clauses: Clauses, g: nat): nat
    decreases clauses
  {
    match clauses
    case Otherwise(els) => After(els, g)
    case Clause(test, outcome, more) => AfterClauses(more, AfterOption(outcome, After(test, g)))
  }

  function AfterChoices(choices: Choices, g: nat): nat
    decreases choices
  {
    match choices
    case Default(els) => After(els, g)
    case Choice(_, outcome, more) => AfterChoices(more, AfterOption(outcome, g))
  }

  // ---- Hygiene ----

  /** f, desugared from counter g on, is hygienic. No name that expansions give a meaning to is bound or assigned; a
      name that is drawn for a part of f occurs free nowhere in that part; and a named let's name is not a syntactic
      keyword, and not free in the initial values. All of this can be read off f and g before anything is expanded. */
  predicate Clean(f: Form, g: nat)
    decreases f
  {
    match f
    case Quoted(_) => true
    case Var(_) => true
    case If(a, b, c) => Clean(a, g) && Clean(b, After(a, g)) && Clean(c, After(b, After(a, g)))
    case Then(a, b) => Clean(a, g) && Clean(b, After(a, g))
    case Lambda(params, rest, body) => Unrebound(params) && (rest.Some? ==> !Standard(rest.value)) && Clean(body, g)
    case Define(x, rhs) => !Standard(x) && Clean(rhs, g)
    case Set(x, rhs) => !Standard(x) && Clean(rhs, g)
    case CallCC(receiver) => Clean(receiver, g)
    case Call(operator, args, _) => CleanAll(args, g) && Clean(operator, AfterAll(args, g))
    case Let(names, inits, body) => Unrebound(names) && CleanAll(inits, g) && Clean(body, AfterAll(inits, g))
    case NamedLet(loop, names, inits, body) =>
      && !Standard(loop) && !IsSyntaxName(loop) && Unrebound(names) && loop !in FreeAll(inits)
      && Clean(body, g) && CleanAll(inits, After(body, g))
    case Letrec(names, inits, body) => Unrebound(names) && CleanAll(inits, g) && Clean(body, AfterAll(inits, g))
    case And(forms) => CleanAll(forms, g)
    case Or(forms) => OrFresh(forms, g) && CleanAll(forms, g + OrDraws(|forms|))
    case Cond(clauses) => ClausesFresh(clauses, g) && CleanClauses(clauses, g + ClauseDraws(clauses))
    case Case(key, choices) =>
      && CaseName(g + 1) !in FreeChoices(choices) && Clean(key, g + 1)
      && ChoicesFresh(choices, After(key, g + 1)) && CleanChoices(choices, After(key, g + 1) + ChoiceDraws(choices))
    case Do(names, inits, steps, test, result, commands) =>
      Unrebound(names) && DoFresh(f, LoopName(g + 1)) && CleanDo(f, g + 1)
    case Build(_, parts) => CleanAll(parts, g)
  }

  predicate CleanAll(fs: seq<Form>, g: nat)
    decreases fs
  {
    fs == [] || (Clean(fs[0], g) && CleanAll(fs[1..], After(fs[0], g)))
  }

  predicate CleanOption(f: Option<Form>, g: nat)
    decreases f
  {
    f.Some? ==> Clean(f.value, g)
  }

  predicate CleanClauses(clauses: Clauses, g: nat)
    decreases clauses
  {
    match clauses
    case Otherwise(els) => Clean(els, g)
    case Clause(test, outcome, more) =>
      && Clean(test, g) && CleanOption(outcome, After(test, g))
      && CleanClauses(more, AfterOption(outcome, After(test, g)))
  }

  predicate CleanChoices(choices: Choices, g: nat)
    decreases choices
  {
    match choices
    case Default(els) => Clean(els, g)
    case Choice(_, outcome, more) => CleanOption(outcome, g) && CleanChoices(more, AfterOption(outcome, g))
  }

  /** The parts of a do, in the order in which they are desugared. */
  predicate CleanDo(f: Form, g: nat)
    requires f.Do?
    decreases f, 0
  {
    var g1 := After(f.test, g);
    var g2 := After(f.result, g1);
    var g3 := AfterAll(f.commands, g2);
    && Clean(f.test, g) && Clean(f.result, g1) && CleanAll(f.commands, g2) && CleanAll(f.steps, g3)
    && CleanAll(f.inits, AfterAll(f.steps, g3))
  }

  /** A do whose loop is named `loop`, which none of its parts mentions. */
  predicate DoFresh(f: Form, loop: Symbol)
    requires f.Do?
  {
    && loop !in f.names
    && loop !in FreeAll(f.inits) + Free(f.test) + Free(f.result) + FreeAll(f.commands) + FreeAll(f.steps)
  }

  /** The forms of an `or`, the first of which has its value in the name drawn next after i. */
  predicate OrFresh(forms: seq<Form>, i: nat)
    decreases forms
  {
    |forms| >= 2 ==> OrName(i + 1) !in FreeAll(forms[1..]) && OrFresh(forms[1..], i + 1)
  }

  predicate ClausesFresh(clauses: Clauses, i: nat)
    decreases clauses
  {
    match clauses
    case Otherwise(_) => true
    case Clause(_, None, more) => CondName(i + 1) !in FreeClauses(more) && ClausesFresh(more, i + 1)
    case Clause(_, Some(_), more) => ClausesFresh(more, i)
  }

  predicate ChoicesFresh(choices: Choices, i: nat)
    decreases choices
  {
    match choices
    case Default(_) => true
    case Choice(_, None, more) => CondName(i + 1) !in FreeChoices(more) && ChoicesFresh(more, i + 1)
    case Choice(_, Some(_), more) => ChoicesFresh(more, i)
  }
}
