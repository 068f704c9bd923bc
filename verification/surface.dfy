/** The source language as a programmer reads it: one constructor a form, with its scopes, and the parser. */
module Surface {
  import opened Wrappers
  import opened Datums
  import opened Symbols
  import opened Expand
  import CoreLanguage
  import Weights

  datatype Form =
    | Quoted(x: Datum)
    | Var(name: Symbol)
    | If(test: Form, thn: Form, els: Form)
    | Then(first: Form, second: Form)
    | Lambda(params: seq<Symbol>, rest: Option<Symbol>, body: Form)
    | Define(name: Symbol, rhs: Form)
    | Set(name: Symbol, rhs: Form)
    | CallCC(receiver: Form)
    | Call(f: Form, args: seq<Form>, spread: bool)   // with spread, an apply
    | Let(names: seq<Symbol>, inits: seq<Form>, body: Form)
    | NamedLet(loop: Symbol, names: seq<Symbol>, inits: seq<Form>, body: Form)
    | Letrec(names: seq<Symbol>, inits: seq<Form>, body: Form)
    | And(forms: seq<Form>)
    | Or(forms: seq<Form>)
    | Cond(clauses: Clauses)
    | Case(key: Form, choices: Choices)
    | Do(names: seq<Symbol>, inits: seq<Form>, steps: seq<Form>, test: Form, result: Form, commands: seq<Form>)
    | Build(op: Keyword, parts: seq<Form>)           // part of a quasiquoted template

  /** The clauses of a cond; one without an outcome has its test's value. */
  datatype Clauses = Otherwise(els: Form) | Clause(test: Form, outcome: Option<Form>, more: Clauses)

  /** The clauses of a case. */
  datatype Choices = Default(els: Form) | Choice(keys: Datum, outcome: Option<Form>, more: Choices)

  // ---- Variables ----

  function Elems(names: seq<Symbol>): set<Symbol> {
    set x | x in names
  }

  /** The variables a form takes from its surroundings, with the procedures and values its meaning refers to. */
  function Free(f: Form): set<Symbol>
    decreases f
  {
    match f
    case Quoted(_) => {}
    case Var(x) => {x}
    case If(a, b, c) => Free(a) + Free(b) + Free(c)
    case Then(a, b) => Free(a) + Free(b)
    case Lambda(params, rest, body) => Free(body) - Elems(params) - (if rest.Some? then {rest.value} else {})
    case Define(_, rhs) => Free(rhs)
    case Set(x, rhs) => {x} + Free(rhs)
    case CallCC(receiver) => Free(receiver)
    case Call(operator, args, _) => FreeAll(args) + Free(operator)
    case Let(names, inits, body) => FreeAll(inits) + (Free(body) - Elems(names))
    case NamedLet(loop, names, inits, body) => FreeAll(inits) + (Free(body) - Elems(names) - {loop}) + {Known(Undef)}
    case Letrec(names, inits, body) => FreeAll(inits) + Free(body) - Elems(names) + {Known(Undef)}
    case And(forms) => FreeAll(forms)
    case Or(forms) => FreeAll(forms)
    case Cond(clauses) => FreeClauses(clauses)
    case Case(key, choices) => Free(key) + FreeChoices(choices)
    case Do(names, inits, steps, test, result, commands) =>
      FreeAll(inits) + (Free(test) + Free(result) + FreeAll(commands) + FreeAll(steps) - Elems(names)) + {Known(Undef)}
    case Build(op, parts) => FreeAll(parts) + {Known(op)}
  }

  function FreeAll(fs: seq<Form>): set<Symbol>
    decreases fs
  {
    if fs == [] then {} else Free(fs[0]) + FreeAll(fs[1..])
  }

  function FreeOption(f: Option<Form>): set<Symbol> {
    match f
    case None => {}
    case Some(g) => Free(g)
  }

  function FreeClauses(clauses: Clauses): set<Symbol>
    decreases clauses
  {
    match clauses
    case Otherwise(els) => Free(els)
    case Clause(test, outcome, more) => Free(test) + FreeOption(outcome) + FreeClauses(more)
  }

  function FreeChoices(choices: Choices): set<Symbol>
    decreases choices
  {
    match choices
    case Default(els) => Free(els)
    case Choice(_, outcome, more) => {Known(Memv)} + FreeOption(outcome) + FreeChoices(more)
  }

  // ---- Names with a meaning ----

  /** The names that expansions take to have their usual meaning. */
  predicate Standard(x: Symbol) {
    x.Known? && (x.k.Cons? || x.k.Append? || x.k.Memv? || x.k.ListToVector? || x.k.Undef?)
  }

  /** Names that are not looked up when a list starts with them. */
  predicate IsSyntaxName(x: Symbol) {
    x.Known? && IsSyntax(x.k)
  }

  // ---- The parser ----

  predicate Whole(x: Datum) {
    x.Pair? ==> Size(x) == 1 + Size(x.car) + Size(x.cdr)
  }

  /** The parts of an expression are smaller than it. */
  lemma SizeOfParts(x: Datum)
    ensures Whole(x)
    ensures x.Pair? ==> Whole(x.car) && Whole(x.cdr)
    ensures x.Pair? && x.car.Pair? ==> Whole(x.car.cdr) && (x.car.cdr.Pair? ==> Whole(x.car.cdr.cdr))
    ensures x.Pair? && x.cdr.Pair? ==> Whole(x.cdr.car) && Whole(x.cdr.cdr)
  {
  }

  /** The form that x writes down. */
  function Parse(x: Datum): Option<Form>
    decreases Size(x), 2
  {
    match x
    case Sym(s) => Some(Var(s))
    case Eof => None
    case Pair(head, rest) =>
      if head.Sym? && head.name.Known? && IsSyntax(head.name.k) then ParseSyntax(head.name.k, rest)
      else
        var args :- ParseList(rest);
        var f :- Parse(head);
        Some(Form.Call(f, args, false))
    case _ => Some(Quoted(x))
  }

  predicate IsSyntax(k: Keyword) {
    CoreLanguage.IsSpecial(k) || Weights.IsDerived(k)
  }

  function ParseSyntax(k: Keyword, rest: Datum): Option<Form>
    decreases Size(rest), 5
  {
    if CoreLanguage.IsSpecial(k) then ParseSpecial(k, rest) else if rest.Pair? then ParseDerived(k, rest)
      else ParseEmpty(k)
  }

  function ParseSpecial(k: Keyword, rest: Datum): Option<Form>
    decreases Size(rest), 4
  {
    SizeOfParts(rest);
    if CoreLanguage.IsReport(k) then Some(Quoted(Bool(true)))
    else if k == Keyword.Lambda then
      match rest
      case Pair(params, body) => ParseLambda(params, body)
      case _ => None
    else if k == Keyword.Quote then
      match rest
      case Pair(x, Nil) => Some(Quoted(x))
      case _ => None
    else if k == Keyword.Define then
      match rest
      case Pair(Sym(x), Pair(rhs, Nil)) =>
        var f :- Parse(rhs);
        Some(Form.Define(x, f))
      case Pair(Pair(Sym(x), params), body) =>
        var f :- ParseLambda(params, body);
        Some(Form.Define(x, f))
      case _ => None
    else if k == Keyword.Set then
      match rest
      case Pair(Sym(x), Pair(rhs, Nil)) =>
        var f :- Parse(rhs);
        Some(Form.Set(x, f))
      case _ => None
    else if k == Keyword.Begin then ParseBody(rest)
    else
      var fs :- ParseList(rest);
      if k == Keyword.If && |fs| == 2 then Some(Form.If(fs[0], fs[1], Quoted(Nil)))
      else if k == Keyword.If && |fs| == 3 then Some(Form.If(fs[0], fs[1], fs[2]))
      else if k == Keyword.Apply && |fs| >= 2 then Some(Form.Call(fs[0], fs[1..], true))
      else if (k == Keyword.CallCC || k == Keyword.CallWithCC) && |fs| == 1 then Some(Form.CallCC(fs[0]))
      else None
  }

  /** A derived form without operands. */
  function ParseEmpty(k: Keyword): Option<Form> {
    match k
    case And => Some(Form.And([]))
    case Or => Some(Form.Or([]))
    case Cond => Some(Form.Cond(Otherwise(Var(Known(Undef)))))
    case _ => None
  }

  function ParseDerived(k: Keyword, rest: Datum): Option<Form>
    requires rest.Pair?
    decreases Size(rest), 4
  {
    SizeOfParts(rest);
    match k
    case Let =>
      if rest.car.Sym? then
        if !rest.cdr.Pair? then None
        else
          var (names, inits) :- ParseBindings(rest.cdr.car);
          var body :- ParseScoped(rest.cdr.cdr);
          Some(Form.NamedLet(rest.car.name, names, inits, body))
      else
        var (names, inits) :- ParseBindings(rest.car);
        var body :- ParseScoped(rest.cdr);
        Some(Form.Let(names, inits, body))
    case LetStar =>
      var (names, inits) :- ParseBindings(rest.car);
      var body :- if names != [] then ParseLone(rest.cdr) else ParseBody(rest.cdr);
      Some(OneByOne(names, inits, body))
    case Letrec =>
      if rest.cdr.Nil? then None
      else
        var (names, inits) :- ParseBindings(rest.car);
        var body :- if names == [] then ParseLone(rest.cdr) else ParseBody(rest.cdr);
        Some(Form.Letrec(names, inits, body))
    case And =>
      var fs :- ParseList(rest);
      Some(Form.And(fs))
    case Or =>
      var fs :- ParseList(rest);
      Some(Form.Or(fs))
    case Cond =>
      var clauses :- ParseClauses(rest);
      Some(Form.Cond(clauses))
    case Case =>
      var key :- Parse(rest.car);
      var choices :- ParseChoices(rest.cdr);
      Some(Form.Case(key, choices))
    case Do =>
      (match rest
       case Pair(specs, Pair(Pair(test, result), body)) =>
         var (names, inits, steps) :- ParseSpecs(specs);
         var t :- Parse(test);
         var r :- ParseBody(result);
         var fs :- ParseList(body);
         Some(Form.Do(names, inits, steps, t, r, fs))
       case _ => None)
    case Quasiquote => if rest.cdr.Nil? then ParseTemplate(rest.car) else None
    case _ => None
  }

  /** Nested scopes, one a binding, for the initial values and the body of a let*. */
  function OneByOne(names: seq<Symbol>, inits: seq<Form>, body: Form): Form
    requires |names| == |inits|
  {
    if names == [] then body else Form.Let([names[0]], [inits[0]], OneByOne(names[1..], inits[1..], body))
  }

  function ParseList(x: Datum): (r: Option<seq<Form>>)
    decreases Size(x), 3
  {
    match x
    case Nil => Some([])
    case Pair(a, d) =>
      var f :- Parse(a);
      var fs :- ParseList(d);
      Some([f] + fs)
    case _ => None
  }

  /** Forms in turn. */
  function ParseBody(x: Datum): Option<Form>
    decreases Size(x), 3
  {
    match x
    case Nil => Some(Quoted(Nil))
    case Pair(a, Nil) => Parse(a)
    case Pair(a, d) =>
      var f :- Parse(a);
      var rest :- ParseBody(d);
      Some(Then(f, rest))
    case _ => None
  }

  function ParseLambda(params: Datum, body: Datum): Option<Form>
    decreases Size(body), 6
  {
    var f :- ParseScoped(body);
    match Params(params)
    case Ok((fixed, rest)) => Some(Form.Lambda(fixed, rest, f))
    case Err(_) => None
  }

  /** A body that is a scope: leading defines bind variables in it. */
  function ParseScoped(body: Datum): Option<Form>
    decreases Size(body), 5
  {
    if body.Pair? && IsForm(body.car, Keyword.Define) then
      var (names, inits, f) :- ParseDefines(body);
      Some(Form.Letrec(names, inits, f))
    else ParseBody(body)
  }

  /** A body in which only a define that stands alone binds a variable of the scope. */
  function ParseLone(body: Datum): Option<Form>
    decreases Size(body), 6
  {
    if body.Pair? && body.cdr.Nil? then ParseScoped(body) else ParseBody(body)
  }

  function ParseDefines(body: Datum): (r: Option<(seq<Symbol>, seq<Form>, Form)>)
    ensures r.Some? ==> |r.value.0| == |r.value.1|
    decreases Size(body), 4
  {
    SizeOfParts(body);
    if body.Pair? && IsForm(body.car, Keyword.Define) then
      var (x, e) :- ParseDefine(body.car);
      var (names, inits, f) :- ParseDefines(body.cdr);
      Some(([x] + names, [e] + inits, f))
    else if body.Nil? then Some(([], [], Var(Known(Undef))))
    else
      var f :- ParseBody(body);
      Some(([], [], f))
  }

  /** A define inside a body. */
  function ParseDefine(x: Datum): Option<(Symbol, Form)>
    decreases Size(x), 3
  {
    SizeOfParts(x);
    match x
    case Pair(_, Pair(Sym(v), Pair(e, _))) =>
      var f :- Parse(e);
      Some((v, f))
    case Pair(_, Pair(Pair(Sym(v), params), body)) =>
      var f :- ParseLambda(params, body);
      Some((v, f))
    case _ => None
  }

  function ParseBindings(bs: Datum): (r: Option<(seq<Symbol>, seq<Form>)>)
    ensures r.Some? ==> |r.value.0| == |r.value.1|
    decreases Size(bs), 3
  {
    SizeOfParts(bs);
    match bs
    case Nil => Some(([], []))
    case Pair(Pair(Sym(v), Pair(e, Nil)), more) =>
      var f :- Parse(e);
      var (names, inits) :- ParseBindings(more);
      Some(([v] + names, [f] + inits))
    case _ => None
  }

  function ParseOptional(body: Datum): Option<Option<Form>>
    decreases Size(body), 4
  {
    if body.Nil? then Some(None)
    else
      var f :- ParseBody(body);
      Some(Some(f))
  }

  function ParseClauses(x: Datum): Option<Clauses>
    decreases Size(x), 3
  {
    SizeOfParts(x);
    match x
    case Nil => Some(Otherwise(Var(Known(Undef))))
    case Pair(Pair(test, body), more) =>
      if IsSymbol(test, Else) then
        var f :- ParseBody(body);
        Some(Otherwise(f))
      else
        var t :- Parse(test);
        var outcome :- ParseOptional(body);
        var rest :- ParseClauses(more);
        Some(Clause(t, outcome, rest))
    case _ => None
  }

  function ParseChoices(x: Datum): Option<Choices>
    decreases Size(x), 3
  {
    SizeOfParts(x);
    match x
    case Nil => Some(Default(Var(Known(Undef))))
    case Pair(Pair(keys, body), more) =>
      if IsSymbol(keys, Else) then
        var f :- ParseBody(body);
        Some(Default(f))
      else
        var outcome :- ParseOptional(body);
        var rest :- ParseChoices(more);
        Some(Choice(keys, outcome, rest))
    case _ => None
  }

  /** The variables of a do, with their initial values and steps; a variable without a step keeps its value. */
  function ParseSpecs(x: Datum): (r: Option<(seq<Symbol>, seq<Form>, seq<Form>)>)
    ensures r.Some? ==> |r.value.0| == |r.value.1| == |r.value.2|
    decreases Size(x), 3
  {
    SizeOfParts(x);
    match x
    case Nil => Some(([], [], []))
    case Pair(Pair(Sym(v), Pair(init, tail)), more) =>
      var i :- Parse(init);
      var s :- if tail.Pair? then Parse(tail.car) else Some(Var(v));
      var (names, inits, steps) :- ParseSpecs(more);
      Some(([v] + names, [i] + inits, [s] + steps))
    case _ => None
  }

  /** A quasiquoted template: what is not unquoted is built afresh, pair by pair. */
  function ParseTemplate(x: Datum): Option<Form>
    decreases Size(x), 3
  {
    SizeOfParts(x);
    match x
    case Pair(a, d) =>
      if IsSymbol(a, Unquote) then
        if d.Pair? then Parse(d.car) else None
      else if IsSymbol(a, Splice) then None
      else if (IsForm(a, Unquote) || IsForm(a, Splice)) && !a.cdr.Pair? then None
      else
        var rest :- ParseTemplate(d);
        if IsForm(a, Unquote) || IsForm(a, Splice) then
          var f :- Parse(a.cdr.car);
          Some(Build(if IsForm(a, Unquote) then Cons else Append, [f, rest]))
        else
          var first :- if a.Pair? then ParseTemplate(a) else Some(Quoted(a));
          Some(Build(Cons, [first, rest]))
    case Vec(es) =>
      SizeListOf(es);
      var list :- ParseTemplate(ListOf(es));
      Some(Build(ListToVector, [list]))
    case _ => Some(Quoted(x))
  }
}
