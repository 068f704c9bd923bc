/** The derived-form expanders: each rewrites the operands of one form into a simpler expression. */
module Expand {
  import opened Wrappers
  import opened Datums
  import opened Symbols

  /** An expansion, with the gensym counter after it. */
  type Expansion = Result<(Datum, nat), SyntaxError>

  /** A `(variable init)` binding. */
  datatype Binding = Binding(name: Symbol, init: Datum) {
    function ToDatum(): Datum {
      ListOf([Sym(name), init])
    }
  }

  predicate IsSymbol(x: Datum, k: Keyword) {
    x == Sym(Known(k))
  }

  /** A form whose head is the known symbol k. */
  predicate IsForm(x: Datum, k: Keyword) {
    x.Pair? && IsSymbol(x.car, k)
  }

  function BeginForm(forms: seq<Datum>): Datum {
    if forms == [] then Nil
    else if |forms| == 1 then forms[0]
    else Pair(Sym(Known(Begin)), ListOf(forms))
  }

  function ListResult(x: Datum): Result<seq<Datum>, SyntaxError> {
    match ToSeq(x)
    case Some(xs) => Ok(xs)
    case None => Err(ImproperList)
  }

  /** The operands of a form with at least `least` and, unless `most` is 0, at most `most` of them. */
  function Operands(form: Keyword, rest: Datum, least: nat, most: nat): (r: Result<seq<Datum>, SyntaxError>)
    ensures r.Ok? ==> least <= |r.value| && (most == 0 || |r.value| <= most) && ToSeq(rest) == Some(r.value)
  {
    match ToSeq(rest)
    case None => Err(BadForm(form))
    case Some(xs) => if |xs| < least || (most != 0 && |xs| > most) then Err(BadForm(form)) else Ok(xs)
  }

  /** `check_bindings`: a proper list of `(symbol expression)`. */
  function Bindings(form: Keyword, bs: Datum): Result<seq<Binding>, SyntaxError> {
    match bs
    case Nil => Ok([])
    case Pair(Pair(Sym(v), Pair(e, Nil)), more) =>
      var rest :- Bindings(form, more);
      Ok([Binding(v, e)] + rest)
    case _ => Err(BadForm(form))
  }

  function Names(bs: seq<Binding>): (xs: seq<Datum>)
    ensures |xs| == |bs|
  {
    seq(|bs|, i requires 0 <= i < |bs| => Sym(bs[i].name))
  }

  function Inits(bs: seq<Binding>): (xs: seq<Datum>)
    ensures |xs| == |bs|
  {
    seq(|bs|, i requires 0 <= i < |bs| => bs[i].init)
  }

  function BindingList(bs: seq<Binding>): (xs: seq<Datum>)
    ensures |xs| == |bs|
  {
    seq(|bs|, i requires 0 <= i < |bs| => bs[i].ToDatum())
  }

  function LambdaForm(params: Datum, body: Datum): Datum {
    Pair(Sym(Known(Lambda)), Pair(params, body))
  }

  function LetForm(keyword: Keyword, bs: seq<Binding>, body: Datum): Datum {
    Pair(Sym(Known(keyword)), Pair(ListOf(BindingList(bs)), body))
  }

  function IfForm(test: Datum, thn: Datum, els: Datum): Datum {
    ListOf([Sym(Known(If)), test, thn, els])
  }

  function ExpandLet(rest: Datum): Result<Datum, SyntaxError> {
    var _ :- Operands(Let, rest, 1, 0);
    if rest.car.Sym? then
      if !rest.cdr.Pair? then Err(BadForm(Let))
      else
        var bs :- Bindings(Let, rest.cdr.car);
        var loop := Binding(rest.car.name, LambdaForm(ListOf(Names(bs)), rest.cdr.cdr));
        Ok(LetForm(Letrec, [loop], ListOf([Pair(rest.car, ListOf(Inits(bs)))])))
    else
      var bs :- Bindings(Let, rest.car);
      Ok(Pair(LambdaForm(ListOf(Names(bs)), rest.cdr), ListOf(Inits(bs))))
  }

  function ExpandLetStar(rest: Datum): Result<Datum, SyntaxError> {
    var xs :- Operands(LetStar, rest, 1, 0);
    var bs :- Bindings(LetStar, rest.car);
    var body := BeginForm(xs[1..]);
    if |bs| == 0 then Ok(body)
    else if |bs| == 1 then Ok(LetForm(Let, bs, ListOf([body])))
    else Ok(LetForm(Let, [bs[0]], ListOf([LetForm(LetStar, bs[1..], ListOf([body]))])))
  }

  function Undefined(bs: seq<Binding>): (us: seq<Binding>)
    ensures |us| == |bs|
  {
    seq(|bs|, i requires 0 <= i < |bs| => Binding(bs[i].name, Sym(Known(Undef))))
  }

  function Assignments(bs: seq<Binding>): (xs: seq<Datum>)
    ensures |xs| == |bs|
  {
    seq(|bs|, i requires 0 <= i < |bs| => ListOf([Sym(Known(Set)), Sym(bs[i].name), bs[i].init]))
  }

  function ExpandLetrec(rest: Datum): Result<Datum, SyntaxError> {
    var xs :- Operands(Letrec, rest, 1, 0);
    var bs :- Bindings(Letrec, rest.car);
    Ok(LetForm(Let, Undefined(bs), ListOf([BeginForm(Assignments(bs) + xs[1..])])))
  }

  function ExpandAnd(xs: seq<Datum>): Datum {
    if xs == [] then Bool(true)
    else if |xs| == 1 then xs[0]
    else IfForm(xs[0], ExpandAnd(xs[1..]), Bool(false))
  }

  function ExpandOr(xs: seq<Datum>, g: nat): (Datum, nat) {
    if xs == [] then (Bool(false), g)
    else if |xs| == 1 then (xs[0], g)
    else
      var t := Gensym("or", g + 1);
      var (rest, g') := ExpandOr(xs[1..], g + 1);
      (LetForm(Let, [Binding(t, xs[0])], ListOf([IfForm(Sym(t), Sym(t), rest)])), g')
  }

  function ExpandCond(rest: Datum, g: nat): Expansion {
    match rest
    case Nil => Ok((Sym(Known(Undef)), g))
    case Pair(Pair(test, body), more) =>
      if IsSymbol(test, Else) then
        var xs :- ListResult(body);
        Ok((BeginForm(xs), g))
      else if body.Nil? then
        var t := Gensym("cond", g + 1);
        var (els, g') :- ExpandCond(more, g + 1);
        Ok((LetForm(Let, [Binding(t, test)], ListOf([IfForm(Sym(t), Sym(t), els)])), g'))
      else
        var xs :- ListResult(body);
        var (els, g') :- ExpandCond(more, g);
        Ok((IfForm(test, BeginForm(xs), els), g'))
    case _ => Err(BadForm(Cond))
  }

  /** The clauses of a `case` as `cond` clauses testing the key held by variable t. */
  function CaseClauses(t: Symbol, clauses: Datum): Result<seq<Datum>, SyntaxError> {
    match clauses
    case Nil => Ok([])
    case Pair(Pair(head, body), more) =>
      var xs :- ListResult(body);
      var rest :- CaseClauses(t, more);
      if IsSymbol(head, Else) then Ok([Pair(Sym(Known(Else)), ListOf(xs))] + rest)
      else
        var test := ListOf([Sym(Known(Memv)), Sym(t), ListOf([Sym(Known(Quote)), head])]);
        Ok([Pair(test, ListOf(xs))] + rest)
    case _ => Err(BadForm(Case))
  }

  function ExpandCase(rest: Datum, g: nat): Expansion {
    var _ :- Operands(Case, rest, 1, 0);
    var t := Gensym("case", g + 1);
    var clauses :- CaseClauses(t, rest.cdr);
    Ok((LetForm(Let, [Binding(t, rest.car)], ListOf([Pair(Sym(Known(Cond)), ListOf(clauses))])), g + 1))
  }

  /** One `(variable init [step])` of a `do`; a missing step is the variable itself. */
  datatype DoSpec = DoSpec(name: Symbol, init: Datum, step: Datum)

  function DoSpecs(xs: seq<Datum>): Result<seq<DoSpec>, SyntaxError> {
    if xs == [] then Ok([])
    else
      match xs[0]
      case Pair(Sym(v), Pair(init, tail)) =>
        if tail.Nil? || tail.Pair? then
          var rest :- DoSpecs(xs[1..]);
          Ok([DoSpec(v, init, if tail.Nil? then Sym(v) else tail.car)] + rest)
        else Err(ExpectedPair)
      case _ => Err(BadForm(Do))
  }

  function SpecNames(specs: seq<DoSpec>): (xs: seq<Datum>)
    ensures |xs| == |specs|
  {
    seq(|specs|, i requires 0 <= i < |specs| => Sym(specs[i].name))
  }

  function SpecInits(specs: seq<DoSpec>): (xs: seq<Datum>)
    ensures |xs| == |specs|
  {
    seq(|specs|, i requires 0 <= i < |specs| => specs[i].init)
  }

  function SpecSteps(specs: seq<DoSpec>): (xs: seq<Datum>)
    ensures |xs| == |specs|
  {
    seq(|specs|, i requires 0 <= i < |specs| => specs[i].step)
  }

  /** The letrec a `do` becomes, its loop procedure named `loop`. */
  function DoLoop(loop: Symbol, specs: seq<DoSpec>, test: Datum, result: seq<Datum>, body: seq<Datum>): Datum {
    var again := Pair(Sym(loop), ListOf(SpecSteps(specs)));
    var step := IfForm(test, BeginForm(result), BeginForm(body + [again]));
    var lambda := LambdaForm(ListOf(SpecNames(specs)), ListOf([step]));
    LetForm(Letrec, [Binding(loop, lambda)], ListOf([Pair(Sym(loop), ListOf(SpecInits(specs)))]))
  }

  function ExpandDo(rest: Datum, g: nat): Expansion {
    var xs :- Operands(Do, rest, 2, 0);
    if !xs[1].Pair? then Err(BadForm(Do))
    else
      var raw :- ListResult(xs[0]);
      var specs :- DoSpecs(raw);
      var result :- ListResult(xs[1].cdr);
      Ok((DoLoop(Gensym("loop", g + 1), specs, xs[1].car, result, xs[2..]), g + 1))
  }

  /** `qq_transfer`: the expression that builds a quasiquoted template. */
  function Quasi(x: Datum): Result<Datum, SyntaxError>
    decreases Size(x)
  {
    match x
    case Pair(a, d) =>
      if IsSymbol(a, Unquote) then
        if d.Pair? then Ok(d.car) else Err(BadUnquote)
      else if IsSymbol(a, Splice) then Err(BadSplice)
      else if IsForm(a, Unquote) || IsForm(a, Splice) then
        if a.cdr.Pair? then
          var rest :- Quasi(d);
          Ok(ListOf([Sym(Known(if IsForm(a, Unquote) then Cons else Append)), a.cdr.car, rest]))
        else Err(ExpectedPair)
      else if a.Pair? then
        var first :- Quasi(a);
        var rest :- Quasi(d);
        Ok(ListOf([Sym(Known(Cons)), first, rest]))
      else
        var rest :- Quasi(d);
        Ok(ListOf([Sym(Known(Cons)), ListOf([Sym(Known(Quote)), a]), rest]))
    case Vec(es) =>
      SizeListOf(es);
      var list :- Quasi(ListOf(es));
      Ok(ListOf([Sym(Known(ListToVector)), list]))
    case _ => Ok(ListOf([Sym(Known(Quote)), x]))
  }

  /** The binding an internal define stands for. */
  function InternalDefine(x: Datum): Result<Binding, SyntaxError> {
    match x
    case Pair(_, Pair(Sym(v), tail)) =>
      if tail.Nil? then Err(BadInternalDefine)
      else if tail.Pair? then Ok(Binding(v, tail.car))
      else Err(ExpectedPair)
    case Pair(_, Pair(Pair(Sym(f), params), tail)) => Ok(Binding(f, LambdaForm(params, tail)))
    case Pair(_, d) => if d.Nil? || d.Pair? then Err(BadInternalDefine) else Err(ExpectedPair)
    case _ => Err(ExpectedPair)
  }

  /** The bindings of the leading defines of a body, and the forms after them. */
  function LeadingDefines(forms: seq<Datum>): Result<(seq<Binding>, seq<Datum>), SyntaxError> {
    if forms == [] || !IsForm(forms[0], Define) then Ok(([], forms))
    else
      var b :- InternalDefine(forms[0]);
      var (bs, rest) :- LeadingDefines(forms[1..]);
      Ok(([b] + bs, rest))
  }

  /** `scan_out_defines`: the leading defines of a lambda body become one letrec. */
  function ScanOutDefines(body: Datum): Result<seq<Datum>, SyntaxError> {
    var forms :- ListResult(body);
    var (bs, rest) :- LeadingDefines(forms);
    if bs == [] then Ok(forms)
    else Ok([LetForm(Letrec, bs, ListOf(if rest == [] then [Sym(Known(Undef))] else rest))])
  }

  /** `extract_params`: the fixed parameters and the rest parameter, if the list is well formed. */
  function Params(p: Datum): Result<(seq<Symbol>, Option<Symbol>), SyntaxError> {
    match p
    case Nil => Ok(([], None))
    case Sym(r) => Ok(([], Some(r)))
    case Pair(Sym(v), more) =>
      var (fixed, rest) :- Params(more);
      Ok(([v] + fixed, rest))
    case _ => Err(BadForm(Lambda))
  }
}
