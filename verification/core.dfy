/** The core language that every form desugars to, and the desugarer. */
module CoreLanguage {
  import opened Wrappers
  import opened Datums
  import opened Symbols
  import opened Expand
  import opened Weights

  datatype Core =
    | Const(x: Datum)
    | Ref(name: Symbol)
    | Test(cond: Core, thn: Core, els: Core)
    | Then(first: Core, second: Core)
    | Fun(params: seq<Symbol>, rest: Option<Symbol>, body: Core)
    | Def(name: Symbol, rhs: Core)
    | Assign(name: Symbol, rhs: Core)
    | CaptureCall(receiver: Core)
    | Call(f: Core, args: seq<Core>)
    | Spread(f: Core, args: seq<Core>)

  /** A desugared expression, with the gensym counter after it. */
  type Desugared = Result<(Core, nat), SyntaxError>

  /** The core expression x stands for. Its parts are taken in the order in which `comp` meets them. */
  function Desugar(x: Datum, g: nat): Desugared
    decreases W(x), 2
  {
    match x
    case Sym(s) => Ok((Ref(s), g))
    case Eof => Err(NotCompilable)
    case Pair(head, rest) =>
      if head.Sym? && head.name.Known? then
        WHead(head.name.k, rest);
        if IsDerived(head.name.k) then
          var (y, g1) :- ExpandForm(head.name.k, rest, g);
          ExpansionDecreases(head.name.k, rest, g);
          Desugar(y, g1)
        else if IsSpecial(head.name.k) then DesugarForm(head.name.k, rest, g)
        else DesugarCall(head, rest, g)
      else DesugarCall(head, rest, g)
    case _ => Ok((Const(x), g))
  }

  /** The forms `comp` compiles itself; every other head that it does not expand is an ordinary operator. */
  predicate IsSpecial(k: Keyword) {
    || IsReport(k) || k.Quote? || k.If? || k.Begin? || k.Lambda? || k.Define? || k.DefineMacro? || k.Set?
    || k.CallCC? || k.CallWithCC? || k.Apply?
  }

  /** Reporting forms, which compile to the constant true. */
  predicate IsReport(k: Keyword) {
    k.TestStart? || k.TestEnd? || k.TracePrint? || k.MacroPrint? || k.CompilePrint?
  }

  function DesugarForm(k: Keyword, rest: Datum, g: nat): Desugared
    requires IsSpecial(k)
    decreases WKnown(k, rest), 1
  {
    if k == Quote then
      var xs :- Operands(Quote, rest, 1, 1);
      Ok((Const(xs[0]), g))
    else if IsReport(k) then Ok((Const(Bool(true)), g))
    else if k == If then DesugarTest(rest, g)
    else if k == Begin then
      var xs :- ListResult(rest);
      OperandWeights(rest, xs);
      DesugarBody(xs, g)
    else if k == Lambda then
      var xs :- Operands(Lambda, rest, 1, 0);
      assert WKnown(Lambda, rest) == 3 + WTail(rest);
      DesugarLambda(rest.car, rest.cdr, g)
    else if k == Define then
      var xs :- Operands(Define, rest, 1, 0);
      DefineOperandWeights(rest);
      DesugarDefine(xs[0], rest.cdr, g)
    else if k == DefineMacro then Err(MacroForm)
    else if k == Set then DesugarAssign(rest, g)
    else if k == Apply then
      var xs :- Operands(Apply, rest, 2, 0);
      OperandWeights(rest, xs);
      DesugarOperation(xs[0], xs[1..], true, g)
    else
      var xs :- Operands(k, rest, 1, 1);
      OperandWeights(rest, xs);
      var (t, g1) :- Desugar(xs[0], g);
      Ok((CaptureCall(t), g1))
  }

  function DesugarTest(rest: Datum, g: nat): Desugared
    decreases WKnown(If, rest), 0
  {
    var xs :- Operands(If, rest, 2, 3);
    OperandWeights(rest, xs);
    var (c, g1) :- Desugar(xs[0], g);
    var (t, g2) :- Desugar(xs[1], g1);
    var (e, g3) :- Desugar(if |xs| == 2 then Nil else xs[2], g2);
    Ok((Test(c, t, e), g3))
  }

  function DesugarAssign(rest: Datum, g: nat): Desugared
    decreases WKnown(Set, rest), 0
  {
    var xs :- Operands(Set, rest, 2, 2);
    OperandWeights(rest, xs);
    if !xs[0].Sym? then Err(BadForm(Set))
    else
      var (t, g1) :- Desugar(xs[1], g);
      Ok((Assign(xs[0].name, t), g1))
  }

  function DesugarDefine(target: Datum, tail: Datum, g: nat): Desugared
    decreases 2 + WList(tail, 1), 0
  {
    if target.Sym? then
      match tail
      case Pair(rhs, Nil) =>
        var (t, g1) :- Desugar(rhs, g);
        Ok((Def(target.name, t), g1))
      case _ => Err(BadForm(Define))
    else if target.Pair? && target.car.Sym? then
      var (t, g1) :- DesugarLambda(target.cdr, tail, g);
      Ok((Def(target.car.name, t), g1))
    else Err(BadForm(Define))
  }

  function DesugarLambda(params: Datum, body: Datum, g: nat): Desugared
    decreases WList(body, 1), 1
  {
    var (fixed, rest) :- Params(params);
    var forms :- ScanOutDefines(body);
    ScanOutDecreases(body);
    var (t, g1) :- DesugarBody(forms, g);
    Ok((Fun(fixed, rest, t), g1))
  }

  function DesugarCall(head: Datum, rest: Datum, g: nat): Desugared
    decreases 1 + W(head) + WList(rest, 1), 0
  {
    var xs :- ListResult(rest);
    WOfList(rest, xs, 1);
    DesugarOperation(head, xs, false, g)
  }

  /** A call, or with `spread` an apply: the arguments are met before the operator. */
  function DesugarOperation(head: Datum, xs: seq<Datum>, spread: bool, g: nat): Desugared
    decreases W(head) + WSeq(xs, 1), 3
  {
    var (ts, g1) :- DesugarArgs(xs, g);
    var (f, g2) :- Desugar(head, g1);
    Ok((if spread then Spread(f, ts) else Call(f, ts), g2))
  }

  /** A body: each form in turn, or the empty list if there is none. */
  function DesugarBody(forms: seq<Datum>, g: nat): Desugared
    decreases WSeq(forms, 1), 0
  {
    if forms == [] then Ok((Const(Nil), g))
    else
      var (first, g1) :- Desugar(forms[0], g);
      if |forms| == 1 then Ok((first, g1))
      else
        var (others, g2) :- DesugarBody(forms[1..], g1);
        Ok((Then(first, others), g2))
  }

  function DesugarArgs(xs: seq<Datum>, g: nat): (r: Result<(seq<Core>, nat), SyntaxError>)
    ensures r.Ok? ==> |r.value.0| == |xs|
    decreases WSeq(xs, 1), 0
  {
    if xs == [] then Ok(([], g))
    else
      var (t, g1) :- Desugar(xs[0], g);
      var (ts, g2) :- DesugarArgs(xs[1..], g1);
      Ok(([t] + ts, g2))
  }

  lemma OperandWeights(rest: Datum, xs: seq<Datum>)
    requires ToSeq(rest) == Some(xs)
    ensures WList(rest, 1) == 1 + WSeq(xs, 1)
    ensures forall i :: 0 <= i < |xs| ==> W(xs[i]) < WSeq(xs, 1)
  {
    WOfList(rest, xs, 1);
    forall i | 0 <= i < |xs| ensures W(xs[i]) < WSeq(xs, 1) {
      WSeqElement(xs, i);
    }
  }

  lemma DefineOperandWeights(rest: Datum)
    requires rest.Pair?
    ensures 2 + WList(rest.cdr, 1) < WKnown(Define, rest)
  {
    assert WKnown(Define, rest) == 60 + WTail(rest);
  }
}
