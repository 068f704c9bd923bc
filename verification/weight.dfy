/** One weight on expressions that every expander decreases, although most of them build larger trees. */
module Weights {
  import opened Wrappers
  import opened Datums
  import opened Symbols
  import opened Expand

  /** The weight of an expression. */
  function W(x: Datum): (w: nat)
    ensures w >= 1
    decreases Size(x), 2
  {
    match x
    case Pair(h, t) =>
      if h.Sym? && h.name.Known? then WKnown(h.name.k, t) else 1 + W(h) + WList(t, 1)
    case _ => 1
  }

  /** The weight of a form by its keyword: a derived form outweighs its expansion. */
  function WKnown(k: Keyword, rest: Datum): (w: nat)
    ensures w >= 2
    decreases Size(rest) + 1, 1
  {
    match k
    case Quote | TestStart | TestEnd | TracePrint | MacroPrint | CompilePrint => 2
    case Quasiquote => WQuasiForm(rest)
    case Let => WLetOperands(rest)
    case LetStar => WBindingForm(rest, 10, 30)
    case Letrec => WBindingForm(rest, 14, 20)
    case And => 10 + WList(rest, 10)
    case Or => 10 + WList(rest, 40)
    case Cond => 2 + WClauses(rest, 40)
    case Case => WCaseOperands(rest)
    case Do => WDoOperands(rest)
    case Define => 60 + WTail(rest)
    case Lambda => 3 + WTail(rest)
    case _ => 2 + WList(rest, 1)
  }

  function WQuasiForm(rest: Datum): (w: nat)
    ensures w >= 2
    decreases Size(rest) + 1, 0
  {
    if rest.Pair? then 3 + WQuasi(rest.car) else 2
  }

  function WLetOperands(rest: Datum): (w: nat)
    ensures w >= 2
    decreases Size(rest) + 1, 0
  {
    if rest.Pair? && rest.car.Sym? then WNamedLet(rest.car, rest.cdr) else WBindingForm(rest, 6, 2)
  }

  /** Bindings, each with an allowance c, and a body. */
  function WBindingForm(rest: Datum, base: nat, c: nat): (w: nat)
    ensures w >= 2
    decreases Size(rest), 0
  {
    if rest.Pair? then base + WBindings(rest.car, c) + WList(rest.cdr, 1) else 2
  }

  function WCaseOperands(rest: Datum): (w: nat)
    ensures w >= 2
    decreases Size(rest), 0
  {
    if rest.Pair? then 60 + W(rest.car) + WClauses(rest.cdr, 60) else 2
  }

  function WDoOperands(rest: Datum): (w: nat)
    ensures w >= 2
    decreases Size(rest), 0
  {
    if rest.Pair? then 100 + WSpecs(rest.car) + WDoTail(rest.cdr) else 2
  }

  /** The body after a first operand that is not an expression. */
  function WTail(rest: Datum): (w: nat)
    ensures w >= 1
    decreases Size(rest), 0
  {
    if rest.Pair? then WList(rest.cdr, 1) else 1
  }

  /** The weight of a named let: its call is weighed as the form it becomes, whatever the name. */
  function WNamedLet(name: Datum, rest: Datum): (w: nat)
    requires name.Sym?
    ensures w >= 2
    decreases Size(rest) + 1, 0
  {
    if !rest.Pair? then 2
    else
      InitListSize(rest.car);
      assert Size(name) == 1;
      assert Size(Pair(name, InitList(rest.car))) == 2 + Size(InitList(rest.car));
      60 + W(Pair(name, InitList(rest.car))) + WList(rest.cdr, 1)
  }

  /** The weight of the list of expressions x, each with an allowance c. */
  function WList(x: Datum, c: nat): (w: nat)
    ensures w >= 1
    decreases Size(x), 0
  {
    match x
    case Pair(a, d) => c + W(a) + WList(d, c)
    case _ => 1
  }

  /** The weight of the first expression of a list, if there is one. */
  function WFirst(x: Datum): nat
    decreases Size(x), 0
  {
    if x.Pair? then W(x.car) else 0
  }

  /** The weight of the expression a binding gives its variable. */
  function WInit(b: Datum): nat
    decreases Size(b), 0
  {
    if b.Pair? then WFirst(b.cdr) else 0
  }

  /** The weight of the initialisers of a binding list, each with an allowance c. */
  function WBindings(bs: Datum, c: nat): (w: nat)
    ensures w >= 1
    decreases Size(bs), 0
  {
    match bs
    case Pair(b, d) => c + WInit(b) + WBindings(d, c)
    case _ => 1
  }

  function WClause(x: Datum): nat
    decreases Size(x), 0
  {
    if x.Pair? then W(x.car) + WList(x.cdr, 1) else 0
  }

  /** The weight of the clauses x of a cond or case, each with an allowance c. */
  function WClauses(x: Datum, c: nat): (w: nat)
    ensures w >= 1
    decreases Size(x), 0
  {
    match x
    case Pair(cl, d) => c + WClause(cl) + WClauses(d, c)
    case _ => 1
  }

  /** The weight of an initialiser and the step that may follow it. */
  function WInitStep(x: Datum): nat
    decreases Size(x), 0
  {
    if x.Pair? then 4 + W(x.car) + WFirst(x.cdr) else 0
  }

  function WSpec(x: Datum): nat
    decreases Size(x), 0
  {
    if x.Pair? then WInitStep(x.cdr) else 0
  }

  function WSpecs(x: Datum): (w: nat)
    ensures w >= 1
    decreases Size(x), 0
  {
    match x
    case Pair(spec, d) => WSpec(spec) + WSpecs(d)
    case _ => 1
  }

  /** The weight of a do form's test clause and body. */
  function WDoTail(x: Datum): nat
    decreases Size(x), 0
  {
    if x.Pair? then WClause(x.car) + WList(x.cdr, 1) else 0
  }

  /** The weight of the expression `Quasi` builds. */
  function WQuasi(x: Datum): (w: nat)
    ensures w >= 1
    decreases Size(x), 0
  {
    match x
    case Pair(a, d) =>
      if IsSymbol(a, Unquote) then 1 + WFirst(d)
      else if IsForm(a, Unquote) || IsForm(a, Splice) then
        assert Size(a) == 1 + Size(a.car) + Size(a.cdr);
        6 + WFirst(a.cdr) + WQuasi(d)
      else if a.Pair? then 6 + WQuasi(a) + WQuasi(d)
      else 8 + WQuasi(d)
    case Vec(es) =>
      SizeListOf(es);
      5 + WQuasi(ListOf(es))
    case _ => 2
  }

  /** The initialisers of a binding list, as a list. */
  function InitList(bs: Datum): Datum {
    match bs
    case Pair(b, d) => if b.Pair? && b.cdr.Pair? then Pair(b.cdr.car, InitList(d)) else InitList(d)
    case _ => Nil
  }

  lemma {:induction false} InitListSize(bs: Datum)
    ensures Size(InitList(bs)) <= Size(bs)
  {
    match bs
    case Pair(b, d) =>
      InitListSize(d);
      if b.Pair? && b.cdr.Pair? {
        assert Size(b) == 1 + Size(b.car) + Size(b.cdr);
      }
    case _ =>
  }

  lemma WHead(k: Keyword, rest: Datum)
    ensures W(Pair(Sym(Known(k)), rest)) == WKnown(k, rest)
  {
  }

  /** The weight of a sequence of expressions. */
  function WSeq(xs: seq<Datum>, c: nat): nat {
    if xs == [] then 0 else c + W(xs[0]) + WSeq(xs[1..], c)
  }

  lemma {:induction false} WListOf(xs: seq<Datum>, c: nat)
    ensures WList(ListOf(xs), c) == 1 + WSeq(xs, c)
  {
    if xs != [] {
      WListOf(xs[1..], c);
    }
  }

  lemma {:induction false} WSeqConcat(xs: seq<Datum>, ys: seq<Datum>, c: nat)
    ensures WSeq(xs + ys, c) == WSeq(xs, c) + WSeq(ys, c)
  {
    if xs == [] {
      assert xs + ys == ys;
    } else {
      WSeqConcat(xs[1..], ys, c);
      assert (xs + ys)[1..] == xs[1..] + ys;
    }
  }

  lemma {:induction false} WSeqAllowance(xs: seq<Datum>, b: nat, c: nat)
    ensures WSeq(xs, b + c) == WSeq(xs, b) + c * |xs|
  {
    if xs != [] {
      WSeqAllowance(xs[1..], b, c);
    }
  }

  lemma {:induction false} WSeqElement(xs: seq<Datum>, i: nat)
    requires i < |xs|
    ensures W(xs[i]) < WSeq(xs, 1)
  {
    if i > 0 {
      WSeqElement(xs[1..], i - 1);
    }
  }

  lemma WSeqOne(x: Datum, c: nat)
    ensures WSeq([x], c) == c + W(x)
  {
  }

  /** The list x, read as the sequence xs. */
  lemma WOfList(x: Datum, xs: seq<Datum>, c: nat)
    requires ToSeq(x) == Some(xs)
    ensures WList(x, c) == 1 + WSeq(xs, c)
  {
    WListOf(xs, c);
  }

  lemma WBegin(xs: seq<Datum>)
    ensures W(BeginForm(xs)) <= 3 + WSeq(xs, 1)
  {
    WHead(Begin, ListOf(xs));
    WListOf(xs, 1);
  }

  lemma WIf(test: Datum, thn: Datum, els: Datum)
    ensures W(IfForm(test, thn, els)) == 6 + W(test) + W(thn) + W(els)
  {
    var xs := [Sym(Known(If)), test, thn, els];
    assert xs[1..] == [test, thn, els];
    assert ListOf(xs) == Pair(Sym(Known(If)), ListOf([test, thn, els]));
    WHead(If, ListOf([test, thn, els]));
    WListOf([test, thn, els], 1);
    WSeqThree(test, thn, els);
  }

  lemma WSeqThree(a: Datum, b: Datum, d: Datum)
    ensures WSeq([a], 1) == 1 + W(a)
    ensures WSeq([a, b], 1) == 2 + W(a) + W(b)
    ensures WSeq([a, b, d], 1) == 3 + W(a) + W(b) + W(d)
  {
    assert [a, b, d][1..] == [b, d] && [b, d][1..] == [d] && [a, b][1..] == [b];
    assert WSeq([d], 1) == 1 + W(d) && WSeq([b], 1) == 1 + W(b);
    assert WSeq([b, d], 1) == 2 + W(b) + W(d);
  }

  lemma WOne(a: Datum)
    ensures WList(ListOf([a]), 1) == 2 + W(a)
  {
    WListOf([a], 1);
    WSeqThree(a, a, a);
  }

  lemma {:induction false} WOfBindings(form: Keyword, x: Datum, bs: seq<Binding>, c: nat)
    requires Bindings(form, x) == Ok(bs)
    ensures WBindings(x, c) == 1 + WSeq(Inits(bs), c)
    ensures InitList(x) == ListOf(Inits(bs))
  {
    match x
    case Nil =>
    case Pair(Pair(Sym(v), Pair(e, Nil)), more) =>
      var rest := Bindings(form, more).value;
      WOfInit(x.car.car, e);
      assert bs == [Binding(v, e)] + rest;
      WOfBindings(form, more, rest, c);
      assert Inits(bs)[1..] == Inits(rest);
    case _ =>
  }

  lemma WOfInit(v: Datum, e: Datum)
    ensures WInit(Pair(v, Pair(e, Nil))) == W(e)
  {
    assert WFirst(Pair(e, Nil)) == W(e);
  }

  lemma BindingDatum(b: Binding)
    ensures b.ToDatum() == Pair(Sym(b.name), Pair(b.init, Nil))
  {
    var xs := [Sym(b.name), b.init];
    assert xs[1..] == [b.init] && xs[1..][1..] == [];
    assert ListOf([b.init]) == Pair(b.init, ListOf([b.init][1..]));
  }

  lemma {:induction false} WBindingList(bs: seq<Binding>, c: nat)
    ensures WBindings(ListOf(BindingList(bs)), c) == 1 + WSeq(Inits(bs), c)
    ensures InitList(ListOf(BindingList(bs))) == ListOf(Inits(bs))
  {
    if bs != [] {
      WBindingList(bs[1..], c);
      assert BindingList(bs)[1..] == BindingList(bs[1..]);
      assert Inits(bs)[1..] == Inits(bs[1..]);
      BindingDatum(bs[0]);
      WOfInit(Sym(bs[0].name), bs[0].init);
    }
  }

  /** A let with a binding list, as the expanders write it. */
  lemma WLet(bs: seq<Binding>, body: Datum)
    ensures W(LetForm(Let, bs, body)) == 7 + WSeq(Inits(bs), 2) + WList(body, 1)
  {
    var list := ListOf(BindingList(bs));
    WBindingList(bs, 2);
    WHead(Let, Pair(list, body));
    assert WLetOperands(Pair(list, body)) == WBindingForm(Pair(list, body), 6, 2);
    assert WBindingForm(Pair(list, body), 6, 2) == 6 + WBindings(list, 2) + WList(body, 1);
  }

  lemma WLetStar(bs: seq<Binding>, body: Datum)
    ensures W(LetForm(LetStar, bs, body)) == 11 + WSeq(Inits(bs), 30) + WList(body, 1)
  {
    var list := ListOf(BindingList(bs));
    WBindingList(bs, 30);
    WHead(LetStar, Pair(list, body));
    assert WBindingForm(Pair(list, body), 10, 30) == 10 + WBindings(list, 30) + WList(body, 1);
  }

  lemma WLetrec(bs: seq<Binding>, body: Datum)
    ensures W(LetForm(Letrec, bs, body)) == 15 + WSeq(Inits(bs), 20) + WList(body, 1)
  {
    var list := ListOf(BindingList(bs));
    WBindingList(bs, 20);
    WHead(Letrec, Pair(list, body));
    assert WBindingForm(Pair(list, body), 14, 20) == 14 + WBindings(list, 20) + WList(body, 1);
  }

  lemma WLambda(params: Datum, body: Datum)
    ensures W(LambdaForm(params, body)) == 3 + WList(body, 1)
  {
    WHead(Lambda, Pair(params, body));
    assert WTail(Pair(params, body)) == WList(body, 1);
  }

  lemma WOneBinding(b: Binding)
    ensures Inits([b]) == [b.init]
  {
  }

  // ---- One lemma an expander ----

  lemma WCombination(f: Datum, args: Datum)
    requires !f.Sym?
    ensures W(Pair(f, args)) == 1 + W(f) + WList(args, 1)
  {
  }

  lemma PlainLetWeight(x: Datum, bs: seq<Binding>, body: Datum)
    requires Bindings(Let, x) == Ok(bs)
    ensures W(Pair(LambdaForm(ListOf(Names(bs)), body), ListOf(Inits(bs)))) < 6 + WBindings(x, 2) + WList(body, 1)
  {
    WOfBindings(Let, x, bs, 2);
    var lambda := LambdaForm(ListOf(Names(bs)), body);
    WLambda(ListOf(Names(bs)), body);
    WListOf(Inits(bs), 1);
    WSeqAllowance(Inits(bs), 1, 1);
    WCombination(lambda, ListOf(Inits(bs)));
  }

  lemma NamedLetWeight(name: Symbol, x: Datum, bs: seq<Binding>, body: Datum)
    requires Bindings(Let, x) == Ok(bs)
    ensures W(LetForm(Letrec, [Binding(name, LambdaForm(ListOf(Names(bs)), body))],
                      ListOf([Pair(Sym(name), ListOf(Inits(bs)))])))
            < WNamedLet(Sym(name), Pair(x, body))
  {
    WOfBindings(Let, x, bs, 1);
    var lambda := LambdaForm(ListOf(Names(bs)), body);
    WLambda(ListOf(Names(bs)), body);
    var call := Pair(Sym(name), ListOf(Inits(bs)));
    WLetrec([Binding(name, lambda)], ListOf([call]));
    WOneBinding(Binding(name, lambda));
    WSeqOne(lambda, 20);
    WOne(call);
  }

  lemma LetDecreases(rest: Datum)
    requires ExpandLet(rest).Ok?
    ensures W(ExpandLet(rest).value) < WLetOperands(rest)
  {
    if rest.car.Sym? {
      var bs := Bindings(Let, rest.cdr.car).value;
      NamedLetWeight(rest.car.name, rest.cdr.car, bs, rest.cdr.cdr);
      assert rest.cdr == Pair(rest.cdr.car, rest.cdr.cdr);
    } else {
      var bs := Bindings(Let, rest.car).value;
      PlainLetWeight(rest.car, bs, rest.cdr);
      assert WBindingForm(rest, 6, 2) == 6 + WBindings(rest.car, 2) + WList(rest.cdr, 1);
    }
  }

  lemma LetStarDecreases(rest: Datum)
    requires ExpandLetStar(rest).Ok?
    ensures W(ExpandLetStar(rest).value) < WBindingForm(rest, 10, 30)
  {
    var xs := ToSeq(rest).value;
    var bs := Bindings(LetStar, rest.car).value;
    WOfBindings(LetStar, rest.car, bs, 30);
    WOfList(rest.cdr, xs[1..], 1);
    var body := BeginForm(xs[1..]);
    WBegin(xs[1..]);
    assert WBindingForm(rest, 10, 30) == 10 + WBindings(rest.car, 30) + WList(rest.cdr, 1);
    if |bs| == 1 {
      WOne(body);
      WLet(bs, ListOf([body]));
      WSeqAllowance(Inits(bs), 2, 28);
    } else if |bs| > 1 {
      LetStarStep(bs, body);
    }
  }

  lemma LetStarStep(bs: seq<Binding>, body: Datum)
    requires |bs| > 1
    ensures W(LetForm(Let, [bs[0]], ListOf([LetForm(LetStar, bs[1..], ListOf([body]))])))
            <= 4 + WSeq(Inits(bs), 30) + W(body)
  {
    var nested := LetForm(LetStar, bs[1..], ListOf([body]));
    WOne(body);
    WLetStar(bs[1..], ListOf([body]));
    WOne(nested);
    WLet([bs[0]], ListOf([nested]));
    WOneBinding(bs[0]);
    WSeqOne(bs[0].init, 2);
    assert Inits(bs)[1..] == Inits(bs[1..]);
  }

  lemma {:induction false} WAssignments(bs: seq<Binding>)
    ensures WSeq(Assignments(bs), 1) == WSeq(Inits(bs), 7)
    ensures WSeq(Inits(Undefined(bs)), 2) == 3 * |bs|
  {
    if bs != [] {
      WAssignments(bs[1..]);
      assert Assignments(bs)[1..] == Assignments(bs[1..]);
      assert Inits(bs)[1..] == Inits(bs[1..]);
      assert Inits(Undefined(bs))[1..] == Inits(Undefined(bs[1..]));
        var v, e := Sym(bs[0].name), bs[0].init;
      assert [Sym(Known(Set)), v, e][1..] == [v, e];
      assert ListOf([Sym(Known(Set)), v, e]) == Pair(Sym(Known(Set)), ListOf([v, e]));
      WHead(Set, ListOf([v, e]));
      WListOf([v, e], 1);
      WSeqThree(v, e, e);
    }
  }

  lemma LetrecStep(bs: seq<Binding>, body: seq<Datum>)
    ensures W(LetForm(Let, Undefined(bs), ListOf([BeginForm(Assignments(bs) + body)])))
            <= 12 + WSeq(Inits(bs), 20) + WSeq(body, 1)
  {
    LetrecBeginWeight(bs, body);
    var begin := BeginForm(Assignments(bs) + body);
    WOne(begin);
    WLet(Undefined(bs), ListOf([begin]));
    WAssignments(bs);
    WSeqAllowance(Inits(bs), 7, 13);
  }

  lemma LetrecBeginWeight(bs: seq<Binding>, body: seq<Datum>)
    ensures W(BeginForm(Assignments(bs) + body)) <= 3 + WSeq(Inits(bs), 7) + WSeq(body, 1)
  {
    WBegin(Assignments(bs) + body);
    WSeqConcat(Assignments(bs), body, 1);
    WAssignments(bs);
  }

  lemma LetrecDecreases(rest: Datum)
    requires ExpandLetrec(rest).Ok?
    ensures W(ExpandLetrec(rest).value) < WBindingForm(rest, 14, 20)
  {
    var xs := ToSeq(rest).value;
    var bs := Bindings(Letrec, rest.car).value;
    WOfBindings(Letrec, rest.car, bs, 20);
    WOfList(rest.cdr, xs[1..], 1);
    LetrecStep(bs, xs[1..]);
    assert WBindingForm(rest, 14, 20) == 14 + WBindings(rest.car, 20) + WList(rest.cdr, 1);
  }

  lemma {:induction false} AndDecreases(xs: seq<Datum>)
    ensures W(ExpandAnd(xs)) < 11 + WSeq(xs, 10)
  {
    if |xs| > 1 {
      AndDecreases(xs[1..]);
      WIf(xs[0], ExpandAnd(xs[1..]), Bool(false));
    }
  }

  lemma {:induction false} OrDecreases(xs: seq<Datum>, g: nat)
    ensures W(ExpandOr(xs, g).0) < 11 + WSeq(xs, 40)
  {
    if |xs| > 1 {
      OrDecreases(xs[1..], g + 1);
      var t := Gensym("or", g + 1);
      WTestLet(t, xs[0], ExpandOr(xs[1..], g + 1).0);
    }
  }

  lemma WTestLet(t: Symbol, test: Datum, els: Datum)
    ensures W(LetForm(Let, [Binding(t, test)], ListOf([IfForm(Sym(t), Sym(t), els)]))) == 19 + W(test) + W(els)
  {
    WIf(Sym(t), Sym(t), els);
    WOne(IfForm(Sym(t), Sym(t), els));
    WLet([Binding(t, test)], ListOf([IfForm(Sym(t), Sym(t), els)]));
    WOneBinding(Binding(t, test));
    WSeqOne(test, 2);
  }

  lemma {:induction false} CondDecreases(rest: Datum, g: nat)
    requires ExpandCond(rest, g).Ok?
    ensures W(ExpandCond(rest, g).value.0) < 2 + WClauses(rest, 40)
  {
    match rest
    case Nil =>
    case Pair(clause, more) =>
      var test, body := clause.car, clause.cdr;
      assert WClauses(rest, 40) == 40 + WClause(clause) + WClauses(more, 40);
      assert WClause(clause) == W(test) + WList(body, 1);
      if IsSymbol(test, Else) {
        var xs := ToSeq(body).value;
        WBegin(xs);
        WOfList(body, xs, 1);
      } else if body.Nil? {
        CondDecreases(more, g + 1);
        var t := Gensym("cond", g + 1);
        WTestLet(t, test, ExpandCond(more, g + 1).value.0);
      } else {
        var xs := ToSeq(body).value;
        WBegin(xs);
        WOfList(body, xs, 1);
        CondDecreases(more, g);
        WIf(test, BeginForm(xs), ExpandCond(more, g).value.0);
      }
    case _ =>
  }

  lemma {:induction false} WCaseClauses(t: Symbol, clauses: Datum)
    requires CaseClauses(t, clauses).Ok?
    ensures WClauses(ListOf(CaseClauses(t, clauses).value), 40) <= WClauses(clauses, 60)
  {
    match clauses
    case Nil =>
    case Pair(Pair(head, body), more) =>
      WCaseClauses(t, more);
      var xs := ToSeq(body).value;
      WOfList(body, xs, 1);
      WListOf(xs, 1);
      var all, rest := CaseClauses(t, clauses).value, CaseClauses(t, more).value;
      if IsSymbol(head, Else) {
        assert all == [Pair(Sym(Known(Else)), ListOf(xs))] + rest;
      } else {
        var key := ListOf([Sym(Known(Quote)), head]);
        var test := ListOf([Sym(Known(Memv)), Sym(t), key]);
        WMemv(t, head);
        assert all == [Pair(test, ListOf(xs))] + rest;
      }
      assert all[1..] == rest;
    case _ =>
  }

  lemma WMemv(t: Symbol, head: Datum)
    ensures W(ListOf([Sym(Known(Memv)), Sym(t), ListOf([Sym(Known(Quote)), head])])) == 8
  {
    var key := ListOf([Sym(Known(Quote)), head]);
    assert key == Pair(Sym(Known(Quote)), ListOf([head])) by {
      assert [Sym(Known(Quote)), head][1..] == [head];
    }
    assert [Sym(Known(Memv)), Sym(t), key][1..] == [Sym(t), key];
    WHead(Memv, ListOf([Sym(t), key]));
    WQuote(head);
    WListOf([Sym(t), key], 1);
    WSeqThree(Sym(t), key, key);
  }

  lemma CaseStep(t: Symbol, key: Datum, clauses: seq<Datum>)
    ensures W(LetForm(Let, [Binding(t, key)], ListOf([Pair(Sym(Known(Cond)), ListOf(clauses))])))
            == 13 + W(key) + WClauses(ListOf(clauses), 40)
  {
    var cond := Pair(Sym(Known(Cond)), ListOf(clauses));
    WHead(Cond, ListOf(clauses));
    assert WKnown(Cond, ListOf(clauses)) == 2 + WClauses(ListOf(clauses), 40);
    WOne(cond);
    WLet([Binding(t, key)], ListOf([cond]));
    WOneBinding(Binding(t, key));
    WSeqOne(key, 2);
  }

  lemma CaseDecreases(rest: Datum, g: nat)
    requires ExpandCase(rest, g).Ok?
    ensures W(ExpandCase(rest, g).value.0) < WCaseOperands(rest)
  {
    var t := Gensym("case", g + 1);
    var clauses := CaseClauses(t, rest.cdr).value;
    WCaseClauses(t, rest.cdr);
    CaseStep(t, rest.car, clauses);
  }

  lemma WOfSpec(x: Datum)
    requires DoSpecs([x]).Ok?
    ensures 4 + W(DoSpecs([x]).value[0].init) + W(DoSpecs([x]).value[0].step) <= 1 + WSpec(x)
  {
    assert WSpec(x) == WInitStep(x.cdr);
    assert WInitStep(x.cdr) == 4 + W(x.cdr.car) + WFirst(x.cdr.cdr);
  }

  lemma {:induction false} WOfSpecs(x: Datum, xs: seq<Datum>)
    requires ToSeq(x) == Some(xs) && DoSpecs(xs).Ok?
    ensures WSeq(SpecInits(DoSpecs(xs).value), 1) + WSeq(SpecSteps(DoSpecs(xs).value), 1) < WSpecs(x)
  {
    if xs != [] {
      assert xs[1..] == ToSeq(x.cdr).value;
      WOfSpecs(x.cdr, xs[1..]);
      WOfSpec(x.car);
      var specs, rest := DoSpecs(xs).value, DoSpecs(xs[1..]).value;
      assert specs[1..] == rest;
      assert SpecInits(specs)[1..] == SpecInits(rest);
      assert SpecSteps(specs)[1..] == SpecSteps(rest);
    }
  }

  lemma DoBodyWeight(test: Datum, result: seq<Datum>, body: seq<Datum>, again: Datum)
    ensures W(IfForm(test, BeginForm(result), BeginForm(body + [again])))
            <= 13 + W(test) + WSeq(result, 1) + WSeq(body, 1) + W(again)
  {
    WSeqConcat(body, [again], 1);
    WSeqOne(again, 1);
    WBegin(body + [again]);
    WBegin(result);
    WIf(test, BeginForm(result), BeginForm(body + [again]));
  }

  lemma DoLoopWeight(loop: Symbol, params: Datum, body: Datum, inits: seq<Datum>)
    requires loop.Name?
    ensures W(LetForm(Letrec, [Binding(loop, LambdaForm(params, ListOf([body])))],
                      ListOf([Pair(Sym(loop), ListOf(inits))])))
            == 45 + W(body) + WSeq(inits, 1)
  {
    WOne(body);
    var lambda := LambdaForm(params, ListOf([body]));
    WLambda(params, ListOf([body]));
    var call := Pair(Sym(loop), ListOf(inits));
    WListOf(inits, 1);
    assert W(call) == 2 + WList(ListOf(inits), 1);
    WOne(call);
    WLetrec([Binding(loop, lambda)], ListOf([call]));
    WOneBinding(Binding(loop, lambda));
    WSeqOne(lambda, 20);
  }

  lemma DoStep(loop: Symbol, specs: seq<DoSpec>, test: Datum, result: seq<Datum>, body: seq<Datum>)
    requires loop.Name?
    ensures W(DoLoop(loop, specs, test, result, body))
            <= 61 + WSeq(SpecInits(specs), 1) + WSeq(SpecSteps(specs), 1) + W(test) + WSeq(result, 1) + WSeq(body, 1)
  {
    var again := Pair(Sym(loop), ListOf(SpecSteps(specs)));
    WListOf(SpecSteps(specs), 1);
    assert W(again) == 2 + WList(ListOf(SpecSteps(specs)), 1);
    DoBodyWeight(test, result, body, again);
    var step := IfForm(test, BeginForm(result), BeginForm(body + [again]));
    DoLoopWeight(loop, ListOf(SpecNames(specs)), step, SpecInits(specs));
  }

  lemma WClauseOf(test: Datum, body: Datum)
    ensures WClause(Pair(test, body)) == W(test) + WList(body, 1)
  {
  }

  lemma WDoTailOf(clause: Datum, body: Datum)
    ensures WDoTail(Pair(clause, body)) == WClause(clause) + WList(body, 1)
  {
  }

  lemma WDo(specs: Datum, test: Datum, result: Datum, body: Datum)
    ensures WDoOperands(Pair(specs, Pair(Pair(test, result), body)))
            == 100 + WSpecs(specs) + W(test) + WList(result, 1) + WList(body, 1)
  {
    WClauseOf(test, result);
    WDoTailOf(Pair(test, result), body);
  }

  lemma DoOperands(rest: Datum, xs: seq<Datum>)
    requires ToSeq(rest) == Some(xs) && |xs| >= 2
    ensures rest == Pair(xs[0], Pair(xs[1], rest.cdr.cdr)) && ToSeq(rest.cdr.cdr) == Some(xs[2..])
  {
    assert xs[1..] == ToSeq(rest.cdr).value;
    assert xs[2..] == xs[1..][1..];
  }

  lemma DoDecreases(rest: Datum, g: nat)
    requires ExpandDo(rest, g).Ok?
    ensures W(ExpandDo(rest, g).value.0) < WDoOperands(rest)
  {
    var xs := ToSeq(rest).value;
    DoOperands(rest, xs);
    var specs := DoSpecs(ToSeq(xs[0]).value).value;
    WOfSpecs(xs[0], ToSeq(xs[0]).value);
    var result := ToSeq(xs[1].cdr).value;
    WOfList(xs[1].cdr, result, 1);
    WOfList(rest.cdr.cdr, xs[2..], 1);
    DoStep(Gensym("loop", g + 1), specs, xs[1].car, result, xs[2..]);
    WDo(xs[0], xs[1].car, xs[1].cdr, rest.cdr.cdr);
  }

  lemma {:induction false} QuasiWeight(x: Datum)
    requires Quasi(x).Ok?
    ensures W(Quasi(x).value) <= WQuasi(x)
    decreases Size(x)
  {
    match x
    case Pair(a, d) =>
      if IsSymbol(a, Unquote) {
      } else if IsForm(a, Unquote) || IsForm(a, Splice) {
        QuasiWeight(d);
        WCall2(if IsForm(a, Unquote) then Cons else Append, a.cdr.car, Quasi(d).value);
      } else if a.Pair? {
        QuasiWeight(a);
        QuasiWeight(d);
        WCall2(Cons, Quasi(a).value, Quasi(d).value);
      } else {
        QuasiWeight(d);
        WQuote(a);
        WCall2(Cons, ListOf([Sym(Known(Quote)), a]), Quasi(d).value);
      }
    case Vec(es) =>
      SizeListOf(es);
      QuasiWeight(ListOf(es));
      var list := Quasi(ListOf(es)).value;
      WVectorCall(list);
    case _ => WQuote(x);
  }

  lemma WVectorCall(list: Datum)
    ensures W(ListOf([Sym(Known(ListToVector)), list])) == 4 + W(list)
  {
    assert [Sym(Known(ListToVector)), list][1..] == [list];
    assert ListOf([Sym(Known(ListToVector)), list]) == Pair(Sym(Known(ListToVector)), ListOf([list]));
    WHead(ListToVector, ListOf([list]));
    WOne(list);
  }

  lemma WQuote(x: Datum)
    ensures W(ListOf([Sym(Known(Quote)), x])) == 2
  {
    assert [Sym(Known(Quote)), x][1..] == [x];
    WHead(Quote, ListOf([x]));
  }

  lemma WCall2(f: Keyword, a: Datum, b: Datum)
    requires f == Cons || f == Append
    ensures W(ListOf([Sym(Known(f)), a, b])) == 5 + W(a) + W(b)
  {
    assert [Sym(Known(f)), a, b][1..] == [a, b];
    assert ListOf([Sym(Known(f)), a, b]) == Pair(Sym(Known(f)), ListOf([a, b]));
    WHead(f, ListOf([a, b]));
    WListOf([a, b], 1);
    WSeqThree(a, b, b);
  }

  lemma {:induction false} LeadingDefinesWeight(forms: seq<Datum>)
    requires LeadingDefines(forms).Ok?
    ensures var (bs, rest) := LeadingDefines(forms).value;
            WSeq(Inits(bs), 50) + WSeq(rest, 1) <= WSeq(forms, 1)
  {
    if forms != [] && IsForm(forms[0], Define) {
      LeadingDefinesWeight(forms[1..]);
      var (bs, rest) := LeadingDefines(forms).value;
      var (bs', rest') := LeadingDefines(forms[1..]).value;
      var b := InternalDefine(forms[0]).value;
      assert bs == [b] + bs' && rest == rest';
      assert Inits(bs)[1..] == Inits(bs');
      DefineWeight(forms[0]);
    } else {
      assert WSeq(Inits([]), 50) == 0;
    }
  }

  lemma DefineWeight(x: Datum)
    requires IsForm(x, Define) && InternalDefine(x).Ok?
    ensures 50 + W(InternalDefine(x).value.init) <= W(x)
  {
    WHead(Define, x.cdr);
    assert WKnown(Define, x.cdr) == 60 + WTail(x.cdr);
    var target, tail := x.cdr.car, x.cdr.cdr;
    assert WTail(x.cdr) == WList(tail, 1);
    if target.Pair? {
      WLambda(target.cdr, tail);
    } else {
      assert WList(tail, 1) == 1 + W(tail.car) + WList(tail.cdr, 1);
    }
  }

  /** The body of a lambda, after its leading defines have become a letrec. */
  lemma ScanOutDecreases(body: Datum)
    requires ScanOutDefines(body).Ok?
    ensures WSeq(ScanOutDefines(body).value, 1) <= WList(body, 1)
  {
    var forms := ToSeq(body).value;
    WOfList(body, forms, 1);
    var (bs, rest) := LeadingDefines(forms).value;
    if bs != [] {
      LeadingDefinesWeight(forms);
      var tail := if rest == [] then [Sym(Known(Undef))] else rest;
      ScanOutStep(bs, tail);
      WSeqOne(Sym(Known(Undef)), 1);
      WSeqOne(LetForm(Letrec, bs, ListOf(tail)), 1);
    }
  }

  lemma ScanOutStep(bs: seq<Binding>, tail: seq<Datum>)
    requires bs != []
    ensures W(LetForm(Letrec, bs, ListOf(tail))) + 10 <= WSeq(Inits(bs), 50) + WSeq(tail, 1)
  {
    WLetrec(bs, ListOf(tail));
    WListOf(tail, 1);
    WSeqAllowance(Inits(bs), 20, 30);
  }

  // ---- All the derived forms ----

  predicate IsDerived(k: Keyword) {
    k.Quasiquote? || k.Let? || k.LetStar? || k.Letrec? || k.And? || k.Or? || k.Cond? || k.Case? || k.Do?
  }

  /** The expression a derived form stands for, and the gensym counter after expanding it. */
  function ExpandForm(k: Keyword, rest: Datum, g: nat): Expansion
    requires IsDerived(k)
  {
    match k
    case Quasiquote =>
      var xs :- Operands(Quasiquote, rest, 1, 1);
      var y :- Quasi(xs[0]);
      Ok((y, g))
    case Let =>
      var y :- ExpandLet(rest);
      Ok((y, g))
    case LetStar =>
      var y :- ExpandLetStar(rest);
      Ok((y, g))
    case Letrec =>
      var y :- ExpandLetrec(rest);
      Ok((y, g))
    case And =>
      var xs :- ListResult(rest);
      Ok((ExpandAnd(xs), g))
    case Or =>
      var xs :- ListResult(rest);
      Ok(ExpandOr(xs, g))
    case Cond => ExpandCond(rest, g)
    case Case => ExpandCase(rest, g)
    case Do => ExpandDo(rest, g)
  }

  /** Every derived form outweighs its expansion, however much larger a tree that is. */
  lemma ExpansionDecreases(k: Keyword, rest: Datum, g: nat)
    requires IsDerived(k) && ExpandForm(k, rest, g).Ok?
    ensures W(ExpandForm(k, rest, g).value.0) < W(Pair(Sym(Known(k)), rest))
  {
    WHead(k, rest);
    match k
    case Quasiquote => QuasiWeight(rest.car);
    case Let => LetDecreases(rest);
    case LetStar => LetStarDecreases(rest);
    case Letrec => LetrecDecreases(rest);
    case And =>
      AndDecreases(ToSeq(rest).value);
      WOfList(rest, ToSeq(rest).value, 10);
    case Or =>
      OrDecreases(ToSeq(rest).value, g);
      WOfList(rest, ToSeq(rest).value, 40);
    case Cond => CondDecreases(rest, g);
    case Case => CaseDecreases(rest, g);
    case Do => DoDecreases(rest, g);
  }
}
