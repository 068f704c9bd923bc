/** What the desugarer makes of the expressions that the expanders build. */
module Shapes {
  import opened Wrappers
  import opened Datums
  import opened Symbols
  import opened Expand
  import opened Weights
  import C = CoreLanguage
  import opened CoreLanguage

  function NamesOf(bs: seq<Binding>): (names: seq<Symbol>)
    ensures |names| == |bs|
  {
    seq(|bs|, i requires 0 <= i < |bs| => bs[i].name)
  }

  // ---- The head of a form decides ----

  lemma DesugarDerived(k: Keyword, rest: Datum, g: nat)
    requires IsDerived(k)
    ensures Desugar(Pair(Sym(Known(k)), rest), g).Ok? ==>
              && ExpandForm(k, rest, g).Ok?
              && Desugar(Pair(Sym(Known(k)), rest), g) ==
                Desugar(ExpandForm(k, rest, g).value.0, ExpandForm(k, rest, g).value.1)
    ensures ExpandForm(k, rest, g).Ok? ==>
              Desugar(Pair(Sym(Known(k)), rest), g) ==
                Desugar(ExpandForm(k, rest, g).value.0, ExpandForm(k, rest, g).value.1)
  {
  }

  lemma DesugarSpecial(k: Keyword, rest: Datum, g: nat)
    requires IsSpecial(k) && !IsDerived(k)
    ensures Desugar(Pair(Sym(Known(k)), rest), g) == DesugarForm(k, rest, g)
  {
  }

  predicate IsOperator(head: Datum) {
    !(head.Sym? && head.name.Known? && (IsSpecial(head.name.k) || IsDerived(head.name.k)))
  }

  lemma DesugarCombination(head: Datum, xs: seq<Datum>, g: nat)
    requires IsOperator(head)
    ensures Desugar(Pair(head, ListOf(xs)), g) == DesugarOperation(head, xs, false, g)
  {
    ToSeqListOf(xs);
  }

  // ---- Parts ----

  lemma {:induction false} ParamsOfNames(bs: seq<Binding>)
    ensures Params(ListOf(Names(bs))) == Ok((NamesOf(bs), None))
  {
    if bs != [] {
      ParamsOfNames(bs[1..]);
      assert Names(bs)[1..] == Names(bs[1..]);
      assert ListOf(Names(bs)) == Pair(Sym(bs[0].name), ListOf(Names(bs[1..])));
      assert NamesOf(bs) == [bs[0].name] + NamesOf(bs[1..]);
    }
  }

  lemma {:induction false} BindingsOfList(form: Keyword, bs: seq<Binding>)
    ensures Bindings(form, ListOf(BindingList(bs))) == Ok(bs)
  {
    if bs != [] {
      BindingsOfList(form, bs[1..]);
      assert BindingList(bs)[1..] == BindingList(bs[1..]);
      BindingIs(bs[0]);
      assert bs == [bs[0]] + bs[1..];
    }
  }

  lemma BindingIs(b: Binding)
    ensures b.ToDatum() == Pair(Sym(b.name), Pair(b.init, Nil))
  {
    var xs := [Sym(b.name), b.init];
    assert xs[1..] == [b.init];
    ListOfOne(b.init);
  }

  lemma ListOfOne(x: Datum)
    ensures ListOf([x]) == Pair(x, Nil)
  {
    assert [x][1..] == [];
  }

  lemma DesugarBegin(xs: seq<Datum>, g: nat)
    ensures Desugar(BeginForm(xs), g) == DesugarBody(xs, g)
  {
    if |xs| == 1 {
      DesugarOne(xs[0], g);
      assert xs == [xs[0]];
    } else if |xs| >= 2 {
      DesugarSpecial(Begin, ListOf(xs), g);
      ToSeqListOf(xs);
      assert DesugarForm(Begin, ListOf(xs), g) == DesugarBody(xs, g);
    }
  }

  lemma DesugarOne(x: Datum, g: nat)
    ensures DesugarBody([x], g) == Desugar(x, g)
  {
    var xs := [x];
    assert xs[0] == x;
    if Desugar(x, g).Ok? {
      assert DesugarBody(xs, g) == Ok((Desugar(x, g).value.0, Desugar(x, g).value.1));
    }
  }

  lemma DesugarIf(a: Datum, b: Datum, c: Datum, g: nat)
    requires Desugar(IfForm(a, b, c), g).Ok?
    ensures Desugar(a, g).Ok?
    ensures var (ta, g1) := Desugar(a, g).value;
            && Desugar(b, g1).Ok?
            && var (tb, g2) := Desugar(b, g1).value;
            && Desugar(c, g2).Ok?
            && var (tc, g3) := Desugar(c, g2).value;
            Desugar(IfForm(a, b, c), g).value == (Test(ta, tb, tc), g3)
  {
    var xs := [a, b, c];
    assert [Sym(Known(If)), a, b, c][1..] == xs;
    DesugarSpecial(If, ListOf(xs), g);
    ToSeqListOf(xs);
  }

  lemma DesugarLambdaForm(params: Datum, body: Datum, g: nat)
    requires ToSeq(body).Some?
    ensures DesugarLambda(params, body, g) == Desugar(LambdaForm(params, body), g)
  {
    DesugarSpecial(Lambda, Pair(params, body), g);
  }

  /** A procedure applied where it is written: what a let becomes. */
  lemma DesugarApplied(bs: seq<Binding>, body: Datum, g: nat)
    requires Desugar(Pair(LambdaForm(ListOf(Names(bs)), body), ListOf(Inits(bs))), g).Ok?
    ensures DesugarArgs(Inits(bs), g).Ok? && ScanOutDefines(body).Ok?
    ensures var (ts, g1) := DesugarArgs(Inits(bs), g).value;
            && DesugarBody(ScanOutDefines(body).value, g1).Ok?
            && var (t, g2) := DesugarBody(ScanOutDefines(body).value, g1).value;
            Desugar(Pair(LambdaForm(ListOf(Names(bs)), body), ListOf(Inits(bs))), g).value ==
              (C.Call(Fun(NamesOf(bs), None, t), ts), g2)
  {
    var head := LambdaForm(ListOf(Names(bs)), body);
    DesugarCombination(head, Inits(bs), g);
    var (ts, g1) := DesugarArgs(Inits(bs), g).value;
    assert DesugarForm(Lambda, Pair(ListOf(Names(bs)), body), g1).Ok?;
    DesugarLambdaForm(ListOf(Names(bs)), body, g1);
    ParamsOfNames(bs);
  }

  lemma ExpandLetForm(bs: seq<Binding>, body: Datum)
    requires ToSeq(body).Some?
    ensures ExpandLet(Pair(ListOf(BindingList(bs)), body)) ==
              Ok(Pair(LambdaForm(ListOf(Names(bs)), body), ListOf(Inits(bs))))
  {
    BindingsOfList(Let, bs);
  }

  lemma DesugarLet(bs: seq<Binding>, body: seq<Datum>, g: nat)
    ensures Desugar(LetForm(Let, bs, ListOf(body)), g) ==
            Desugar(Pair(LambdaForm(ListOf(Names(bs)), ListOf(body)), ListOf(Inits(bs))), g)
  {
    ToSeqListOf(body);
    ExpandLetForm(bs, ListOf(body));
    DesugarDerived(Let, Pair(ListOf(BindingList(bs)), ListOf(body)), g);
  }

  /** A body of one form that is not a define. */
  lemma ScanOne(x: Datum)
    requires !IsForm(x, Define)
    ensures ScanOutDefines(ListOf([x])) == Ok([x])
  {
    ToSeqListOf([x]);
  }

  /** `(let ((y a)) (if y y els))`. */
  lemma DesugarTemp(y: Symbol, a: Datum, els: Datum, g: nat)
    requires var x := LetForm(Let, [Binding(y, a)], ListOf([IfForm(Sym(y), Sym(y), els)])); Desugar(x, g).Ok?
    ensures Desugar(a, g).Ok? && Desugar(els, Desugar(a, g).value.1).Ok?
    ensures var x := LetForm(Let, [Binding(y, a)], ListOf([IfForm(Sym(y), Sym(y), els)]));
            var (ta, g1) := Desugar(a, g).value;
            var (te, g2) := Desugar(els, g1).value;
            Desugar(x, g).value == (C.Call(Fun([y], None, Test(C.Ref(y), C.Ref(y), te)), [ta]), g2)
  {
    DesugarLetOne(y, a, IfForm(Sym(y), Sym(y), els), g);
    var g1 := Desugar(a, g).value.1;
    assert Desugar(Sym(y), g1) == Ok((C.Ref(y), g1));
    DesugarIf(Sym(y), Sym(y), els, g1);
  }

  lemma DesugarArgsOne(a: Datum, g: nat)
    requires DesugarArgs([a], g).Ok?
    ensures Desugar(a, g).Ok? && DesugarArgs([a], g).value == ([Desugar(a, g).value.0], Desugar(a, g).value.1)
  {
    var xs := [a];
    assert xs[0] == a && xs[1..] == [];
    assert [Desugar(a, g).value.0] + [] == [Desugar(a, g).value.0];
  }

  /** `(let ((y a)) z)`, z being no define. */
  lemma DesugarLetOne(y: Symbol, a: Datum, z: Datum, g: nat)
    requires !IsForm(z, Define) && Desugar(LetForm(Let, [Binding(y, a)], ListOf([z])), g).Ok?
    ensures Desugar(a, g).Ok? && Desugar(z, Desugar(a, g).value.1).Ok?
    ensures var (ta, g1) := Desugar(a, g).value;
            var (tz, g2) := Desugar(z, g1).value;
            Desugar(LetForm(Let, [Binding(y, a)], ListOf([z])), g).value == (C.Call(Fun([y], None, tz), [ta]), g2)
  {
    var bs := [Binding(y, a)];
    DesugarLet(bs, [z], g);
    DesugarApplied(bs, ListOf([z]), g);
    ScanOne(z);
    assert Inits(bs) == [a] && NamesOf(bs) == [y];
    DesugarArgsOne(a, g);
    DesugarOne(z, Desugar(a, g).value.1);
  }

  // ---- Letrec ----

  lemma {:induction false} DesugarUndefined(bs: seq<Binding>, g: nat)
    ensures DesugarArgs(Inits(Undefined(bs)), g) == Ok((seq(|bs|, _ => C.Ref(Known(Undef))), g))
  {
    var xs := Inits(Undefined(bs));
    if bs != [] {
      DesugarUndefined(bs[1..], g);
      assert xs[1..] == Inits(Undefined(bs[1..]));
      assert xs[0] == Sym(Known(Undef));
      assert Desugar(xs[0], g) == Ok((C.Ref(Known(Undef)), g));
      assert [C.Ref(Known(Undef))] + seq(|bs| - 1, _ => C.Ref(Known(Undef))) == seq(|bs|, _ => C.Ref(Known(Undef)));
    }
  }

  /** What a letrec's expansion becomes, its body still to be scanned. */
  lemma DesugarFill(bs: seq<Binding>, z: Datum, g: nat)
    requires Desugar(LetForm(Let, Undefined(bs), ListOf([z])), g).Ok?
    ensures ScanOutDefines(ListOf([z])).Ok? && DesugarBody(ScanOutDefines(ListOf([z])).value, g).Ok?
    ensures var (t, g1) := DesugarBody(ScanOutDefines(ListOf([z])).value, g).value;
            Desugar(LetForm(Let, Undefined(bs), ListOf([z])), g).value ==
              (C.Call(Fun(NamesOf(bs), None, t), seq(|bs|, _ => C.Ref(Known(Undef)))), g1)
  {
    var us := Undefined(bs);
    DesugarLet(us, [z], g);
    DesugarApplied(us, ListOf([z]), g);
    DesugarUndefined(bs, g);
    assert NamesOf(us) == NamesOf(bs);
  }

  /** A letrec with variables: assignments to them in turn, then the body. */
  lemma DesugarAssignments(bs: seq<Binding>, tail: seq<Datum>, g: nat)
    requires bs != []
    requires var z := BeginForm(Assignments(bs) + tail); Desugar(LetForm(Let, Undefined(bs), ListOf([z])), g).Ok?
    ensures DesugarBody(Assignments(bs) + tail, g).Ok?
    ensures var z := BeginForm(Assignments(bs) + tail);
            var (t, g1) := DesugarBody(Assignments(bs) + tail, g).value;
            Desugar(LetForm(Let, Undefined(bs), ListOf([z])), g).value ==
              (C.Call(Fun(NamesOf(bs), None, t), seq(|bs|, _ => C.Ref(Known(Undef)))), g1)
  {
    var xs := Assignments(bs) + tail;
    var z := BeginForm(xs);
    DesugarFill(bs, z, g);
    if |xs| == 1 {
      assert z == Assignments(bs)[0];
    }
    ScanOne(z);
    DesugarOne(z, g);
    DesugarBegin(xs, g);
  }

  lemma DesugarSet(x: Symbol, e: Datum, g: nat)
    requires Desugar(ListOf([Sym(Known(Set)), Sym(x), e]), g).Ok?
    ensures Desugar(e, g).Ok?
    ensures Desugar(ListOf([Sym(Known(Set)), Sym(x), e]), g).value ==
              (Assign(x, Desugar(e, g).value.0), Desugar(e, g).value.1)
  {
    var xs := [Sym(x), e];
    assert [Sym(Known(Set)), Sym(x), e][1..] == xs;
    DesugarSpecial(Set, ListOf(xs), g);
    ToSeqListOf(xs);
  }

  /** A written letrec. */
  lemma ExpandLetrecForm(bs: seq<Binding>, tail: seq<Datum>, g: nat)
    ensures Desugar(LetForm(Letrec, bs, ListOf(tail)), g) ==
            Desugar(LetForm(Let, Undefined(bs), ListOf([BeginForm(Assignments(bs) + tail)])), g)
  {
    var rest := Pair(ListOf(BindingList(bs)), ListOf(tail));
    ToSeqListOf(tail);
    BindingsOfList(Letrec, bs);
    assert ToSeq(rest) == Some([rest.car] + tail);
    assert ([rest.car] + tail)[1..] == tail;
    DesugarDerived(Letrec, rest, g);
  }

  // ---- Loops ----

  /** The letrec that a named let or a do becomes. */
  function LoopForm(loop: Symbol, bs: seq<Binding>, body: Datum, args: seq<Datum>): Datum {
    LetForm(Letrec, [Binding(loop, LambdaForm(ListOf(Names(bs)), body))], ListOf([Pair(Sym(loop), ListOf(args))]))
  }

  lemma DesugarLoop(loop: Symbol, bs: seq<Binding>, body: Datum, args: seq<Datum>, g: nat)
    requires Desugar(LoopForm(loop, bs, body, args), g).Ok? && IsOperator(Sym(loop))
    ensures ScanOutDefines(body).Ok? && DesugarBody(ScanOutDefines(body).value, g).Ok?
    ensures DesugarArgs(args, DesugarBody(ScanOutDefines(body).value, g).value.1).Ok?
    ensures var (t, g1) := DesugarBody(ScanOutDefines(body).value, g).value;
            var (ts, g2) := DesugarArgs(args, g1).value;
            Desugar(LoopForm(loop, bs, body, args), g).value ==
              (C.Call(Fun([loop], None, Then(Assign(loop, Fun(NamesOf(bs), None, t)), C.Call(C.Ref(loop), ts))),
                      [C.Ref(Known(Undef))]), g2)
  {
    var lambda, again := LambdaForm(ListOf(Names(bs)), body), Pair(Sym(loop), ListOf(args));
    var ls := [Binding(loop, lambda)];
    ExpandLetrecForm(ls, [again], g);
    DesugarAssignments(ls, [again], g);
    var first := ListOf([Sym(Known(Set)), Sym(loop), lambda]);
    assert Assignments(ls) == [first];
    DesugarTwo(first, again, g);
    DesugarSetLambda(loop, bs, body, g);
    var g1 := Desugar(first, g).value.1;
    DesugarCombination(Sym(loop), args, g1);
    assert NamesOf(ls) == [loop];
    assert seq(1, _ => C.Ref(Known(Undef))) == [C.Ref(Known(Undef))];
  }

  lemma DesugarSetLambda(x: Symbol, bs: seq<Binding>, body: Datum, g: nat)
    requires Desugar(ListOf([Sym(Known(Set)), Sym(x), LambdaForm(ListOf(Names(bs)), body)]), g).Ok?
    ensures ScanOutDefines(body).Ok? && DesugarBody(ScanOutDefines(body).value, g).Ok?
    ensures var (t, g1) := DesugarBody(ScanOutDefines(body).value, g).value;
            Desugar(ListOf([Sym(Known(Set)), Sym(x), LambdaForm(ListOf(Names(bs)), body)]), g).value ==
              (Assign(x, Fun(NamesOf(bs), None, t)), g1)
  {
    var lambda := LambdaForm(ListOf(Names(bs)), body);
    DesugarSet(x, lambda, g);
    assert DesugarForm(Lambda, Pair(ListOf(Names(bs)), body), g).Ok?;
    DesugarLambdaForm(ListOf(Names(bs)), body, g);
    ParamsOfNames(bs);
  }

  lemma DesugarTwo(x: Datum, y: Datum, g: nat)
    requires DesugarBody([x] + [y], g).Ok?
    ensures Desugar(x, g).Ok? && Desugar(y, Desugar(x, g).value.1).Ok?
    ensures DesugarBody([x] + [y], g).value ==
              (Then(Desugar(x, g).value.0, Desugar(y, Desugar(x, g).value.1).value.0),
               Desugar(y, Desugar(x, g).value.1).value.1)
  {
    var xs := [x] + [y];
    assert xs[0] == x && xs[1..] == [y];
    DesugarOne(y, Desugar(x, g).value.1);
  }
}
