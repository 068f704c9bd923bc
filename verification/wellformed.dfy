/** Exactly the well-formed expressions desugar, whatever the counter: no others, and none of them is refused. */
module WellFormed {
  import opened Wrappers
  import opened Datums
  import opened Symbols
  import opened Expand
  import opened Weights
  import opened CoreLanguage
  import opened Shapes
  import F = Forms

  // ---- Compiling, as a yes or no ----

  /** x desugars, whatever the counter, or never. */
  ghost predicate Compiles(x: Datum, b: bool) {
    forall g: nat :: Desugar(x, g).Ok? <==> b
  }

  ghost predicate AllCompile(xs: seq<Datum>, b: bool) {
    forall g: nat :: DesugarArgs(xs, g).Ok? <==> b
  }

  /** The same for the body of a procedure. */
  ghost predicate ScopeCompiles(body: Datum, b: bool) {
    forall g: nat :: ScopeOk(body, g) <==> b
  }

  predicate ScopeOk(body: Datum, g: nat) {
    ScanOutDefines(body).Ok? && DesugarBody(ScanOutDefines(body).value, g).Ok?
  }

  // ---- Sequences ----

  lemma MoreCompile(x: Datum, xs: seq<Datum>, b: bool, bs: bool)
    requires Compiles(x, b) && AllCompile(xs, bs)
    ensures AllCompile([x] + xs, b && bs)
  {
    forall g: nat ensures DesugarArgs([x] + xs, g).Ok? <==> b && bs {
      ArgsMore(x, xs, g);
      assert Desugar(x, g).Ok? <==> b;
      if b {
        assert DesugarArgs(xs, Desugar(x, g).value.1).Ok? <==> bs;
      }
    }
  }

  lemma ArgsMore(x: Datum, xs: seq<Datum>, g: nat)
    ensures DesugarArgs([x] + xs, g).Ok? <==> Desugar(x, g).Ok? && DesugarArgs(xs, Desugar(x, g).value.1).Ok?
  {
    assert ([x] + xs)[0] == x && ([x] + xs)[1..] == xs;
  }

  lemma OneCompiles(x: Datum, b: bool)
    requires Compiles(x, b)
    ensures AllCompile([x], b)
  {
    MoreCompile(x, [], b, true);
    assert [x] + [] == [x];
  }

  lemma {:induction false} ArgsConcat(xs: seq<Datum>, ys: seq<Datum>, g: nat)
    ensures DesugarArgs(xs + ys, g).Ok? <==>
            DesugarArgs(xs, g).Ok? && DesugarArgs(ys, DesugarArgs(xs, g).value.1).Ok?
  {
    if xs == [] {
      assert xs + ys == ys;
    } else {
      assert (xs + ys)[0] == xs[0] && (xs + ys)[1..] == xs[1..] + ys;
      if Desugar(xs[0], g).Ok? {
        ArgsConcat(xs[1..], ys, Desugar(xs[0], g).value.1);
      }
    }
  }

  lemma ConcatCompiles(xs: seq<Datum>, ys: seq<Datum>, b: bool, b': bool)
    requires AllCompile(xs, b) && AllCompile(ys, b')
    ensures AllCompile(xs + ys, b && b')
  {
    forall g: nat ensures DesugarArgs(xs + ys, g).Ok? <==> b && b' {
      ArgsConcat(xs, ys, g);
    }
  }

  /** A body compiles if the expressions in it do. */
  lemma {:induction false} BodyAsArgs(xs: seq<Datum>, g: nat)
    ensures DesugarBody(xs, g).Ok? <==> DesugarArgs(xs, g).Ok?
  {
    if |xs| == 1 {
      assert xs[1..] == [];
    }
    if xs != [] && Desugar(xs[0], g).Ok? {
      BodyAsArgs(xs[1..], Desugar(xs[0], g).value.1);
    }
  }

  lemma BeginCompiles(xs: seq<Datum>, b: bool)
    requires AllCompile(xs, b)
    ensures Compiles(BeginForm(xs), b)
  {
    forall g: nat ensures Desugar(BeginForm(xs), g).Ok? <==> b {
      DesugarBegin(xs, g);
      BodyAsArgs(xs, g);
    }
  }

  // ---- Basic forms ----

  lemma CallCompiles(head: Datum, xs: seq<Datum>, b: bool, bs: bool)
    requires IsOperator(head) && Compiles(head, b) && AllCompile(xs, bs)
    ensures Compiles(Pair(head, ListOf(xs)), b && bs)
  {
    forall g: nat ensures Desugar(Pair(head, ListOf(xs)), g).Ok? <==> b && bs {
      DesugarCombination(head, xs, g);
      OperationOk(head, xs, false, g, b, bs);
    }
  }

  lemma OperationOk(head: Datum, xs: seq<Datum>, spread: bool, g: nat, b: bool, bs: bool)
    requires Compiles(head, b) && AllCompile(xs, bs)
    ensures DesugarOperation(head, xs, spread, g).Ok? <==> b && bs
  {
    assert DesugarArgs(xs, g).Ok? <==> bs;
    if bs {
      assert Desugar(head, DesugarArgs(xs, g).value.1).Ok? <==> b;
    }
  }

  lemma IfCompiles(x: Datum, y: Datum, z: Datum, a: bool, b: bool, c: bool)
    requires Compiles(x, a) && Compiles(y, b) && Compiles(z, c)
    ensures Compiles(IfForm(x, y, z), a && b && c)
  {
    var xs := [x, y, z];
    assert [Sym(Known(If)), x, y, z][1..] == xs;
    ToSeqListOf(xs);
    forall g: nat ensures Desugar(IfForm(x, y, z), g).Ok? <==> a && b && c {
      DesugarSpecial(If, ListOf(xs), g);
      TestOk(ListOf(xs), x, y, z, a, b, c, g);
    }
  }

  lemma TestOk(rest: Datum, x: Datum, y: Datum, z: Datum, a: bool, b: bool, c: bool, g: nat)
    requires Compiles(x, a) && Compiles(y, b) && Compiles(z, c)
    requires ToSeq(rest) == Some([x, y, z]) || (ToSeq(rest) == Some([x, y]) && z == Nil)
    ensures DesugarTest(rest, g).Ok? <==> a && b && c
  {
    assert Desugar(x, g).Ok? <==> a;
    if a {
      var g1 := Desugar(x, g).value.1;
      assert Desugar(y, g1).Ok? <==> b;
      if b {
        assert Desugar(z, Desugar(y, g1).value.1).Ok? <==> c;
      }
    }
  }

  lemma LambdaCompiles(params: Datum, body: Datum, a: bool, b: bool)
    requires (Params(params).Ok? <==> a) && ScopeCompiles(body, b)
    ensures Compiles(LambdaForm(params, body), a && b)
  {
    forall g: nat ensures Desugar(LambdaForm(params, body), g).Ok? <==> a && b {
      DesugarSpecial(Lambda, Pair(params, body), g);
      assert ScopeOk(body, g) <==> b;
      LambdaOk(params, body, g);
    }
  }

  lemma LambdaOk(params: Datum, body: Datum, g: nat)
    ensures DesugarLambda(params, body, g).Ok? <==> Params(params).Ok? && ScopeOk(body, g)
    ensures DesugarForm(Lambda, Pair(params, body), g).Ok? <==> Params(params).Ok? && ScopeOk(body, g)
  {
  }

  // ---- Let and letrec ----

  lemma LetCompiles(bs: seq<Binding>, body: Datum, a: bool, b: bool)
    requires AllCompile(Inits(bs), a) && ScopeCompiles(body, b)
    ensures Compiles(Pair(LambdaForm(ListOf(Names(bs)), body), ListOf(Inits(bs))), a && b)
    ensures ToSeq(body).Some? ==> Compiles(LetForm(Let, bs, body), a && b)
  {
    ParamsOfNames(bs);
    LambdaCompiles(ListOf(Names(bs)), body, true, b);
    CallCompiles(LambdaForm(ListOf(Names(bs)), body), Inits(bs), b, a);
    if ToSeq(body).Some? {
      var xs := ToSeq(body).value;
      forall g: nat ensures Desugar(LetForm(Let, bs, body), g).Ok? <==> a && b {
        DesugarLet(bs, xs, g);
      }
    }
  }

  /** A body of one expression that is no define. */
  lemma LoneCompiles(z: Datum, b: bool)
    requires !IsForm(z, Define) && Compiles(z, b)
    ensures ScopeCompiles(ListOf([z]), b)
  {
    ScanOne(z);
    forall g: nat ensures ScopeOk(ListOf([z]), g) <==> b {
      DesugarOne(z, g);
    }
  }

  /** `(let ((y a)) z)`, z being no define. */
  lemma LetOneCompiles(y: Symbol, a: Datum, z: Datum, b: bool, c: bool)
    requires !IsForm(z, Define) && Compiles(a, b) && Compiles(z, c)
    ensures Compiles(LetForm(Let, [Binding(y, a)], ListOf([z])), b && c)
  {
    var bs := [Binding(y, a)];
    assert Inits(bs) == [a];
    OneCompiles(a, b);
    LoneCompiles(z, c);
    ToSeqListOf([z]);
    LetCompiles(bs, ListOf([z]), b, c);
  }

  /** `(let ((t a)) (if t t els))`, t being a generated name. */
  lemma TempCompiles(t: Symbol, a: Datum, els: Datum, b: bool, c: bool)
    requires Compiles(a, b) && Compiles(els, c)
    ensures Compiles(LetForm(Let, [Binding(t, a)], ListOf([IfForm(Sym(t), Sym(t), els)])), b && c)
  {
    assert Compiles(Sym(t), true);
    IfCompiles(Sym(t), Sym(t), els, true, true, c);
    LetOneCompiles(t, a, IfForm(Sym(t), Sym(t), els), b, c);
  }

  lemma UndefinedCompile(bs: seq<Binding>)
    ensures AllCompile(Inits(Undefined(bs)), true)
  {
    forall g: nat ensures DesugarArgs(Inits(Undefined(bs)), g).Ok? {
      DesugarUndefined(bs, g);
    }
  }

  lemma {:induction false} AssignmentsOk(bs: seq<Binding>, g: nat)
    ensures DesugarArgs(Assignments(bs), g).Ok? <==> DesugarArgs(Inits(bs), g).Ok?
    ensures DesugarArgs(Inits(bs), g).Ok? ==>
              DesugarArgs(Assignments(bs), g).value.1 == DesugarArgs(Inits(bs), g).value.1
  {
    if bs != [] {
      assert Assignments(bs)[1..] == Assignments(bs[1..]) && Inits(bs)[1..] == Inits(bs[1..]);
      SetOk(bs[0].name, bs[0].init, g);
      if Desugar(bs[0].init, g).Ok? {
        AssignmentsOk(bs[1..], Desugar(bs[0].init, g).value.1);
      }
    }
  }

  lemma SetOk(x: Symbol, e: Datum, g: nat)
    ensures var y := ListOf([Sym(Known(Set)), Sym(x), e]);
            && (Desugar(y, g).Ok? <==> Desugar(e, g).Ok?)
            && (Desugar(e, g).Ok? ==> Desugar(y, g).value.1 == Desugar(e, g).value.1)
  {
    var xs := [Sym(x), e];
    assert [Sym(Known(Set)), Sym(x), e][1..] == xs;
    ToSeqListOf(xs);
    DesugarSpecial(Set, ListOf(xs), g);
  }

  lemma AssignmentsCompile(bs: seq<Binding>, b: bool)
    requires AllCompile(Inits(bs), b)
    ensures AllCompile(Assignments(bs), b)
  {
    forall g: nat ensures DesugarArgs(Assignments(bs), g).Ok? <==> b {
      AssignmentsOk(bs, g);
    }
  }

  /** The let that a letrec becomes. */
  lemma FillCompiles(bs: seq<Binding>, xs: seq<Datum>, a: bool, b: bool)
    requires AllCompile(Inits(bs), a)
    requires if bs == [] then ScopeCompiles(ListOf([BeginForm(xs)]), b) else AllCompile(xs, b)
    ensures Compiles(LetForm(Let, Undefined(bs), ListOf([BeginForm(Assignments(bs) + xs)])), a && b)
  {
    var z := BeginForm(Assignments(bs) + xs);
    ToSeqListOf([z]);
    UndefinedCompile(bs);
    if bs == [] {
      assert Assignments(bs) + xs == xs;
      assert Inits(bs) == [] && DesugarArgs([], 0).Ok?;
      LetCompiles(Undefined(bs), ListOf([z]), true, b);
    } else {
      LetrecBody(bs, xs, a, b);
      LetCompiles(Undefined(bs), ListOf([z]), true, a && b);
    }
  }

  lemma LetrecBody(bs: seq<Binding>, xs: seq<Datum>, a: bool, b: bool)
    requires bs != [] && AllCompile(Inits(bs), a) && AllCompile(xs, b)
    ensures ScopeCompiles(ListOf([BeginForm(Assignments(bs) + xs)]), a && b)
  {
    var z := BeginForm(Assignments(bs) + xs);
    AssignmentsCompile(bs, a);
    ConcatCompiles(Assignments(bs), xs, a, b);
    BeginCompiles(Assignments(bs) + xs, a && b);
    if |Assignments(bs) + xs| == 1 {
      assert z == Assignments(bs)[0];
    }
    LoneCompiles(z, a && b);
  }

  /** A letrec with variables. */
  lemma LetrecCompiles(bs: seq<Binding>, tail: seq<Datum>, a: bool, b: bool)
    requires bs != [] && AllCompile(Inits(bs), a) && AllCompile(tail, b)
    ensures Compiles(LetForm(Letrec, bs, ListOf(tail)), a && b)
  {
    FillCompiles(bs, tail, a, b);
    forall g: nat ensures Desugar(LetForm(Letrec, bs, ListOf(tail)), g).Ok? <==> a && b {
      ExpandLetrecForm(bs, tail, g);
    }
  }

  // ---- What is well formed ----

  /** Exactly the well-formed expressions desugar. */
  lemma {:induction false} Exact(x: Datum)
    ensures Compiles(x, F.Formed(x))
    decreases Size(x), 9
  {
    match x
    case Pair(head, rest) =>
      if head.Sym? && head.name.Known? {
        KnownExact(head.name.k, rest);
      } else {
        Exact(head);
        CallExact(head, rest, F.Formed(head));
      }
    case _ =>
      forall g: nat ensures Desugar(x, g).Ok? <==> F.Formed(x) {
      }
  }

  lemma {:induction false} ListExact(x: Datum)
    ensures if ToSeq(x).Some? then AllCompile(ToSeq(x).value, F.AllFormed(x)) else !F.AllFormed(x)
    decreases Size(x), 0
  {
    if x.Pair? {
      Exact(x.car);
      ListExact(x.cdr);
      if ToSeq(x).Some? {
        MoreCompile(x.car, ToSeq(x.cdr).value, F.Formed(x.car), F.AllFormed(x.cdr));
      }
    }
  }

  lemma CallExact(head: Datum, rest: Datum, b: bool)
    requires IsOperator(head) && Compiles(head, b)
    ensures Compiles(Pair(head, rest), b && F.AllFormed(rest))
    decreases Size(rest), 3
  {
    ListExact(rest);
    if ToSeq(rest).Some? {
      CallCompiles(head, ToSeq(rest).value, b, F.AllFormed(rest));
    } else {
      forall g: nat ensures Desugar(Pair(head, rest), g).Err? {
        ImproperCall(head, rest, g);
      }
    }
  }

  lemma ImproperCall(head: Datum, rest: Datum, g: nat)
    requires IsOperator(head) && ToSeq(rest).None?
    ensures Desugar(Pair(head, rest), g).Err?
  {
    assert Desugar(Pair(head, rest), g) == DesugarCall(head, rest, g);
  }

  lemma KnownExact(k: Keyword, rest: Datum)
    ensures Compiles(Pair(Sym(Known(k)), rest), F.OperandsFormed(k, rest))
    decreases Size(rest), 8
  {
    if IsDerived(k) {
      DerivedExact(k, rest);
    } else if IsSpecial(k) {
      forall g: nat ensures Desugar(Pair(Sym(Known(k)), rest), g).Ok? <==> F.OperandsFormed(k, rest) {
        DesugarSpecial(k, rest, g);
        SpecialExact(k, rest, g);
      }
    } else {
      assert Compiles(Sym(Known(k)), true);
      CallExact(Sym(Known(k)), rest, true);
    }
  }

  // ---- Basic forms ----

  lemma SpecialExact(k: Keyword, rest: Datum, g: nat)
    requires IsSpecial(k)
    ensures DesugarForm(k, rest, g).Ok? <==> F.OperandsFormed(k, rest)
    decreases Size(rest), 7
  {
    if k == If {
      IfExact(rest, g);
    } else if k == Lambda {
      LambdaExact(rest, g);
    } else if k == Define {
      DefineExact(rest, g);
    } else if k == Set {
      SetExact(rest, g);
    } else if k == Apply {
      ApplyExact(rest, g);
    } else if k == CallCC || k == CallWithCC {
      CaptureExact(k, rest, g);
    } else if k == Begin {
      BeginExact(rest, g);
    } else {
      OtherExact(k, rest, g);
    }
  }

  /** Forms without expressions in them. */
  lemma OtherExact(k: Keyword, rest: Datum, g: nat)
    requires k == Quote || IsReport(k) || k == DefineMacro
    ensures DesugarForm(k, rest, g).Ok? <==> F.OperandsFormed(k, rest)
  {
    OneOperand(k, rest);
  }

  lemma BeginExact(rest: Datum, g: nat)
    ensures DesugarForm(Begin, rest, g).Ok? <==> F.OperandsFormed(Begin, rest)
    decreases Size(rest), 6
  {
    ListExact(rest);
    if ToSeq(rest).Some? {
      BodyAsArgs(ToSeq(rest).value, g);
    }
  }

  lemma CaptureExact(k: Keyword, rest: Datum, g: nat)
    requires k == CallCC || k == CallWithCC
    ensures DesugarForm(k, rest, g).Ok? <==> F.OperandsFormed(k, rest)
    decreases Size(rest), 6
  {
    F.Smaller(rest);
    OneOperand(k, rest);
    if rest.Pair? {
      Exact(rest.car);
      assert Desugar(rest.car, g).Ok? <==> F.Formed(rest.car);
    }
  }

  lemma OneList(x: Datum)
    requires x.Pair? && x.cdr.Nil?
    ensures ToSeq(x) == Some([x.car])
  {
    assert ToSeq(x.cdr) == Some([]) && [x.car] + [] == [x.car];
  }

  lemma OneOperand(k: Keyword, rest: Datum)
    ensures Operands(k, rest, 1, 1).Ok? <==> rest.Pair? && rest.cdr.Nil?
    ensures Operands(k, rest, 1, 1).Ok? ==> Operands(k, rest, 1, 1).value == [rest.car]
  {
    if rest.Pair? && ToSeq(rest).Some? && ToSeq(rest.cdr).value != [] {
      assert |ToSeq(rest).value| > 1;
    }
  }

  lemma IfExact(rest: Datum, g: nat)
    ensures DesugarForm(If, rest, g).Ok? <==> F.OperandsFormed(If, rest)
    decreases Size(rest), 6
  {
    F.Smaller(rest);
    IfOperands(rest);
    ListExact(rest);
    if Operands(If, rest, 2, 3).Ok? {
      var a, b := rest.car, rest.cdr.car;
      var c := if rest.cdr.cdr.Pair? then rest.cdr.cdr.car else Nil;
      Exact(a);
      Exact(b);
      assert F.AllFormed(rest.cdr.cdr) <==> F.Formed(c);
      if rest.cdr.cdr.Pair? {
        Exact(c);
      } else {
        assert Compiles(Nil, true);
      }
      assert ToSeq(rest).value == if rest.cdr.cdr.Pair? then [a, b, c] else [a, b];
      TestOk(rest, a, b, c, F.Formed(a), F.Formed(b), F.Formed(c), g);
      assert F.AllFormed(rest) <==> F.Formed(a) && F.AllFormed(rest.cdr);
    }
  }

  lemma IfOperands(rest: Datum)
    ensures Operands(If, rest, 2, 3).Ok? <==>
            && rest.Pair? && rest.cdr.Pair?
            && (rest.cdr.cdr.Nil? || (rest.cdr.cdr.Pair? && rest.cdr.cdr.cdr.Nil?))
    ensures Operands(If, rest, 2, 3).Ok? ==>
              ToSeq(rest).value == [rest.car, rest.cdr.car] + if rest.cdr.cdr.Nil? then [] else [rest.cdr.cdr.car]
  {
    Parts(rest);
    if rest.Pair? {
      Parts(rest.cdr);
      if rest.cdr.Pair? {
        Parts(rest.cdr.cdr);
        if rest.cdr.cdr.Pair? { Parts(rest.cdr.cdr.cdr); }
      }
    }
  }

  lemma Parts(x: Datum)
    ensures x.Pair? ==> (ToSeq(x).Some? <==> ToSeq(x.cdr).Some?)
    ensures x.Pair? && ToSeq(x).Some? ==> ToSeq(x).value == [x.car] + ToSeq(x.cdr).value
    ensures !x.Pair? ==> ToSeq(x) == if x.Nil? then Some([]) else None
  {
  }

  lemma {:induction false} ParametersExact(p: Datum)
    ensures Params(p).Ok? <==> F.ParametersFormed(p)
  {
    if p.Pair? && p.car.Sym? {
      ParametersExact(p.cdr);
    }
  }

  lemma LambdaExact(rest: Datum, g: nat)
    ensures DesugarForm(Lambda, rest, g).Ok? <==> F.OperandsFormed(Lambda, rest)
    decreases Size(rest), 6
  {
    F.Smaller(rest);
    if rest.Pair? {
      assert rest == Pair(rest.car, rest.cdr);
      LambdaOk(rest.car, rest.cdr, g);
      ParametersExact(rest.car);
      ScopeExact(rest.cdr);
      assert ScopeOk(rest.cdr, g) <==> F.ScopeFormed(rest.cdr);
    }
  }

  lemma DefineExact(rest: Datum, g: nat)
    ensures DesugarForm(Define, rest, g).Ok? <==> F.OperandsFormed(Define, rest)
    decreases Size(rest), 6
  {
    F.Smaller(rest);
    if rest.Pair? {
      var target, tail := rest.car, rest.cdr;
      if target.Sym? {
        if tail.Pair? && tail.cdr.Nil? {
          Exact(tail.car);
          assert Desugar(tail.car, g).Ok? <==> F.Formed(tail.car);
          OneList(tail);
        }
      } else if target.Pair? && target.car.Sym? {
        LambdaOk(target.cdr, tail, g);
        ParametersExact(target.cdr);
        ScopeExact(tail);
        assert ScopeOk(tail, g) <==> F.ScopeFormed(tail);
      }
    }
  }

  lemma SetExact(rest: Datum, g: nat)
    ensures DesugarForm(Set, rest, g).Ok? <==> F.OperandsFormed(Set, rest)
    decreases Size(rest), 6
  {
    F.Smaller(rest);
    TwoOperands(rest);
    if Operands(Set, rest, 2, 2).Ok? {
      Exact(rest.cdr.car);
      assert Desugar(rest.cdr.car, g).Ok? <==> F.Formed(rest.cdr.car);
    }
  }

  lemma TwoOperands(rest: Datum)
    ensures Operands(Set, rest, 2, 2).Ok? <==> rest.Pair? && rest.cdr.Pair? && rest.cdr.cdr.Nil?
    ensures Operands(Set, rest, 2, 2).Ok? ==> Operands(Set, rest, 2, 2).value == [rest.car, rest.cdr.car]
  {
    Parts(rest);
    if rest.Pair? {
      Parts(rest.cdr);
      if rest.cdr.Pair? { Parts(rest.cdr.cdr); }
    }
  }

  lemma ApplyExact(rest: Datum, g: nat)
    ensures DesugarForm(Apply, rest, g).Ok? <==> F.OperandsFormed(Apply, rest)
    decreases Size(rest), 6
  {
    F.Smaller(rest);
    if rest.Pair? {
      Exact(rest.car);
      ListExact(rest.cdr);
      if Operands(Apply, rest, 2, 0).Ok? {
        var xs := ToSeq(rest).value;
        assert xs[1..] == ToSeq(rest.cdr).value;
        OperationOk(xs[0], xs[1..], true, g, F.Formed(rest.car), F.AllFormed(rest.cdr));
      }
    }
  }

  // ---- Procedure bodies ----

  lemma ScopeExact(body: Datum)
    ensures ScopeCompiles(body, F.ScopeFormed(body))
    ensures ToSeq(body).None? ==> !F.ScopeFormed(body)
    decreases Size(body), 2
  {
    ScopeIsProper(body);
    if ToSeq(body).Some? {
      var a, b := LeadingExact(body);
      if LeadingDefines(ToSeq(body).value).Ok? {
        ScanOutCompiles(body, a, b);
      }
    }
  }

  lemma {:induction false} ScopeIsProper(body: Datum)
    ensures ToSeq(body).None? ==> !F.ScopeFormed(body) && !F.AllFormed(body)
    decreases body
  {
    F.Smaller(body);
    if body.Pair? {
      ScopeIsProper(body.cdr);
    }
  }

  lemma ScanOutCompiles(body: Datum, a: bool, b: bool)
    requires ToSeq(body).Some? && LeadingDefines(ToSeq(body).value).Ok?
    requires AllCompile(Inits(LeadingDefines(ToSeq(body).value).value.0), a)
    requires AllCompile(LeadingDefines(ToSeq(body).value).value.1, b)
    ensures ScopeCompiles(body, a && b)
  {
    var forms := ToSeq(body).value;
    var (bs, rest) := LeadingDefines(forms).value;
    if bs == [] {
      NoLeading(forms);
      assert DesugarArgs(Inits([]), 0).Ok?;
      forall g: nat ensures ScopeOk(body, g) <==> a && b {
        BodyAsArgs(forms, g);
      }
    } else {
      var tail := if rest == [] then [Sym(Known(Undef))] else rest;
      if rest == [] {
        assert DesugarArgs([], 0).Ok?;
        OneCompiles(Sym(Known(Undef)), true);
      }
      LetrecCompiles(bs, tail, a, b);
      forall g: nat ensures ScopeOk(body, g) <==> a && b {
        DesugarOne(LetForm(Letrec, bs, ListOf(tail)), g);
      }
    }
  }

  lemma NoLeading(forms: seq<Datum>)
    requires LeadingDefines(forms).Ok? && LeadingDefines(forms).value.0 == []
    ensures LeadingDefines(forms).value.1 == forms
  {
  }

  lemma {:induction false} LeadingExact(body: Datum) returns (a: bool, b: bool)
    requires ToSeq(body).Some?
    ensures var r := LeadingDefines(ToSeq(body).value);
            if r.Ok? then AllCompile(Inits(r.value.0), a) && AllCompile(r.value.1, b) &&
              (F.ScopeFormed(body) <==> a && b)
            else !F.ScopeFormed(body)
    decreases Size(body), 1
  {
    F.Smaller(body);
    a, b := true, false;
    var forms := ToSeq(body).value;
    if body.Pair? && IsForm(body.car, Define) {
      Parts(body);
      assert forms[1..] == ToSeq(body.cdr).value;
      InternalExact(body.car);
      a, b := LeadingExact(body.cdr);
      if LeadingDefines(forms).Ok? {
        LeadingMore(forms, F.InternalFormed(body.car.cdr), a);
        a := a && F.InternalFormed(body.car.cdr);
      }
    } else {
      ListExact(body);
      b := F.AllFormed(body);
      assert forms == [] || forms[0] == body.car;
      assert Inits([]) == [];
    }
  }

  lemma LeadingMore(forms: seq<Datum>, a: bool, b: bool)
    requires forms != [] && IsForm(forms[0], Define) && LeadingDefines(forms).Ok?
    requires Compiles(InternalDefine(forms[0]).value.init, a)
    requires AllCompile(Inits(LeadingDefines(forms[1..]).value.0), b)
    ensures AllCompile(Inits(LeadingDefines(forms).value.0), b && a)
    ensures LeadingDefines(forms).value.1 == LeadingDefines(forms[1..]).value.1
  {
    var c, more := InternalDefine(forms[0]).value, LeadingDefines(forms[1..]).value.0;
    assert LeadingDefines(forms).value.0 == [c] + more;
    assert Inits([c] + more) == [c.init] + Inits(more);
    MoreCompile(c.init, Inits(more), a, b);
  }

  lemma InternalExact(x: Datum)
    requires IsForm(x, Define)
    ensures if InternalDefine(x).Ok? then Compiles(InternalDefine(x).value.init, F.InternalFormed(x.cdr))
            else !F.InternalFormed(x.cdr)
    decreases Size(x), 2
  {
    var rest := x.cdr;
    F.Smaller(rest);
    if rest.Pair? {
      if rest.car.Sym? {
        if rest.cdr.Pair? {
          Exact(rest.cdr.car);
        }
      } else if rest.car.Pair? && rest.car.car.Sym? {
        ParametersExact(rest.car.cdr);
        ScopeExact(rest.cdr);
        LambdaCompiles(rest.car.cdr, rest.cdr, F.ParametersFormed(rest.car.cdr), F.ScopeFormed(rest.cdr));
      }
    }
  }

  // ---- Derived forms ----

  lemma DerivedOk(k: Keyword, rest: Datum, g: nat)
    requires IsDerived(k)
    ensures Desugar(Pair(Sym(Known(k)), rest), g).Ok? <==>
            && ExpandForm(k, rest, g).Ok?
            && Desugar(ExpandForm(k, rest, g).value.0, ExpandForm(k, rest, g).value.1).Ok?
  {
    DesugarDerived(k, rest, g);
  }

  /** A derived form compiles if its expansion does, which does not depend on the counter. */
  lemma Expands(k: Keyword, rest: Datum, b: bool)
    requires IsDerived(k)
    requires forall g: nat :: if ExpandForm(k, rest, g).Ok? then Compiles(ExpandForm(k, rest, g).value.0, b) else !b
    ensures Compiles(Pair(Sym(Known(k)), rest), b)
  {
    forall g: nat ensures Desugar(Pair(Sym(Known(k)), rest), g).Ok? <==> b {
      DerivedOk(k, rest, g);
      if ExpandForm(k, rest, g).Ok? {
        var (y, g1) := ExpandForm(k, rest, g).value;
        assert Compiles(y, b);
        assert Desugar(y, g1).Ok? <==> b;
      }
    }
  }

  lemma DerivedExact(k: Keyword, rest: Datum)
    requires IsDerived(k)
    ensures Compiles(Pair(Sym(Known(k)), rest), F.OperandsFormed(k, rest))
    decreases Size(rest), 7
  {
    forall g: nat
      ensures if ExpandForm(k, rest, g).Ok? then Compiles(ExpandForm(k, rest, g).value.0, F.OperandsFormed(k, rest))
              else !F.OperandsFormed(k, rest)
    {
      match k
      case Quasiquote => QuasiquoteExact(rest);
      case Let => LetExact(rest);
      case LetStar => LetStarExact(rest);
      case Letrec => LetrecExact(rest);
      case And => AndOrExact(k, rest, g);
      case Or => AndOrExact(k, rest, g);
      case Cond => CondExact(rest, g);
      case Case => CaseExact(rest, g);
      case Do => DoExact(rest, g);
    }
    Expands(k, rest, F.OperandsFormed(k, rest));
  }

  // ---- Bindings ----

  lemma {:induction false} BindingsExact(form: Keyword, bs: Datum)
    ensures Bindings(form, bs).Ok? <==> F.BindingsShaped(bs)
    ensures if Bindings(form, bs).Ok? then AllCompile(Inits(Bindings(form, bs).value), F.BindingsFormed(bs))
            else !F.BindingsFormed(bs)
    ensures Bindings(form, bs).Ok? ==> ListOf(Inits(Bindings(form, bs).value)) == F.InitialValues(bs)
    decreases Size(bs), 0
  {
    F.Smaller(bs);
    if bs.Pair? && F.IsBinding(bs.car) {
      Exact(bs.car.cdr.car);
      BindingsExact(form, bs.cdr);
      if Bindings(form, bs).Ok? {
        var b, more := Binding(bs.car.car.name, bs.car.cdr.car), Bindings(form, bs.cdr).value;
        assert Bindings(form, bs).value == [b] + more;
        MoreInits(b, more);
        MoreCompile(b.init, Inits(more), F.Formed(b.init), F.BindingsFormed(bs.cdr));
      }
    }
    assert Inits([]) == [];
  }

  lemma MoreInits(b: Binding, more: seq<Binding>)
    ensures Inits([b] + more) == [b.init] + Inits(more)
    ensures ListOf(Inits([b] + more)) == Pair(b.init, ListOf(Inits(more)))
  {
    assert Inits([b] + more)[1..] == Inits(more);
  }

  lemma LetExact(rest: Datum)
    ensures if ExpandLet(rest).Ok? then Compiles(ExpandLet(rest).value, F.OperandsFormed(Let, rest))
            else !F.OperandsFormed(Let, rest)
    decreases Size(rest), 6
  {
    F.Smaller(rest);
    assert F.OperandsFormed(Let, rest) <==> F.LetFormed(rest);
    if rest.Pair? {
      if rest.car.Sym? {
        NamedLetExact(rest);
      } else {
        PlainLetExact(rest);
      }
    }
  }

  lemma PlainLetExact(rest: Datum)
    requires rest.Pair? && !rest.car.Sym?
    ensures if ExpandLet(rest).Ok? then Compiles(ExpandLet(rest).value, F.LetFormed(rest)) else !F.LetFormed(rest)
    decreases Size(rest), 5
  {
    F.Smaller(rest);
    Parts(rest);
    BindingsExact(Let, rest.car);
    ScopeExact(rest.cdr);
    if Bindings(Let, rest.car).Ok? {
      var bs := Bindings(Let, rest.car).value;
      LetCompiles(bs, rest.cdr, F.BindingsFormed(rest.car), F.ScopeFormed(rest.cdr));
    }
  }

  lemma NamedLetExact(rest: Datum)
    requires rest.Pair? && rest.car.Sym?
    ensures if ExpandLet(rest).Ok? then Compiles(ExpandLet(rest).value, F.LetFormed(rest)) else !F.LetFormed(rest)
    decreases Size(rest), 5
  {
    F.Smaller(rest);
    if rest.cdr.Pair? {
      var x, body := rest.cdr.car, rest.cdr.cdr;
      BindingsExact(Let, x);
      ScopeExact(body);
      var call := Pair(rest.car, F.InitialValues(x));
      Exact(call);
      if Bindings(Let, x).Ok? {
        var bs, name := Bindings(Let, x).value, rest.car.name;
        LoopCompiles(name, bs, body, call, F.ScopeFormed(body), F.Formed(call));
        assert rest.car == Sym(name) && call == Pair(rest.car, ListOf(Inits(bs)));
        Parts(rest);
        Parts(rest.cdr);
      }
    }
  }

  /** The letrec of a loop. */
  lemma LoopCompiles(loop: Symbol, bs: seq<Binding>, body: Datum, call: Datum, a: bool, b: bool)
    requires ScopeCompiles(body, a) && Compiles(call, b)
    ensures Compiles(LetForm(Letrec, [Binding(loop, LambdaForm(ListOf(Names(bs)), body))], ListOf([call])), a && b)
  {
    var lambda := LambdaForm(ListOf(Names(bs)), body);
    ParamsOfNames(bs);
    LambdaCompiles(ListOf(Names(bs)), body, true, a);
    OneCompiles(lambda, a);
    OneCompiles(call, b);
    assert Inits([Binding(loop, lambda)]) == [lambda];
    LetrecCompiles([Binding(loop, lambda)], [call], a, b);
  }

  /** The expression that a body becomes. */
  lemma LoneScopeExact(body: Datum, xs: seq<Datum>)
    requires ToSeq(body) == Some(xs)
    ensures ScopeCompiles(ListOf([BeginForm(xs)]), F.LoneScopeFormed(body))
    ensures Compiles(BeginForm(xs), F.AllFormed(body))
    decreases Size(body), 4
  {
    F.Smaller(body);
    ListExact(body);
    BeginCompiles(xs, F.AllFormed(body));
    if body.Pair? && body.cdr.Nil? {
      OneList(body);
      ScopeExact(body);
    } else {
      LoneCompiles(BeginForm(xs), F.AllFormed(body));
    }
  }

  lemma LetStarExact(rest: Datum)
    ensures if ExpandLetStar(rest).Ok? then Compiles(ExpandLetStar(rest).value, F.OperandsFormed(LetStar, rest))
            else !F.OperandsFormed(LetStar, rest)
    decreases Size(rest), 6
  {
    F.Smaller(rest);
    assert F.OperandsFormed(LetStar, rest) <==>
           && rest.Pair? && F.BindingsFormed(rest.car)
           && if rest.car.Nil? then F.AllFormed(rest.cdr) else F.LoneScopeFormed(rest.cdr);
    if rest.Pair? {
      BindingsExact(LetStar, rest.car);
      ScopeIsProper(rest.cdr);
      Parts(rest);
      if ExpandLetStar(rest).Ok? {
        StarCompiles(rest, Bindings(LetStar, rest.car).value, ToSeq(rest.cdr).value);
      }
    }
  }

  lemma StarCompiles(rest: Datum, bs: seq<Binding>, xs: seq<Datum>)
    requires rest.Pair? && Bindings(LetStar, rest.car) == Ok(bs) && ToSeq(rest.cdr) == Some(xs)
    requires ExpandLetStar(rest).Ok? && ToSeq(rest) == Some([rest.car] + xs)
    ensures Compiles(ExpandLetStar(rest).value, F.BindingsFormed(rest.car)
                     && if rest.car.Nil? then F.AllFormed(rest.cdr) else F.LoneScopeFormed(rest.cdr))
    decreases Size(rest), 5
  {
    F.Smaller(rest);
    assert ([rest.car] + xs)[1..] == xs;
    LoneScopeExact(rest.cdr, xs);
    if bs != [] {
      StarExact(rest.car, BeginForm(xs), F.LoneScopeFormed(rest.cdr));
      StarStep(rest, bs, xs);
    }
  }

  /** The let* over the body as one expression. */
  lemma StarStep(rest: Datum, bs: seq<Binding>, xs: seq<Datum>)
    requires rest.Pair? && Bindings(LetStar, rest.car) == Ok(bs) && bs != [] && ToSeq(rest.cdr) == Some(xs)
    ensures ExpandLetStar(rest) == ExpandLetStar(Pair(ListOf(BindingList(bs)), ListOf([BeginForm(xs)])))
  {
    var z := BeginForm(xs);
    var whole := Pair(ListOf(BindingList(bs)), ListOf([z]));
    BindingsOfList(LetStar, bs);
    ToSeqListOf([z]);
    assert ToSeq(whole) == Some([whole.car] + [z]);
    assert ([whole.car] + [z])[1..] == [z];
    assert ToSeq(rest).value[1..] == xs;
  }

  /** What a let* over one expression becomes. */
  lemma {:induction false} StarExact(bds: Datum, z: Datum, b: bool)
    requires Bindings(LetStar, bds).Ok? && bds.Pair? && ScopeCompiles(ListOf([z]), b)
    ensures var r := ExpandLetStar(Pair(ListOf(BindingList(Bindings(LetStar, bds).value)), ListOf([z])));
            r.Ok? && Compiles(r.value, F.BindingsFormed(bds) && b)
    decreases Size(bds), 1
  {
    F.Smaller(bds);
    var bs := Bindings(LetStar, bds).value;
    var more := Bindings(LetStar, bds.cdr).value;
    assert bs == [bs[0]] + more;
    BindingsOfList(LetStar, bs);
    ToSeqListOf([z]);
    StarStep(Pair(ListOf(BindingList(bs)), ListOf([z])), bs, [z]);
    assert ToSeq(Pair(ListOf(BindingList(bs)), ListOf([z]))).value == [ListOf(BindingList(bs))] + [z];
    assert ([ListOf(BindingList(bs))] + [z])[1..] == [z] && BeginForm([z]) == z;
    BindingsExact(LetStar, bds);
    if |bs| == 1 {
      LetCompiles(bs, ListOf([z]), F.BindingsFormed(bds), b);
    } else {
      Exact(bds.car.cdr.car);
      StarExact(bds.cdr, z, b);
      var inner := LetForm(LetStar, more, ListOf([z]));
      var operands := Pair(ListOf(BindingList(more)), ListOf([z]));
      Expands(LetStar, operands, F.BindingsFormed(bds.cdr) && b);
      assert bs[1..] == more;
      LetOneCompiles(bs[0].name, bs[0].init, inner, F.Formed(bs[0].init), F.BindingsFormed(bds.cdr) && b);
    }
  }

  lemma LetrecExact(rest: Datum)
    ensures if ExpandLetrec(rest).Ok? then Compiles(ExpandLetrec(rest).value, F.OperandsFormed(Letrec, rest))
            else !F.OperandsFormed(Letrec, rest)
    decreases Size(rest), 6
  {
    F.Smaller(rest);
    if rest.Pair? {
      BindingsExact(Letrec, rest.car);
      ScopeIsProper(rest.cdr);
      if ExpandLetrec(rest).Ok? {
        var bs, xs := Bindings(Letrec, rest.car).value, ToSeq(rest.cdr).value;
        assert ToSeq(rest).value[1..] == xs;
        LoneScopeExact(rest.cdr, xs);
        ListExact(rest.cdr);
        FillCompiles(bs, xs, F.BindingsFormed(rest.car),
                     if bs == [] then F.LoneScopeFormed(rest.cdr) else F.AllFormed(rest.cdr));
      }
    }
  }

  // ---- Connectives ----

  lemma AndOrExact(k: Keyword, rest: Datum, g: nat)
    requires k == And || k == Or
    ensures if ExpandForm(k, rest, g).Ok? then Compiles(ExpandForm(k, rest, g).value.0, F.OperandsFormed(k, rest))
            else !F.OperandsFormed(k, rest)
    decreases Size(rest), 6
  {
    ScopeIsProper(rest);
    if ToSeq(rest).Some? {
      if k == And {
        AndExact(rest, ToSeq(rest).value);
      } else {
        OrExact(rest, ToSeq(rest).value, g);
      }
    }
  }

  lemma {:induction false} AndExact(x: Datum, xs: seq<Datum>)
    requires ToSeq(x) == Some(xs)
    ensures Compiles(ExpandAnd(xs), F.AllFormed(x))
    decreases Size(x), 1
  {
    if xs == [] {
      assert Compiles(Bool(true), true);
    } else {
      Parts(x);
      assert xs[1..] == ToSeq(x.cdr).value;
      Exact(x.car);
      if |xs| > 1 {
        AndExact(x.cdr, xs[1..]);
        assert Compiles(Bool(false), true);
        IfCompiles(xs[0], ExpandAnd(xs[1..]), Bool(false), F.Formed(x.car), F.AllFormed(x.cdr), true);
      } else {
        Parts(x.cdr);
      }
    }
  }

  lemma {:induction false} OrExact(x: Datum, xs: seq<Datum>, g: nat)
    requires ToSeq(x) == Some(xs)
    ensures Compiles(ExpandOr(xs, g).0, F.AllFormed(x))
    decreases Size(x), 1
  {
    if xs == [] {
      assert Compiles(Bool(false), true);
    } else {
      Parts(x);
      assert xs[1..] == ToSeq(x.cdr).value;
      Exact(x.car);
      if |xs| > 1 {
        OrExact(x.cdr, xs[1..], g + 1);
        TempCompiles(Gensym("or", g + 1), xs[0], ExpandOr(xs[1..], g + 1).0, F.Formed(x.car), F.AllFormed(x.cdr));
      } else {
        Parts(x.cdr);
      }
    }
  }

  // ---- Clauses ----

  lemma {:induction false} CondExact(rest: Datum, g: nat)
    ensures if ExpandCond(rest, g).Ok? then Compiles(ExpandCond(rest, g).value.0, F.ClausesFormed(rest))
            else !F.ClausesFormed(rest)
    decreases Size(rest), 6
  {
    F.Smaller(rest);
    if rest.Nil? {
      assert Compiles(Sym(Known(Undef)), true);
    } else if rest.Pair? && rest.car.Pair? {
      var test, body, more := rest.car.car, rest.car.cdr, rest.cdr;
      ListExact(body);
      if ToSeq(body).Some? {
        BeginCompiles(ToSeq(body).value, F.AllFormed(body));
      }
      if !IsSymbol(test, Else) {
        Exact(test);
        CondExact(more, if body.Nil? then g + 1 else g);
        ClauseCompiles(test, body, more, g);
      }
    }
  }

  /** A clause but for the last. */
  lemma ClauseCompiles(test: Datum, body: Datum, more: Datum, g: nat)
    requires !IsSymbol(test, Else) && Compiles(test, F.Formed(test))
    requires if ToSeq(body).Some? then Compiles(BeginForm(ToSeq(body).value), F.AllFormed(body)) else !F.AllFormed(body)
    requires var r := ExpandCond(more, if body.Nil? then g + 1 else g);
             if r.Ok? then Compiles(r.value.0, F.ClausesFormed(more)) else !F.ClausesFormed(more)
    ensures var r, all := ExpandCond(Pair(Pair(test, body), more), g), Pair(Pair(test, body), more);
            if r.Ok? then Compiles(r.value.0, F.ClausesFormed(all)) else !F.ClausesFormed(all)
  {
    var all := Pair(Pair(test, body), more);
    assert F.ClausesFormed(all) <==> F.Formed(test) && F.AllFormed(body) && F.ClausesFormed(more);
    if ExpandCond(all, g).Ok? {
      var els := ExpandCond(more, if body.Nil? then g + 1 else g).value.0;
      if body.Nil? {
        TempCompiles(Gensym("cond", g + 1), test, els, F.Formed(test), F.ClausesFormed(more));
      } else {
        IfCompiles(test, BeginForm(ToSeq(body).value), els, F.Formed(test), F.AllFormed(body), F.ClausesFormed(more));
      }
    }
  }

  lemma {:induction false} CasesShaped(t: Symbol, cs: Datum)
    ensures CaseClauses(t, cs).Ok? <==> F.CasesShaped(cs)
    ensures F.CasesFormed(cs) ==> F.CasesShaped(cs)
  {
    if cs.Pair? && cs.car.Pair? {
      CasesShaped(t, cs.cdr);
      ProperIs(cs.car.cdr);
    }
  }

  lemma {:induction false} ProperIs(x: Datum)
    ensures F.Proper(x) <==> ToSeq(x).Some?
    ensures F.AllFormed(x) ==> F.Proper(x)
  {
    if x.Pair? {
      ProperIs(x.cdr);
    }
  }

  lemma {:induction false} CasesExact(t: Symbol, cs: Datum, g: nat)
    requires CaseClauses(t, cs).Ok? && t.Name?
    ensures var r := ExpandCond(ListOf(CaseClauses(t, cs).value), g);
            if r.Ok? then Compiles(r.value.0, F.CasesFormed(cs)) else !F.CasesFormed(cs)
    decreases Size(cs), 1
  {
    F.Smaller(cs);
    if cs.Nil? {
      assert Compiles(Sym(Known(Undef)), true);
    } else {
      var head, body, more := cs.car.car, cs.car.cdr, cs.cdr;
      var xs, rest := ToSeq(body).value, CaseClauses(t, more).value;
      ListExact(body);
      BeginCompiles(xs, F.AllFormed(body));
      ToSeqListOf(xs);
      if IsSymbol(head, Else) {
        ElseCase(t, cs, xs, rest, g);
        CasesShaped(t, more);
      } else {
        var g1 := if xs == [] then g + 1 else g;
        CasesExact(t, more, g1);
        var test := MemvTest(t, head);
        MemvCompiles(t, head);
        assert CaseClauses(t, cs).value == [Pair(test, ListOf(xs))] + rest;
        assert ([Pair(test, ListOf(xs))] + rest)[1..] == rest;
        CaseCompiles(test, xs, ListOf(rest), g, F.AllFormed(body), F.CasesFormed(more));
      }
    }
  }

  function MemvTest(t: Symbol, head: Datum): Datum {
    ListOf([Sym(Known(Memv)), Sym(t), ListOf([Sym(Known(Quote)), head])])
  }

  lemma ElseCase(t: Symbol, cs: Datum, xs: seq<Datum>, rest: seq<Datum>, g: nat)
    requires cs.Pair? && cs.car.Pair? && IsSymbol(cs.car.car, Else) && ToSeq(cs.car.cdr) == Some(xs)
    requires CaseClauses(t, cs.cdr) == Ok(rest)
    ensures ExpandCond(ListOf(CaseClauses(t, cs).value), g) == Ok((BeginForm(xs), g))
  {
    var clause := Pair(Sym(Known(Else)), ListOf(xs));
    assert CaseClauses(t, cs).value == [clause] + rest;
    assert ([clause] + rest)[1..] == rest;
    ToSeqListOf(xs);
  }

  lemma MemvCompiles(t: Symbol, head: Datum)
    ensures Compiles(MemvTest(t, head), true)
  {
    var key := ListOf([Sym(Known(Quote)), head]);
    QuoteCompiles(head);
    assert Compiles(Sym(t), true) && Compiles(Sym(Known(Memv)), true);
    OneCompiles(key, true);
    MoreCompile(Sym(t), [key], true, true);
    assert [Sym(t)] + [key] == [Sym(t), key] && [Sym(Known(Memv)), Sym(t), key][1..] == [Sym(t), key];
    CallCompiles(Sym(Known(Memv)), [Sym(t), key], true, true);
  }

  lemma CaseCompiles(test: Datum, xs: seq<Datum>, more: Datum, g: nat, a: bool, b: bool)
    requires test.Pair? && Compiles(test, true) && Compiles(BeginForm(xs), a)
    requires var r := ExpandCond(more, if xs == [] then g + 1 else g); if r.Ok? then Compiles(r.value.0, b) else !b
    requires xs == [] ==> a
    ensures var r := ExpandCond(Pair(Pair(test, ListOf(xs)), more), g);
            if r.Ok? then Compiles(r.value.0, a && b) else !(a && b)
  {
    ToSeqListOf(xs);
    if ExpandCond(more, if xs == [] then g + 1 else g).Ok? {
      var els := ExpandCond(more, if xs == [] then g + 1 else g).value.0;
      if xs == [] {
        TempCompiles(Gensym("cond", g + 1), test, els, true, b);
      } else {
        IfCompiles(test, BeginForm(xs), els, true, a, b);
      }
    }
  }

  lemma CaseExact(rest: Datum, g: nat)
    ensures if ExpandCase(rest, g).Ok? then Compiles(ExpandCase(rest, g).value.0, F.OperandsFormed(Case, rest))
            else !F.OperandsFormed(Case, rest)
    decreases Size(rest), 6
  {
    F.Smaller(rest);
    assert F.OperandsFormed(Case, rest) <==> rest.Pair? && F.Formed(rest.car) && F.CasesFormed(rest.cdr);
    if rest.Pair? {
      var t := Gensym("case", g + 1);
      CasesShaped(t, rest.cdr);
      ShapedIsProper(rest.cdr);
      Parts(rest);
      if CaseClauses(t, rest.cdr).Ok? {
        Exact(rest.car);
        var clauses := ListOf(CaseClauses(t, rest.cdr).value);
        CasesCompile(t, rest.cdr);
        LetOneCompiles(t, rest.car, Pair(Sym(Known(Cond)), clauses), F.Formed(rest.car), F.CasesFormed(rest.cdr));
      }
    }
  }

  lemma CasesCompile(t: Symbol, cs: Datum)
    requires CaseClauses(t, cs).Ok? && t.Name?
    ensures Compiles(Pair(Sym(Known(Cond)), ListOf(CaseClauses(t, cs).value)), F.CasesFormed(cs))
    decreases Size(cs), 2
  {
    var clauses := ListOf(CaseClauses(t, cs).value);
    forall g: nat
      ensures if ExpandForm(Cond, clauses, g).Ok? then
                Compiles(ExpandForm(Cond, clauses, g).value.0, F.CasesFormed(cs))
              else !F.CasesFormed(cs)
    {
      CasesExact(t, cs, g);
    }
    Expands(Cond, clauses, F.CasesFormed(cs));
  }

  lemma {:induction false} ShapedIsProper(cs: Datum)
    ensures F.CasesShaped(cs) ==> ToSeq(cs).Some?
  {
    if cs.Pair? {
      ShapedIsProper(cs.cdr);
    }
  }

  // ---- Do ----

  lemma {:induction false} SpecsExact(x: Datum) returns (a: bool, b: bool)
    ensures ToSeq(x).None? ==> !F.SpecsFormed(x)
    ensures ToSeq(x).Some? ==>
              var r := DoSpecs(ToSeq(x).value);
              if r.Ok? then
                && AllCompile(SpecInits(r.value), a) && AllCompile(SpecSteps(r.value), b)
                && (F.SpecsFormed(x) <==> a && b)
              else !F.SpecsFormed(x)
    decreases Size(x), 1
  {
    a, b := true, true;
    if x.Pair? {
      F.Smaller(x);
      Parts(x);
      a, b := SpecsExact(x.cdr);
      if ToSeq(x).Some? {
        var xs, more := ToSeq(x).value, ToSeq(x.cdr).value;
        assert xs[0] == x.car && xs[1..] == more;
        if DoSpecs(xs).Ok? {
          var c, d := SpecExact(x.car);
          SpecsCompile(xs, c, d, a, b);
          a, b := a && c, b && d;
        } else {
          SpecsRefused(x);
        }
      }
    } else {
      assert SpecInits([]) == [] && SpecSteps([]) == [];
    }
  }

  lemma SpecsCompile(xs: seq<Datum>, c: bool, d: bool, a: bool, b: bool)
    requires xs != [] && DoSpecs(xs).Ok?
    requires Compiles(DoSpecs(xs).value[0].init, c) && Compiles(DoSpecs(xs).value[0].step, d)
    requires AllCompile(SpecInits(DoSpecs(xs[1..]).value), a) && AllCompile(SpecSteps(DoSpecs(xs[1..]).value), b)
    ensures AllCompile(SpecInits(DoSpecs(xs).value), a && c) && AllCompile(SpecSteps(DoSpecs(xs).value), b && d)
  {
    var specs, more := DoSpecs(xs).value, DoSpecs(xs[1..]).value;
    assert specs == [specs[0]] + more;
    SpecsParts(specs[0], more);
    MoreCompile(specs[0].init, SpecInits(more), c, a);
    MoreCompile(specs[0].step, SpecSteps(more), d, b);
  }

  lemma SpecsParts(spec: DoSpec, more: seq<DoSpec>)
    ensures SpecInits([spec] + more) == [spec.init] + SpecInits(more)
    ensures SpecSteps([spec] + more) == [spec.step] + SpecSteps(more)
  {
  }

  lemma SpecExact(x: Datum) returns (c: bool, d: bool)
    requires x.Pair? && x.car.Sym? && x.cdr.Pair? && (x.cdr.cdr.Nil? || x.cdr.cdr.Pair?)
    ensures Compiles(x.cdr.car, c) && Compiles(if x.cdr.cdr.Nil? then Sym(x.car.name) else x.cdr.cdr.car, d)
    ensures F.SpecFormed(x) <==> c && d
    decreases Size(x), 0
  {
    F.Smaller(x);
    Exact(x.cdr.car);
    c, d := F.Formed(x.cdr.car), true;
    if x.cdr.cdr.Nil? {
      assert Compiles(Sym(x.car.name), true);
    } else {
      Exact(x.cdr.cdr.car);
      d := F.Formed(x.cdr.cdr.car);
    }
  }

  lemma SpecsRefused(x: Datum)
    requires x.Pair? && ToSeq(x).Some? && DoSpecs(ToSeq(x).value).Err?
    requires ToSeq(x).value == [x.car] + ToSeq(x.cdr).value
    requires DoSpecs(ToSeq(x.cdr).value).Ok? || !F.SpecsFormed(x.cdr)
    ensures !F.SpecsFormed(x)
  {
    assert ([x.car] + ToSeq(x.cdr).value)[1..] == ToSeq(x.cdr).value;
  }

  lemma DoExact(rest: Datum, g: nat)
    ensures if ExpandDo(rest, g).Ok? then Compiles(ExpandDo(rest, g).value.0, F.DoFormed(rest)) else !F.DoFormed(rest)
    decreases Size(rest), 6
  {
    F.Smaller(rest);
    if rest.Pair? && rest.cdr.Pair? && rest.cdr.car.Pair? {
      var test, result, commands := rest.cdr.car.car, rest.cdr.car.cdr, rest.cdr.cdr;
      var a, b := SpecsExact(rest.car);
      Exact(test);
      ListExact(result);
      ListExact(commands);
      Parts(rest);
      Parts(rest.cdr);
      if ExpandDo(rest, g).Ok? {
        var specs := DoSpecs(ToSeq(rest.car).value).value;
        assert ToSeq(rest).value[2..] == ToSeq(commands).value;
        DoCompiles(Gensym("loop", g + 1), specs, test, ToSeq(result).value, ToSeq(commands).value, a, b,
                   F.Formed(test), F.AllFormed(result), F.AllFormed(commands));
      }
    }
  }

  lemma DoCompiles(loop: Symbol, specs: seq<DoSpec>, test: Datum, result: seq<Datum>, commands: seq<Datum>, a: bool,
                   b: bool, c: bool, d: bool, e: bool)
    requires loop.Name? && AllCompile(SpecInits(specs), a) && AllCompile(SpecSteps(specs), b) && Compiles(test, c)
    requires AllCompile(result, d) && AllCompile(commands, e)
    ensures Compiles(DoLoop(loop, specs, test, result, commands), a && b && c && d && e)
  {
    var again := Pair(Sym(loop), ListOf(SpecSteps(specs)));
    assert Compiles(Sym(loop), true);
    CallCompiles(Sym(loop), SpecSteps(specs), true, b);
    CallCompiles(Sym(loop), SpecInits(specs), true, a);
    OneCompiles(again, b);
    ConcatCompiles(commands, [again], e, b);
    BeginCompiles(commands + [again], e && b);
    BeginCompiles(result, d);
    var step := IfForm(test, BeginForm(result), BeginForm(commands + [again]));
    IfCompiles(test, BeginForm(result), BeginForm(commands + [again]), c, d, e && b);
    LoneCompiles(step, c && d && e && b);
    var bs := seq(|specs|, i requires 0 <= i < |specs| => Binding(specs[i].name, specs[i].init));
    assert Names(bs) == SpecNames(specs);
    LoopCompiles(loop, bs, ListOf([step]), Pair(Sym(loop), ListOf(SpecInits(specs))), c && d && e && b, a);
  }

  // ---- Templates ----

  lemma QuasiquoteExact(rest: Datum)
    ensures if Operands(Quasiquote, rest, 1, 1).Ok? && Quasi(rest.car).Ok? then
              Compiles(Quasi(rest.car).value, F.OperandsFormed(Quasiquote, rest))
            else !F.OperandsFormed(Quasiquote, rest)
    decreases Size(rest), 6
  {
    OneOperand(Quasiquote, rest);
    if rest.Pair? {
      TemplateExact(rest.car);
    }
  }

  lemma {:induction false} TemplateExact(x: Datum)
    ensures if Quasi(x).Ok? then Compiles(Quasi(x).value, F.TemplateFormed(x)) else !F.TemplateFormed(x)
    decreases Size(x), 0
  {
    F.Smaller(x);
    match x
    case Pair(a, d) =>
      if IsSymbol(a, Unquote) {
        if d.Pair? { Exact(d.car); }
      } else if IsSymbol(a, Splice) {
      } else {
        TemplateExact(d);
        if IsForm(a, Unquote) || IsForm(a, Splice) {
          UnquotedExact(a, d);
        } else {
          ElementExact(a, d);
        }
      }
    case Vec(es) =>
      SizeListOf(es);
      TemplateExact(ListOf(es));
      if Quasi(ListOf(es)).Ok? {
        VectorCompiles(Quasi(ListOf(es)).value, F.TemplateFormed(ListOf(es)));
      }
    case _ => QuoteCompiles(x);
  }

  lemma UnquotedExact(a: Datum, d: Datum)
    requires IsForm(a, Unquote) || IsForm(a, Splice)
    requires if Quasi(d).Ok? then Compiles(Quasi(d).value, F.TemplateFormed(d)) else !F.TemplateFormed(d)
    ensures var x := Pair(a, d);
            if Quasi(x).Ok? then Compiles(Quasi(x).value, F.TemplateFormed(x)) else !F.TemplateFormed(x)
    decreases Size(a), 10
  {
    F.Smaller(a);
    if a.cdr.Pair? {
      Exact(a.cdr.car);
      if Quasi(d).Ok? {
        BuildCompiles(if IsForm(a, Unquote) then Cons else Append, a.cdr.car, Quasi(d).value, F.Formed(a.cdr.car),
                      F.TemplateFormed(d));
      }
    }
  }

  lemma ElementExact(a: Datum, d: Datum)
    requires !IsSymbol(a, Unquote) && !IsSymbol(a, Splice) && !IsForm(a, Unquote) && !IsForm(a, Splice)
    requires if Quasi(d).Ok? then Compiles(Quasi(d).value, F.TemplateFormed(d)) else !F.TemplateFormed(d)
    ensures var x := Pair(a, d);
            if Quasi(x).Ok? then Compiles(Quasi(x).value, F.TemplateFormed(x)) else !F.TemplateFormed(x)
    decreases Size(a), 10
  {
    if a.Pair? {
      TemplateExact(a);
      if Quasi(a).Ok? && Quasi(d).Ok? {
        BuildCompiles(Cons, Quasi(a).value, Quasi(d).value, F.TemplateFormed(a), F.TemplateFormed(d));
      }
    } else {
      QuoteCompiles(a);
      if Quasi(d).Ok? {
        BuildCompiles(Cons, ListOf([Sym(Known(Quote)), a]), Quasi(d).value, true, F.TemplateFormed(d));
      }
    }
  }

  lemma QuoteCompiles(x: Datum)
    ensures Compiles(ListOf([Sym(Known(Quote)), x]), true)
  {
    assert [Sym(Known(Quote)), x][1..] == [x];
    ListOfOne(x);
    OneList(Pair(x, Nil));
    forall g: nat ensures Desugar(ListOf([Sym(Known(Quote)), x]), g).Ok? {
      DesugarSpecial(Quote, Pair(x, Nil), g);
    }
  }

  lemma BuildCompiles(f: Keyword, x: Datum, y: Datum, a: bool, b: bool)
    requires (f == Cons || f == Append) && Compiles(x, a) && Compiles(y, b)
    ensures Compiles(ListOf([Sym(Known(f)), x, y]), a && b)
  {
    assert [Sym(Known(f)), x, y][1..] == [x] + [y];
    assert Compiles(Sym(Known(f)), true);
    OneCompiles(y, b);
    MoreCompile(x, [y], a, b);
    CallCompiles(Sym(Known(f)), [x] + [y], true, a && b);
  }

  lemma VectorCompiles(x: Datum, b: bool)
    requires Compiles(x, b)
    ensures Compiles(ListOf([Sym(Known(ListToVector)), x]), b)
  {
    assert [Sym(Known(ListToVector)), x][1..] == [x];
    assert Compiles(Sym(Known(ListToVector)), true);
    OneCompiles(x, b);
    CallCompiles(Sym(Known(ListToVector)), [x], true, b);
  }

  // ---- The result ----

  /** For every expression and counter: it desugars exactly if it is well formed. */
  lemma DesugarsExactly(x: Datum, g: nat)
    ensures Desugar(x, g).Ok? <==> F.Formed(x)
  {
    Exact(x);
  }

  /** What a well-formed expression desugars to, and the counter after it. */
  function CoreOf(x: Datum, g: nat): (r: (Core, nat))
    requires F.Formed(x)
    ensures Desugar(x, g) == Ok(r)
  {
    DesugarsExactly(x, g);
    Desugar(x, g).value
  }
}
