/** Why hygiene: programs without it, whose expansions mean something else than they say. */
module Unhygienic {
  import opened Wrappers
  import opened Datums
  import opened Symbols
  import opened Expand
  import opened Iteration
  import opened Shapes
  import C = CoreLanguage
  import M = Machine
  import R = Reference
  import D = Direct
  import opened Surface
  import opened Lowering
  import opened Hygiene
  import opened Rules
  import opened Agreement
  import DirectSimulation
  import Meaning
  import Correctness

  // ---- Expressions that do desugar ----

  lemma AppliedDesugars(bs: seq<Binding>, z: Datum, g: nat)
    requires !IsForm(z, Keyword.Define) && C.DesugarArgs(Inits(bs), g).Ok?
    requires C.Desugar(z, C.DesugarArgs(Inits(bs), g).value.1).Ok?
    ensures C.Desugar(LetForm(Keyword.Let, bs, ListOf([z])), g).Ok?
  {
    var head := LambdaForm(ListOf(Names(bs)), ListOf([z]));
    var g1 := C.DesugarArgs(Inits(bs), g).value.1;
    DesugarLet(bs, [z], g);
    DesugarCombination(head, Inits(bs), g);
    ToSeqListOf([z]);
    DesugarLambdaForm(ListOf(Names(bs)), ListOf([z]), g1);
    ParamsOfNames(bs);
    ScanOne(z);
    DesugarOne(z, g1);
  }

  lemma LetDesugars(y: Symbol, a: Datum, z: Datum, g: nat)
    requires !IsForm(z, Keyword.Define) && C.Desugar(a, g).Ok? && C.Desugar(z, C.Desugar(a, g).value.1).Ok?
    ensures C.Desugar(LetForm(Keyword.Let, [Binding(y, a)], ListOf([z])), g).Ok?
  {
    var xs := Inits([Binding(y, a)]);
    assert xs == [a] && xs[1..] == [];
    assert C.DesugarArgs(xs, g).Ok?;
    DesugarArgsOne(a, g);
    AppliedDesugars([Binding(y, a)], z, g);
  }

  lemma IfDesugars(a: Datum, b: Datum, c: Datum, g: nat)
    requires C.Desugar(a, g).Ok? && C.Desugar(b, C.Desugar(a, g).value.1).Ok?
    requires C.Desugar(c, C.Desugar(b, C.Desugar(a, g).value.1).value.1).Ok?
    ensures C.Desugar(IfForm(a, b, c), g).Ok?
  {
    var xs := [a, b, c];
    ToSeqListOf(xs);
    IfOperandsDesugar(ListOf(xs), xs, g);
    IfIsSpecial(a, b, c, g);
  }

  lemma IfIsSpecial(a: Datum, b: Datum, c: Datum, g: nat)
    ensures C.Desugar(IfForm(a, b, c), g) == C.DesugarForm(Keyword.If, ListOf([a, b, c]), g)
  {
    assert [Sym(Known(Keyword.If)), a, b, c][1..] == [a, b, c];
    DesugarSpecial(Keyword.If, ListOf([a, b, c]), g);
  }

  lemma IfOperandsDesugar(rest: Datum, xs: seq<Datum>, g: nat)
    requires ToSeq(rest) == Some(xs) && |xs| == 3
    requires C.Desugar(xs[0], g).Ok? && C.Desugar(xs[1], C.Desugar(xs[0], g).value.1).Ok?
    requires C.Desugar(xs[2], C.Desugar(xs[1], C.Desugar(xs[0], g).value.1).value.1).Ok?
    ensures C.DesugarForm(Keyword.If, rest, g).Ok?
  {
  }

  // ---- Runs ----

  ghost predicate Reaches(P: M.Primitives, r: R.Config, r': R.Config) {
    exists n: nat :: R.Steps(P, r, n) == r'
  }

  /** Evaluation from r ends with v. */
  ghost predicate EndsWith(P: M.Primitives, r: R.Config, v: M.Value) {
    exists n: nat :: R.Steps(P, r, n).Done? && R.Steps(P, r, n).v == v
  }

  lemma ReachesEnd(P: M.Primitives, r: R.Config, v: M.Value, s: R.RefStore)
    requires Reaches(P, r, R.Done(v, s))
    ensures EndsWith(P, r, v)
  {
    var n: nat :| R.Steps(P, r, n) == R.Done(v, s);
  }

  lemma Here(P: M.Primitives, r: R.Config)
    ensures Reaches(P, r, r)
  {
    assert R.Steps(P, r, 0) == r;
  }

  lemma Earlier(P: M.Primitives, r: R.Config, r': R.Config)
    requires Reaches(P, R.Next(P, r), r')
    ensures Reaches(P, r, r')
  {
    var n: nat :| R.Steps(P, R.Next(P, r), n) == r';
    assert R.Advance(P)(r) == R.Next(P, r);
    assert R.Steps(P, r, n + 1) == r';
  }

  /** The store of a procedure applied where it is written to one value. */
  function Bound(y: Symbol, v: M.Value, body: Core, env: R.Env, s: R.RefStore): R.RefStore {
    s.(closures := s.closures + [R.RefClosure([y], None, body, env)], frames := s.frames + [[v]])
  }

  /** `((lambda (y) body) 'x)`. */
  lemma LetRuns(P: M.Primitives, y: Symbol, x: Datum, body: Core, env: R.Env, k: R.Kont, s: R.RefStore, r: R.Config)
    requires Reaches(P, R.Eval(body, [R.Rib([y], |s.frames|)] + env, k, Bound(y, M.Lit(x), body, env, s)), r)
    ensures Reaches(P, R.Eval(C.Call(C.Fun([y], None, body), [C.Const(x)]), env, k, s), r)
  {
    var f, v := C.Fun([y], None, body), M.Lit(x);
    var waiting := R.Argument([], [], f, false, env, k);
    assert [C.Const(x)][1..] == [];
    var r1 := R.Eval(C.Const(x), env, waiting, s);
    var r2 := R.Return(v, waiting, s);
    assert [] + [v] == [v];
    var r3 := R.Eval(f, env, R.Operator([v], k), s);
    OperatorRuns(P, y, v, body, env, k, s, r);
    Earlier(P, r2, r);
    Earlier(P, r1, r);
    Earlier(P, R.Eval(C.Call(f, [C.Const(x)]), env, k, s), r);
  }

  lemma OperatorRuns(P: M.Primitives, y: Symbol, v: M.Value, body: Core, env: R.Env, k: R.Kont, s: R.RefStore,
                     r: R.Config)
    requires Reaches(P, R.Eval(body, [R.Rib([y], |s.frames|)] + env, k, Bound(y, v, body, env, s)), r)
    ensures Reaches(P, R.Eval(C.Fun([y], None, body), env, R.Operator([v], k), s), r)
  {
    var clo := R.RefClosure([y], None, body, env);
    var r1 := R.Return(M.Closure(|s.closures|), R.Operator([v], k), s.(closures := s.closures + [clo]));
    Earlier(P, r1, r);
    Earlier(P, R.Eval(C.Fun([y], None, body), env, R.Operator([v], k), s), r);
  }

  // ---- A name that an `or` generates ----

  /** `(or #f y)`. */
  function OrForm(y: Symbol): Datum {
    Pair(Sym(Known(Keyword.Or)), ListOf([Bool(false), Sym(y)]))
  }

  /** `(let ((y x)) (or #f y))`. */
  function Capture(y: Symbol, x: Datum): Datum {
    LetForm(Keyword.Let, [Binding(y, x)], ListOf([OrForm(y)]))
  }

  /** What `(or #f y)` becomes when the generated name is y too. */
  function Captured(y: Symbol): Core {
    TempTerm(y, C.Const(Bool(false)), C.Ref(y))
  }

  function CapturedLet(y: Symbol, x: Datum): Core {
    C.Call(C.Fun([y], None, Captured(y)), [C.Const(x)])
  }

  /** Data that evaluates to itself. */
  predicate IsLiteral(x: Datum) {
    x.Nil? || x.Bool? || x.Int? || x.Str?
  }

  lemma OrDesugars(g: nat)
    ensures var y := OrName(g + 1); C.Desugar(OrForm(y), g) == Ok((Captured(y), g + 1))
  {
    var y := OrName(g + 1);
    var xs := [Bool(false), Sym(y)];
    ToSeqListOf(xs);
    DesugarDerived(Keyword.Or, ListOf(xs), g);
    assert xs[1..] == [Sym(y)];
    assert ExpandOr([Sym(y)], g + 1) == (Sym(y), g + 1);
    var z := IfForm(Sym(y), Sym(y), Sym(y));
    assert ExpandOr(xs, g) == (LetForm(Keyword.Let, [Binding(y, Bool(false))], ListOf([z])), g + 1);
    assert C.Desugar(Sym(y), g + 1) == Ok((C.Ref(y), g + 1));
    assert C.Desugar(Bool(false), g + 1) == Ok((C.Const(Bool(false)), g + 1));
    IfDesugars(Sym(y), Sym(y), Sym(y), g + 1);
    LetDesugars(y, Bool(false), z, g + 1);
    DesugarTemp(y, Bool(false), Sym(y), g + 1);
  }

  lemma CaptureDesugars(x: Datum, g: nat)
    requires IsLiteral(x)
    ensures var y := OrName(g + 1); C.Desugar(Capture(y, x), g) == Ok((CapturedLet(y, x), g + 1))
  {
    var y := OrName(g + 1);
    OrDesugars(g);
    assert C.Desugar(x, g) == Ok((C.Const(x), g));
    LetDesugars(y, x, OrForm(y), g);
    DesugarLetOne(y, x, OrForm(y), g);
  }

  lemma CaptureParses(y: Symbol, x: Datum)
    requires IsLiteral(x)
    ensures Parse(Capture(y, x)) == Some(Form.Let([y], [Quoted(x)], Ors(y)))
  {
    var or := OrForm(y);
    OrParses(y);
    BindingIs(Binding(y, x));
    var bs := ListOf(BindingList([Binding(y, x)]));
    assert BindingList([Binding(y, x)]) == [Binding(y, x).ToDatum()];
    ListOfOne(Binding(y, x).ToDatum());
    assert bs == Pair(Pair(Sym(y), Pair(x, Nil)), Nil);
    assert ParseBindings(Nil) == Some(([], [])) && Parse(x) == Some(Quoted(x));
    assert [y] + [] == [y] && [Quoted(x)] + [] == [Quoted(x)];
    assert ParseBindings(bs) == Some(([y], [Quoted(x)]));
    ListOfOne(or);
    var body := Pair(or, Nil);
    assert or == Pair(Sym(Known(Keyword.Or)), or.cdr) && !IsForm(or, Keyword.Define);
    assert ParseBody(body) == Parse(or);
    assert ParseScoped(body) == ParseBody(body);
    var rest := Pair(bs, body);
    assert Parse(Capture(y, x)) == ParseSyntax(Keyword.Let, rest) == ParseDerived(Keyword.Let, rest);
  }

  lemma OrParses(y: Symbol)
    ensures Parse(OrForm(y)) == Some(Ors(y))
  {
    var xs := [Bool(false), Sym(y)];
    ListOfOne(Sym(y));
    assert xs[1..] == [Sym(y)];
    var rest := ListOf(xs);
    assert ParseList(Nil) == Some([]);
    assert Parse(Sym(y)) == Some(Var(y)) && Parse(Bool(false)) == Some(Quoted(Bool(false)));
    assert rest == Pair(Bool(false), Pair(Sym(y), Nil));
    assert ParseList(Pair(Sym(y), Nil)) == Some([Var(y)] + []);
    assert ParseList(rest) == Some([Quoted(Bool(false))] + ([Var(y)] + []));
    assert [Quoted(Bool(false))] + ([Var(y)] + []) == [Quoted(Bool(false)), Var(y)];
    assert Parse(OrForm(y)) == ParseSyntax(Keyword.Or, rest) == ParseDerived(Keyword.Or, rest);
  }

  /** What `(let ((y x)) (or #f y))` becomes evaluates to false. */
  lemma CaptureRuns(P: M.Primitives, y: Symbol, x: Datum, s: R.RefStore) returns (s': R.RefStore)
    ensures Reaches(P, Correctness.StartReference(CapturedLet(y, x), s), R.Done(M.Lit(Bool(false)), s'))
  {
    var s1 := Bound(y, M.Lit(x), Captured(y), [], s);
    s' := CapturedRuns(P, y, [R.Rib([y], |s.frames|)] + [], s1);
    LetRuns(P, y, x, Captured(y), [], R.Finish, s, R.Done(M.Lit(Bool(false)), s'));
  }

  lemma CapturedRuns(P: M.Primitives, y: Symbol, env: R.Env, s: R.RefStore) returns (s': R.RefStore)
    ensures Reaches(P, R.Eval(Captured(y), env, R.Finish, s), R.Done(M.Lit(Bool(false)), s'))
  {
    var test := C.Test(C.Ref(y), C.Ref(y), C.Ref(y));
    s' := Bound(y, M.Lit(Bool(false)), test, env, s);
    var r := R.Done(M.Lit(Bool(false)), s');
    Here(P, r);
    Earlier(P, R.Return(M.Lit(Bool(false)), R.Finish, s'), r);
    TestRuns(P, y, [R.Rib([y], |s.frames|)] + env, |s.frames|, s', r);
    LetRuns(P, y, Bool(false), test, env, R.Finish, s, r);
  }

  lemma TestRuns(P: M.Primitives, y: Symbol, env: R.Env, a: nat, s: R.RefStore, r: R.Config)
    requires R.Lookup(y, env) == Some((a, 0)) && a < |s.frames| && s.frames[a] == [M.Lit(Bool(false))]
    requires Reaches(P, R.Return(M.Lit(Bool(false)), R.Finish, s), r)
    ensures Reaches(P, R.Eval(C.Test(C.Ref(y), C.Ref(y), C.Ref(y)), env, R.Finish, s), r)
  {
    var v := C.Ref(y);
    var k := R.Branch(v, v, env, R.Finish);
    Earlier(P, R.Eval(v, env, R.Finish, s), r);
    Earlier(P, R.Return(M.Lit(Bool(false)), k, s), r);
    Earlier(P, R.Eval(v, env, k, s), r);
    Earlier(P, R.Eval(C.Test(v, v, v), env, R.Finish, s), r);
  }

  lemma DirectEarlier(P: M.Primitives, c: D.Config, n: nat)
    ensures Meaning.Steps(P, c, n + 1) == Meaning.Steps(P, D.Next(P, c), n)
  {
    assert Meaning.Advance(P)(c) == D.Next(P, c);
  }

  function Ors(y: Symbol): Form {
    Form.Or([Quoted(Bool(false)), Var(y)])
  }

  /** `(or #f y)` is the value of y. */
  lemma OrSays(P: M.Primitives, y: Symbol, v: M.Value, m: D.Memory)
    requires m.frames != [] && m.frames[|m.frames| - 1] == D.Frame([y], [v])
    ensures Meaning.Steps(P, D.Eval(Ors(y), [|m.frames| - 1], D.Finish, m), 5) ==
            D.Done(v, m.Enter([], [M.Lit(Bool(false))]))
  {
    var scope, no := [|m.frames| - 1], M.Lit(Bool(false));
    var k := D.Disjoining([Var(y)], scope, D.Finish);
    var m' := m.Enter([], [no]);
    var c1, c2 := D.Eval(Quoted(Bool(false)), scope, k, m), D.Return(no, k, m);
    var c3, c4 := D.Eval(Form.Or([Var(y)]), scope, D.Finish, m'), D.Return(v, D.Finish, m');
    OrBegins(P, y, scope, m);
    LastSays(P, y, v, scope, m');
    DirectEarlier(P, D.Eval(Ors(y), scope, D.Finish, m), 4);
    DirectEarlier(P, c1, 3);
    DirectEarlier(P, c2, 2);
    DirectEarlier(P, c3, 1);
    DirectEarlier(P, c4, 0);
  }

  lemma OrBegins(P: M.Primitives, y: Symbol, scope: D.Scope, m: D.Memory)
    ensures var no, k := M.Lit(Bool(false)), D.Disjoining([Var(y)], scope, D.Finish);
            && D.Next(P, D.Eval(Ors(y), scope, D.Finish, m)) == D.Eval(Quoted(Bool(false)), scope, k, m)
            && D.Next(P, D.Return(no, k, m)) == D.Eval(Form.Or([Var(y)]), scope, D.Finish, m.Enter([], [no]))
  {
    assert [Quoted(Bool(false)), Var(y)][1..] == [Var(y)];
  }

  /** The last form of an `or` is the variable y. */
  lemma LastSays(P: M.Primitives, y: Symbol, v: M.Value, scope: D.Scope, m: D.Memory)
    requires |scope| == 1 && scope[0] < |m.frames| && m.frames[scope[0]] == D.Frame([y], [v])
    ensures D.Next(P, D.Eval(Form.Or([Var(y)]), scope, D.Finish, m)) == D.Return(v, D.Finish, m)
  {
    assert D.Find(y, scope, m.frames) == Some((scope[0], 0));
    assert D.Next(P, D.Eval(Form.Or([Var(y)]), scope, D.Finish, m)) == D.EvalStep(P, Var(y), scope, D.Finish, m);
  }

  lemma LetSays(P: M.Primitives, y: Symbol, x: Datum, m: D.Memory)
    ensures Meaning.Steps(P, Meaning.Start(Form.Let([y], [Quoted(x)], Ors(y)), m), 3) ==
            D.Eval(Ors(y), [|m.frames|], D.Finish, m.Enter([y], [M.Lit(x)]))
  {
    var f, k := Form.Let([y], [Quoted(x)], Ors(y)), D.Each([], [], D.ToBind([y], Ors(y)), [], D.Finish);
    var inits := [Quoted(x)];
    assert inits[1..] == [];
    var c1 := D.Eval(Quoted(x), [], k, m);
    assert D.Next(P, Meaning.Start(f, m)) == c1;
    var c2 := D.Return(M.Lit(x), k, m);
    assert D.Next(P, c1) == c2;
    assert [|m.frames|] + [] == [|m.frames|] && [] + [M.Lit(x)] == [M.Lit(x)];
    DirectEarlier(P, Meaning.Start(f, m), 2);
    DirectEarlier(P, c1, 1);
    DirectEarlier(P, c2, 0);
  }

  lemma CaptureSays(P: M.Primitives, y: Symbol, x: Datum, m: D.Memory)
    ensures Meaning.Says(P, Meaning.Start(Form.Let([y], [Quoted(x)], Ors(y)), m), M.Lit(x))
  {
    LetSays(P, y, x, m);
    OrSays(P, y, M.Lit(x), m.Enter([y], [M.Lit(x)]));
    var c := Meaning.Start(Form.Let([y], [Quoted(x)], Ors(y)), m);
    IterateCompose(Meaning.Advance(P), c, 3, 5);
    assert Meaning.Steps(P, c, 8).Done?;
  }

  /** The name is drawn for a part in which it is free. */
  lemma CaptureUnclean(x: Datum, g: nat)
    ensures var y := OrName(g + 1); !Clean(Form.Let([y], [Quoted(x)], Ors(y)), g)
  {
    var y := OrName(g + 1);
    var forms := [Quoted(Bool(false)), Var(y)];
    assert forms[1..] == [Var(y)] && y in FreeAll([Var(y)]);
    assert !OrFresh(forms, g);
    assert AfterAll([Quoted(x)], g) == AfterAll([], g) == g;
  }

  /** Hygiene is needed: for every counter and literal x, `(let ((orN x)) (or #f orN))`, where orN is the name drawn
      next, says x, but what it desugars to evaluates to false. So where the form is not hygienic its meaning may
      change, as it does here for every x but #f; whether it does depends on the values in a run (x may be the value
      of any expression), so that no condition on the text of a program alone can be exact. */
  lemma CaptureChangesMeaning(P: M.Primitives, x: Datum, g: nat, m: D.Memory, s: R.RefStore)
    requires IsLiteral(x)
    ensures var z := Capture(OrName(g + 1), x);
            && Parse(z).Some? && C.Desugar(z, g).Ok? && !Clean(Parse(z).value, g)
            && Meaning.Says(P, Meaning.Start(Parse(z).value, m), M.Lit(x))
            && EndsWith(P, Correctness.StartReference(C.Desugar(z, g).value.0, s), M.Lit(Bool(false)))
  {
    var y := OrName(g + 1);
    CaptureParses(y, x);
    CaptureDesugars(x, g);
    CaptureUnclean(x, g);
    CaptureSays(P, y, x, m);
    var s' := CaptureRuns(P, y, x, s);
    ReachesEnd(P, Correctness.StartReference(CapturedLet(y, x), s), M.Lit(Bool(false)), s');
  }

  // ---- A named let whose initial values mention its name ----

  lemma SetDesugars(x: Symbol, e: Datum, g: nat)
    requires C.Desugar(e, g).Ok?
    ensures C.Desugar(ListOf([Sym(Known(Keyword.Set)), Sym(x), e]), g).Ok?
  {
    var xs := [Sym(x), e];
    assert [Sym(Known(Keyword.Set)), Sym(x), e][1..] == xs;
    ToSeqListOf(xs);
    DesugarSpecial(Keyword.Set, ListOf(xs), g);
  }

  lemma TwoDesugar(x: Datum, y: Datum, g: nat)
    requires C.Desugar(x, g).Ok? && C.Desugar(y, C.Desugar(x, g).value.1).Ok?
    ensures C.DesugarBody([x] + [y], g).Ok?
  {
    var xs := [x] + [y];
    assert xs[0] == x && xs[1..] == [y];
    DesugarOne(y, C.Desugar(x, g).value.1);
  }

  lemma LoopDesugars(loop: Symbol, bs: seq<Binding>, z: Datum, args: seq<Datum>, g: nat)
    requires IsOperator(Sym(loop)) && !IsForm(z, Keyword.Define)
    requires C.Desugar(z, g).Ok? && C.DesugarArgs(args, C.Desugar(z, g).value.1).Ok?
    ensures C.Desugar(LoopForm(loop, bs, ListOf([z]), args), g).Ok?
  {
    var lambda, again := LambdaForm(ListOf(Names(bs)), ListOf([z])), Pair(Sym(loop), ListOf(args));
    var ls := [Binding(loop, lambda)];
    var first := ListOf([Sym(Known(Keyword.Set)), Sym(loop), lambda]);
    ProcedureDesugars(bs, z, g);
    SetDesugars(loop, lambda, g);
    DesugarSet(loop, lambda, g);
    var g1 := C.Desugar(z, g).value.1;
    DesugarCombination(Sym(loop), args, g1);
    TwoDesugar(first, again, g);
    assert Assignments(ls) == [first];
    DesugarBegin([first] + [again], g);
    DesugarUndefined(ls, g);
    AppliedDesugars(Undefined(ls), BeginForm([first] + [again]), g);
    ExpandLetrecForm(ls, [again], g);
  }

  lemma ProcedureDesugars(bs: seq<Binding>, z: Datum, g: nat)
    requires !IsForm(z, Keyword.Define) && C.Desugar(z, g).Ok?
    ensures C.Desugar(LambdaForm(ListOf(Names(bs)), ListOf([z])), g).Ok?
    ensures C.Desugar(LambdaForm(ListOf(Names(bs)), ListOf([z])), g).value.1 == C.Desugar(z, g).value.1
  {
    ToSeqListOf([z]);
    DesugarLambdaForm(ListOf(Names(bs)), ListOf([z]), g);
    ParamsOfNames(bs);
    ScanOne(z);
    DesugarOne(z, g);
    assert C.DesugarLambda(ListOf(Names(bs)), ListOf([z]), g) ==
           Ok((C.Fun(NamesOf(bs), None, C.Desugar(z, g).value.0), C.Desugar(z, g).value.1));
    assert C.DesugarForm(Keyword.Lambda, Pair(ListOf(Names(bs)), ListOf([z])), g).Ok?;
  }

  const F: Symbol := Name("f")
  const Y: Symbol := Name("y")

  /** `(let f ((y f)) y)`. */
  function SelfLet(): Datum {
    Pair(Sym(Known(Keyword.Let)), Pair(Sym(F), Pair(ListOf(BindingList([Binding(Y, Sym(F))])), ListOf([Sym(Y)]))))
  }

  const SELF_FORM: Form := Form.NamedLet(F, [Y], [Var(F)], Var(Y))

  /** What it becomes. */
  const SELF: Core :=
    C.Call(C.Fun([F], None, C.Then(C.Assign(F, C.Fun([Y], None, C.Ref(Y))), C.Call(C.Ref(F), [C.Ref(F)]))), [UNDEFINED])

  lemma SelfLetDesugars()
    ensures C.Desugar(SelfLet(), 0) == Ok((SELF, 0))
  {
    var bs, args := [Binding(Y, Sym(F))], [Sym(F)];
    assert Inits(bs) == args && args[1..] == [];
    assert C.Desugar(Sym(Y), 0) == Ok((C.Ref(Y), 0)) && C.Desugar(Sym(F), 0) == Ok((C.Ref(F), 0));
    assert C.DesugarArgs(args, 0) == Ok(([C.Ref(F)] + [], 0));
    assert [C.Ref(F)] + [] == [C.Ref(F)];
    LoopDesugars(F, bs, Sym(Y), args, 0);
    ScanOne(Sym(Y));
    DesugarOne(Sym(Y), 0);
    DesugarLoop(F, bs, ListOf([Sym(Y)]), args, 0);
    assert NamesOf(bs) == [Y];
    BindingsOfList(Keyword.Let, bs);
    var rest := Pair(Sym(F), Pair(ListOf(BindingList(bs)), ListOf([Sym(Y)])));
    ToSeqListOf([Sym(Y)]);
    assert ExpandLet(rest) == Ok(LoopForm(F, bs, ListOf([Sym(Y)]), args));
    DesugarDerived(Keyword.Let, rest, 0);
  }

  lemma SelfLetParses()
    ensures Parse(SelfLet()) == Some(SELF_FORM)
  {
    var b := Binding(Y, Sym(F));
    BindingIs(b);
    assert BindingList([b]) == [b.ToDatum()];
    ListOfOne(b.ToDatum());
    var bs := Pair(Pair(Sym(Y), Pair(Sym(F), Nil)), Nil);
    assert ListOf(BindingList([b])) == bs;
    assert ParseBindings(Nil) == Some(([], [])) && Parse(Sym(F)) == Some(Var(F)) && Parse(Sym(Y)) == Some(Var(Y));
    assert [Y] + [] == [Y] && [Var(F)] + [] == [Var(F)];
    assert ParseBindings(bs) == Some(([Y], [Var(F)]));
    ListOfOne(Sym(Y));
    var body := Pair(Sym(Y), Nil);
    assert ParseScoped(body) == ParseBody(body) == Parse(Sym(Y));
    var rest := Pair(Sym(F), Pair(bs, body));
    assert SelfLet() == Pair(Sym(Known(Keyword.Let)), rest);
    assert Parse(SelfLet()) == ParseSyntax(Keyword.Let, rest) == ParseDerived(Keyword.Let, rest);
  }

  /** By section 4.2.4 of R5RS, f is not in scope where y gets its value. */
  lemma SelfLetSays(P: M.Primitives, m: D.Memory)
    requires F !in m.globals
    ensures Meaning.Steps(P, Meaning.Start(Form.NamedLet(F, [Y], [Var(F)], Var(Y)), m), 2) == D.Failed(M.Unbound(F))
  {
    var c := Meaning.Start(Form.NamedLet(F, [Y], [Var(F)], Var(Y)), m);
    var inits := [Var(F)];
    var c1 := D.Next(P, c);
    assert c1.Eval? && c1.f == inits[0] && c1.scope == [] && c1.m.globals == m.globals;
    assert D.Next(P, c1) == D.Failed(M.Unbound(F));
    DirectEarlier(P, c, 1);
    DirectEarlier(P, c1, 0);
  }

  /** But its value is the procedure f. */
  lemma SelfLetRuns(P: M.Primitives, m: D.Memory, s: R.RefStore)
    requires MemoryOk(m, s)
    ensures EndsWith(P, Correctness.StartReference(SELF, s), M.Closure(|s.closures| + 1))
  {
    var c := SelfReturns(P, m, s);
    SelfCall(P, s, c);
    UndefinedUsual(m, s);
    SelfIsLoop();
    DirectSimulation.LoopMakes(P, SELF, F, [Y], [], R.Finish, s, c);
    SelfStarts(P, s, c);
    LeadsToDone(P, Correctness.StartReference(SELF, s), c);
  }

  lemma SelfUnclean()
    ensures !Clean(SELF_FORM, 0)
  {
    assert F in FreeAll([Var(F)]);
  }

  lemma SelfIsLoop()
    ensures IsLoop(SELF, F, [Y]) && LoopInits(SELF) == [C.Ref(F)]
  {
  }

  lemma SelfStarts(P: M.Primitives, s: R.RefStore, c: D.Config)
    requires DirectSimulation.Leads(P, R.EvalStep(SELF, [], R.Finish, s), c)
    ensures DirectSimulation.Leads(P, Correctness.StartReference(SELF, s), c)
  {
    DirectSimulation.Later(P, Correctness.StartReference(SELF, s), c);
  }

  /** The state in which the procedure returns itself. */
  lemma SelfReturns(P: M.Primitives, m: D.Memory, s: R.RefStore) returns (c: D.Config)
    requires MemoryOk(m, s)
    ensures c.Return? && c.k.Finish? && c.v == M.Closure(|s.closures| + 1)
    ensures DirectSimulation.Leads(P,
              R.Return(c.v, R.Finish, DirectSimulation.Framed(DirectSimulation.LoopStore(SELF, F, [Y], [], s), [c.v])),
                  c)
  {
    var L := M.Closure(|m.procs| + 1);
    SelfIsLoop();
    var s1 := DirectSimulation.LoopStore(SELF, F, [Y], [], s);
    var m1 := DirectSimulation.MemoryLooped(m, s, SELF, F, [Y], [], [F], D.Unused);
    DirectSimulation.MemoryFramed(m1, s1, [Y], [L]);
    var m2, s2 := m1.(frames := m1.frames + [D.Frame([Y], [L])]), DirectSimulation.Framed(s1, [L]);
    c := D.Return(L, D.Finish, m2);
    Unwrap(D.Finish, R.Finish, m2.frames, s2.closures);
    DirectSimulation.Now(P, R.Return(L, R.Finish, s2), c);
  }

  lemma UndefinedUsual(m: D.Memory, s: R.RefStore)
    requires MemoryOk(m, s)
    ensures Known(Undef) in s.globals && s.globals[Known(Undef)] == D.UNDEFINED
  {
    assert UsualAt(m.globals, Undef);
  }

  lemma LeadsToDone(P: M.Primitives, r: R.Config, c: D.Config)
    requires c.Return? && c.k.Finish? && DirectSimulation.Leads(P, r, c)
    ensures EndsWith(P, r, c.v)
  {
    var n: nat :| ConfigOk(c, R.Steps(P, r, n));
    var r' := R.Steps(P, r, n);
    Unwrap(c.k, r'.k, c.m.frames, r'.st.closures);
    IterateCompose(R.Advance(P), r, n, 1);
    assert R.Steps(P, r', 1) == R.Next(P, r') by {
      assert R.Advance(P)(r') == R.Next(P, r');
      assert R.Steps(P, R.Next(P, r'), 0) == R.Next(P, r');
    }
    assert R.Steps(P, r, n + 1) == R.Done(c.v, r'.st);
  }

  /** The procedure called with itself. */
  lemma SelfCall(P: M.Primitives, s: R.RefStore, c: D.Config)
    requires var L := M.Closure(|s.closures| + 1);
             DirectSimulation.Leads(P, R.Return(L, R.Finish,
                                                DirectSimulation.Framed(DirectSimulation.LoopStore(SELF, F, [Y], [],
                                                    s), [L])), c)
    ensures DirectSimulation.Leads(P,
              R.StartCall(C.Ref(F), [C.Ref(F)], false, DirectSimulation.LoopEnv(SELF, [], s), R.Finish,
                                                  DirectSimulation.LoopStore(SELF, F, [Y], [], s)), c)
  {
    var L, f := M.Closure(|s.closures| + 1), C.Ref(F);
    var env, s1 := DirectSimulation.LoopEnv(SELF, [], s), DirectSimulation.LoopStore(SELF, F, [Y], [], s);
    assert R.Lookup(F, env) == Some((|s.frames|, 0)) && s1.frames[|s.frames|] == [L];
    assert [] + [L] == [L] && [f][1..] == [];
    var k := R.Argument([], [], f, false, env, R.Finish);
    EnterSelf(P, s, c);
    var r2 := R.Eval(f, env, R.Operator([L], R.Finish), s1);
    DirectSimulation.Later(P, r2, c);
    DirectSimulation.Later(P, R.Return(L, k, s1), c);
    DirectSimulation.Later(P, R.Eval(f, env, k, s1), c);
  }

  lemma EnterSelf(P: M.Primitives, s: R.RefStore, c: D.Config)
    requires var L := M.Closure(|s.closures| + 1);
             DirectSimulation.Leads(P, R.Return(L, R.Finish,
                                                DirectSimulation.Framed(DirectSimulation.LoopStore(SELF, F, [Y], [],
                                                    s), [L])), c)
    ensures var L := M.Closure(|s.closures| + 1);
            DirectSimulation.Leads(P, R.Return(L, R.Operator([L], R.Finish),
                                               DirectSimulation.LoopStore(SELF, F, [Y], [], s)), c)
  {
    var L := M.Closure(|s.closures| + 1);
    var s1 := DirectSimulation.LoopStore(SELF, F, [Y], [], s);
    var clo := DirectSimulation.LoopClosure(SELF, F, [Y], [], s);
    assert s1.closures[L.id] == clo;
    var env := [R.Rib([Y], |s1.frames|)] + clo.env;
    var s2 := DirectSimulation.Framed(s1, [L]);
    assert M.BindArguments(s1.heap, [Y], None, [L]) == Some(([L], s1.heap));
    var r1 := R.Eval(C.Ref(Y), env, R.Finish, s2);
    assert R.Next(P, R.Return(L, R.Operator([L], R.Finish), s1)) == r1;
    assert R.Lookup(Y, env) == Some((|s1.frames|, 0));
    DirectSimulation.Later(P, r1, c);
    DirectSimulation.Later(P, R.Return(L, R.Operator([L], R.Finish), s1), c);
  }

  /** A named let whose initial values mention its name means something else than R5RS says: `(let f ((y f)) y)`,
      where f is otherwise unbound, is an error, but what it desugars to evaluates to a procedure. */
  lemma NamedLetSeesItself(P: M.Primitives, m: D.Memory, s: R.RefStore)
    requires MemoryOk(m, s) && F !in m.globals
    ensures Parse(SelfLet()) == Some(SELF_FORM) && C.Desugar(SelfLet(), 0) == Ok((SELF, 0)) && !Clean(SELF_FORM, 0)
    ensures Meaning.Steps(P, Meaning.Start(SELF_FORM, m), 2) == D.Failed(M.Unbound(F))
    ensures EndsWith(P, Correctness.StartReference(SELF, s), M.Closure(|s.closures| + 1))
  {
    SelfLetParses();
    SelfLetDesugars();
    SelfLetSays(P, m);
    SelfLetRuns(P, m, s);
    SelfUnclean();
  }
}
