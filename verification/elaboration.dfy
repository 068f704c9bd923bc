/** Desugaring a written form gives what the form it parses as becomes, exactly if that form is hygienic. */
module Elaboration {
  import opened Wrappers
  import opened Datums
  import opened Symbols
  import opened Expand
  import C = CoreLanguage
  import opened Weights
  import opened Surface
  import opened Lowering
  import opened Hygiene
  import opened Rules
  import opened Shapes
  import opened ScopeElaboration
  import opened ClauseElaboration
  import opened LoopElaboration
  import Forms
  import WellFormed

  // ---- Forms that the compiler takes itself ----

  lemma {:induction false} LambdaElaborates(n: nat, params: Datum, body: Datum, g: nat)
    requires UpTo(n) && Size(body) <= n && ParseLambda(params, body).Some?
    ensures Yields(ParseLambda(params, body).value, g, C.DesugarLambda(params, body, g))
  {
    if C.DesugarLambda(params, body, g).Ok? {
      var f := ParseLambda(params, body).value;
      ScopedElaborates(n, body, g);
      var (t, h) := C.DesugarBody(ScanOutDefines(body).value, g).value;
      SettleLambda(f.params, f.rest, f.body, g, t, h);
    }
  }

  lemma DefineElaborates(rest: Datum, g: nat)
    requires UpTo(Size(rest)) && ParseSpecial(Keyword.Define, rest).Some?
    requires C.DesugarForm(Keyword.Define, rest, g).Ok?
    ensures Yields(ParseSpecial(Keyword.Define, rest).value, g, C.DesugarForm(Keyword.Define, rest, g))
  {
    SizeOfParts(rest);
    var xs := ToSeq(rest).value;
    assert xs[0] == rest.car;
    var f := ParseSpecial(Keyword.Define, rest).value;
    var (t, h) := C.DesugarDefine(rest.car, rest.cdr, g).value;
    if rest.car.Sym? {
      assert Elaborates(rest.cdr.car, g);
    } else {
      LambdaElaborates(Size(rest), rest.car.cdr, rest.cdr, g);
    }
    SettleDefine(f.name, f.rhs, g, t.rhs, h);
  }

  lemma SetElaborates(rest: Datum, g: nat)
    requires UpTo(Size(rest)) && ParseSpecial(Keyword.Set, rest).Some? && C.DesugarForm(Keyword.Set, rest, g).Ok?
    ensures Yields(ParseSpecial(Keyword.Set, rest).value, g, C.DesugarForm(Keyword.Set, rest, g))
  {
    SizeOfParts(rest);
    var xs := ToSeq(rest).value;
    TwoOperands(rest, xs);
    var f := ParseSpecial(Keyword.Set, rest).value;
    var (t, h) := C.DesugarForm(Keyword.Set, rest, g).value;
    assert Elaborates(rest.cdr.car, g);
    SettleSet(f.name, f.rhs, g, t.rhs, h);
  }

  /** The third operand of an if, NIL if there is none. */
  function Alternative(xs: seq<Datum>): Datum {
    if |xs| == 3 then xs[2] else Nil
  }

  lemma DesugarIfForm(rest: Datum, xs: seq<Datum>, g: nat) returns (a: Core, g1: nat, b: Core, g2: nat, c: Core, h: nat)
    requires ToSeq(rest) == Some(xs) && 2 <= |xs| <= 3 && C.DesugarForm(Keyword.If, rest, g).Ok?
    ensures C.Desugar(xs[0], g) == Ok((a, g1)) && C.Desugar(xs[1], g1) == Ok((b, g2))
    ensures C.Desugar(Alternative(xs), g2) == Ok((c, h))
    ensures C.DesugarForm(Keyword.If, rest, g) == Ok((C.Test(a, b, c), h))
  {
    a, g1 := C.Desugar(xs[0], g).value.0, C.Desugar(xs[0], g).value.1;
    b, g2 := C.Desugar(xs[1], g1).value.0, C.Desugar(xs[1], g1).value.1;
    c, h := C.Desugar(Alternative(xs), g2).value.0, C.Desugar(Alternative(xs), g2).value.1;
  }

  lemma IfParses(rest: Datum, xs: seq<Datum>)
    requires ParseSpecial(Keyword.If, rest).Some? && ToSeq(rest) == Some(xs)
    ensures 2 <= |xs| <= 3 && Small(xs, Size(rest)) && Size(rest) > 1
    ensures var f := ParseSpecial(Keyword.If, rest).value;
            && f.If? && Parse(xs[0]) == Some(f.test) && Parse(xs[1]) == Some(f.thn)
            && Parse(Alternative(xs)) == Some(f.els)
  {
    ListParses(rest);
  }

  lemma IfElaborates(rest: Datum, g: nat)
    requires UpTo(Size(rest)) && ParseSpecial(Keyword.If, rest).Some? && C.DesugarForm(Keyword.If, rest, g).Ok?
    ensures Yields(ParseSpecial(Keyword.If, rest).value, g, C.DesugarForm(Keyword.If, rest, g))
  {
    var xs := ToSeq(rest).value;
    IfParses(rest, xs);
    var f := ParseSpecial(Keyword.If, rest).value;
    var a, g1, b, g2, c, h := DesugarIfForm(rest, xs, g);
    assert Elaborates(xs[0], g) && Elaborates(xs[1], g1) && Elaborates(Alternative(xs), g2);
    SettleIf(f.test, f.thn, f.els, g, a, g1, b, g2, c, h);
  }

  lemma CallElaborates(n: nat, head: Datum, f: Form, xs: seq<Datum>, fs: seq<Form>, spread: bool, g: nat)
    requires UpTo(n) && Size(head) < n && Small(xs, n) && Parse(head) == Some(f) && Parses(xs, fs)
    requires (spread ==> fs != [])
    ensures Yields(Form.Call(f, fs, spread), g, C.DesugarOperation(head, xs, spread, g))
  {
    if C.DesugarOperation(head, xs, spread, g).Ok? {
      AllElaborate(n, xs, fs, g);
      var (ts, g1) := C.DesugarArgs(xs, g).value;
      assert Elaborates(head, g1);
      var (t, h) := C.Desugar(head, g1).value;
      SettleCall(f, fs, spread, g, ts, g1, t, h);
    }
  }

  lemma ApplyElaborates(rest: Datum, g: nat)
    requires UpTo(Size(rest)) && ParseSpecial(Keyword.Apply, rest).Some? && C.DesugarForm(Keyword.Apply, rest, g).Ok?
    ensures Yields(ParseSpecial(Keyword.Apply, rest).value, g, C.DesugarForm(Keyword.Apply, rest, g))
  {
    ListParses(rest);
    var xs, fs := ToSeq(rest).value, ParseList(rest).value;
    CallElaborates(Size(rest), xs[0], fs[0], xs[1..], fs[1..], true, g);
  }

  lemma CaptureElaborates(k: Keyword, rest: Datum, g: nat)
    requires k == Keyword.CallCC || k == Keyword.CallWithCC
    requires UpTo(Size(rest)) && ParseSpecial(k, rest).Some? && C.DesugarForm(k, rest, g).Ok?
    ensures Yields(ParseSpecial(k, rest).value, g, C.DesugarForm(k, rest, g))
  {
    ListParses(rest);
    var xs := ToSeq(rest).value;
    assert Elaborates(xs[0], g);
    var (t, h) := C.Desugar(xs[0], g).value;
    SettleCapture(Parse(xs[0]).value, g, t, h);
  }

  lemma ConstantElaborates(k: Keyword, rest: Datum, g: nat)
    requires k == Keyword.Quote || C.IsReport(k)
    requires ParseSpecial(k, rest).Some? && C.DesugarForm(k, rest, g).Ok?
    ensures Yields(ParseSpecial(k, rest).value, g, C.DesugarForm(k, rest, g))
  {
    SettleQuoted(ParseSpecial(k, rest).value.x, g);
  }

  lemma BeginElaborates(rest: Datum, g: nat)
    requires UpTo(Size(rest)) && ParseSpecial(Keyword.Begin, rest).Some? && C.DesugarForm(Keyword.Begin, rest, g).Ok?
    ensures Yields(ParseSpecial(Keyword.Begin, rest).value, g, C.DesugarForm(Keyword.Begin, rest, g))
  {
    var xs := ToSeq(rest).value;
    assert ParseSpecial(Keyword.Begin, rest) == ParseBody(rest);
    assert C.DesugarForm(Keyword.Begin, rest, g) == C.DesugarBody(xs, g);
    var fs := BodyParses(rest);
    BodyElaborates(Size(rest), xs, fs, g);
  }

  lemma SpecialElaborates(k: Keyword, rest: Datum, g: nat)
    requires C.IsSpecial(k) && UpTo(Size(rest)) && ParseSpecial(k, rest).Some? && C.DesugarForm(k, rest, g).Ok?
    ensures Yields(ParseSpecial(k, rest).value, g, C.DesugarForm(k, rest, g))
  {
    match k
    case If => IfElaborates(rest, g);
    case Begin => BeginElaborates(rest, g);
    case Lambda => LambdaElaborates(Size(rest), rest.car, rest.cdr, g);
    case Define => DefineElaborates(rest, g);
    case Set => SetElaborates(rest, g);
    case Apply => ApplyElaborates(rest, g);
    case CallCC => CaptureElaborates(k, rest, g);
    case CallWithCC => CaptureElaborates(k, rest, g);
    case _ => ConstantElaborates(k, rest, g);
  }

  // ---- Every expression ----

  lemma DerivedElaborates(k: Keyword, rest: Datum, i: nat)
    requires IsDerived(k) && rest.Pair? && UpTo(2 + Size(rest)) && ParseDerived(k, rest).Some?
    requires ExpandForm(k, rest, i).Ok?
    ensures var (y, g) := ExpandForm(k, rest, i).value; Yields(ParseDerived(k, rest).value, i, C.Desugar(y, g))
  {
    match k
    case Let => LetFormElaborates(rest, i);
    case LetStar => LetStarFormElaborates(rest, i);
    case Letrec => LetrecFormElaborates(rest, i);
    case And => AndFormElaborates(rest, i);
    case Or => OrFormElaborates(rest, i);
    case Cond => CondFormElaborates(rest, i);
    case Case => CaseFormElaborates(rest, i);
    case Do => DoFormElaborates(rest, i);
    case Quasiquote => TemplateElaborates(Size(rest), rest.car, i);
  }

  /** A derived form without operands. */
  lemma EmptyElaborates(k: Keyword, rest: Datum, i: nat)
    requires IsDerived(k) && !rest.Pair? && ParseEmpty(k).Some? && ExpandForm(k, rest, i).Ok?
    ensures var (y, g) := ExpandForm(k, rest, i).value; Yields(ParseEmpty(k).value, i, C.Desugar(y, g))
  {
    match k
    case And => SettleEmptyAnd(i);
    case Or => SettleEmptyOr(i);
    case Cond => SettleEmptyCond(i);
  }

  lemma SyntaxElaborates(k: Keyword, rest: Datum, g: nat)
    requires IsSyntax(k) && UpTo(2 + Size(rest)) && ParseSyntax(k, rest).Some?
    requires C.Desugar(Pair(Sym(Known(k)), rest), g).Ok?
    ensures Yields(ParseSyntax(k, rest).value, g, C.Desugar(Pair(Sym(Known(k)), rest), g))
  {
    if C.IsSpecial(k) {
      DesugarSpecial(k, rest, g);
      SpecialElaborates(k, rest, g);
    } else {
      DesugarDerived(k, rest, g);
      if rest.Pair? {
        DerivedElaborates(k, rest, g);
      } else {
        EmptyElaborates(k, rest, g);
      }
    }
  }

  lemma CombinationElaborates(head: Datum, rest: Datum, g: nat)
    requires UpTo(Size(Pair(head, rest))) && IsOperator(head)
    requires Parse(Pair(head, rest)).Some? && C.Desugar(Pair(head, rest), g).Ok?
    ensures Elaborates(Pair(head, rest), g)
  {
    var x := Pair(head, rest);
    SizeOfParts(x);
    var xs := ToSeq(rest).value;
    assert C.Desugar(x, g) == C.DesugarCall(head, rest, g);
    ListParses(rest);
    CallElaborates(Size(x), head, Parse(head).value, xs, ParseList(rest).value, false, g);
  }

  lemma AtomElaborates(x: Datum, g: nat)
    requires !x.Pair?
    ensures Elaborates(x, g)
  {
    match x
    case Sym(y) => SettleVar(y, g);
    case Eof =>
    case _ => SettleQuoted(x, g);
  }

  lemma OneElaborates(x: Datum, g: nat)
    requires UpTo(Size(x))
    ensures Elaborates(x, g)
  {
    if !x.Pair? {
      AtomElaborates(x, g);
    } else if Parse(x).Some? && C.Desugar(x, g).Ok? {
      if IsOperator(x.car) {
        CombinationElaborates(x.car, x.cdr, g);
      } else {
        assert Size(x) == 2 + Size(x.cdr);
        SyntaxElaborates(x.car.name.k, x.cdr, g);
      }
    }
  }

  lemma {:induction false} SmallElaborate(n: nat)
    ensures UpTo(n)
  {
    if n > 0 {
      SmallElaborate(n - 1);
      forall x: Datum, g: nat | Size(x) < n ensures Elaborates(x, g) {
        if Size(x) == n - 1 {
          OneElaborates(x, g);
        }
      }
    }
  }

  /** A well-formed expression that has a form becomes what its form says, no generated name capturing another and no
      name that expansions use rebound, if and only if the form is hygienic from the counter on. Then the counter is
      left where the form says. */
  lemma DesugaringElaborates(x: Datum, g: nat)
    requires Forms.Formed(x) && Parse(x).Some?
    ensures C.Desugar(x, g).Ok?
    ensures Lowers(Parse(x).value, C.Desugar(x, g).value.0) <==> Clean(Parse(x).value, g)
    ensures Clean(Parse(x).value, g) ==> C.Desugar(x, g).value.1 == After(Parse(x).value, g)
  {
    WellFormed.DesugarsExactly(x, g);
    SmallElaborate(Size(x));
    OneElaborates(x, g);
    Unfold(Parse(x).value, g, C.Desugar(x, g).value.0, C.Desugar(x, g).value.1);
  }
}
