/** Desugaring and, or, cond and case gives what the forms they parse as become. */
module ClauseElaboration {
  import opened Wrappers
  import opened Datums
  import opened Symbols
  import opened Expand
  import C = CoreLanguage
  import opened Surface
  import opened Lowering
  import opened Hygiene
  import opened Rules
  import opened Shapes
  import opened ScopeElaboration

  // ---- And, or ----

  lemma {:induction false} AndElaborates(n: nat, xs: seq<Datum>, fs: seq<Form>, g: nat)
    requires UpTo(n) && Small(xs, n) && Parses(xs, fs) && C.Desugar(ExpandAnd(xs), g).Ok?
    ensures AndSettled(fs, g, C.Desugar(ExpandAnd(xs), g).value.0, C.Desugar(ExpandAnd(xs), g).value.1)
  {
    if xs != [] {
      assert Elaborates(xs[0], g);
      var (t, h) := C.Desugar(ExpandAnd(xs), g).value;
      if |xs| == 1 {
        assert fs == [fs[0]];
        SettleAndSole(fs[0], g, t, h);
      } else {
        DesugarIf(xs[0], ExpandAnd(xs[1..]), Bool(false), g);
        var (a, g1) := C.Desugar(xs[0], g).value;
        AndElaborates(n, xs[1..], fs[1..], g1);
        SettleAndMore(fs, g, a, g1, C.Desugar(ExpandAnd(xs[1..]), g1).value.0, h);
      }
    }
  }

  lemma AndFormElaborates(rest: Datum, g: nat)
    requires UpTo(Size(rest)) && ToSeq(rest).Some? && ParseList(rest).Some?
    ensures Yields(Form.And(ParseList(rest).value), g, C.Desugar(ExpandAnd(ToSeq(rest).value), g))
  {
    if C.Desugar(ExpandAnd(ToSeq(rest).value), g).Ok? {
      var (t, h) := C.Desugar(ExpandAnd(ToSeq(rest).value), g).value;
      ListParses(rest);
      AndElaborates(Size(rest), ToSeq(rest).value, ParseList(rest).value, g);
      SettleAnd(ParseList(rest).value, g, t, h);
    }
  }

  lemma {:induction false} OrElaborates(n: nat, xs: seq<Datum>, fs: seq<Form>, i: nat, g: nat)
    requires UpTo(n) && Small(xs, n) && Parses(xs, fs) && C.Desugar(ExpandOr(xs, i).0, g).Ok?
    ensures var (t, h) := C.Desugar(ExpandOr(xs, i).0, g).value; OrSettled(fs, i, g, t, h)
    ensures ExpandOr(xs, i).1 == i + OrDraws(|xs|)
  {
    if xs != [] {
      assert Elaborates(xs[0], g);
      var (t, h) := C.Desugar(ExpandOr(xs, i).0, g).value;
      if |xs| == 1 {
        assert fs == [fs[0]];
        SettleOrSole(fs[0], i, g, t, h);
      } else {
        DesugarTemp(OrName(i + 1), xs[0], ExpandOr(xs[1..], i + 1).0, g);
        var (a, g1) := C.Desugar(xs[0], g).value;
        OrElaborates(n, xs[1..], fs[1..], i + 1, g1);
        SettleOrMore(fs, i, g, a, g1, C.Desugar(ExpandOr(xs[1..], i + 1).0, g1).value.0, h);
      }
    }
  }

  lemma OrWhole(n: nat, xs: seq<Datum>, fs: seq<Form>, i: nat, y: Datum, g: nat, t: Core, h: nat)
    requires UpTo(n) && Small(xs, n) && Parses(xs, fs) && ExpandOr(xs, i) == (y, g) && C.Desugar(y, g) == Ok((t, h))
    ensures Settled(Form.Or(fs), i, t, h)
  {
    OrElaborates(n, xs, fs, i, g);
    SettleOr(fs, i, t, h);
  }

  lemma OrFormElaborates(rest: Datum, i: nat)
    requires UpTo(Size(rest)) && ToSeq(rest).Some? && ParseList(rest).Some?
    ensures var (y, g) := ExpandOr(ToSeq(rest).value, i); Yields(Form.Or(ParseList(rest).value), i, C.Desugar(y, g))
  {
    var (y, g) := ExpandOr(ToSeq(rest).value, i);
    ListParses(rest);
    if C.Desugar(y, g).Ok? {
      var (t, h) := C.Desugar(y, g).value;
      OrWhole(Size(rest), ToSeq(rest).value, ParseList(rest).value, i, y, g, t, h);
    }
  }

  // ---- Cond ----

  /** The body of a clause. */
  lemma ClauseBodyElaborates(n: nat, body: Datum, g: nat)
    requires UpTo(n) && Size(body) <= n && ParseBody(body).Some? && ToSeq(body).Some?
    ensures Yields(ParseBody(body).value, g, C.Desugar(BeginForm(ToSeq(body).value), g))
  {
    var fs := BodyParses(body);
    DesugarBegin(ToSeq(body).value, g);
    BodyElaborates(n, ToSeq(body).value, fs, g);
  }

  /** The clauses x of a cond, whose names are drawn from i on and whose expansion is desugared from g on. */
  ghost predicate CondElaborated(x: Datum, i: nat, g: nat) {
    ParseClauses(x).Some? && ExpandCond(x, i).Ok? && C.Desugar(ExpandCond(x, i).value.0, g).Ok? ==>
      var (t, h) := C.Desugar(ExpandCond(x, i).value.0, g).value;
      ClausesSettled(ParseClauses(x).value, i, g, t, h)
  }

  lemma {:induction false} CondDraws(x: Datum, i: nat)
    requires ParseClauses(x).Some? && ExpandCond(x, i).Ok?
    ensures ExpandCond(x, i).value.1 == i + ClauseDraws(ParseClauses(x).value)
    decreases x
  {
    if x.Pair? && !IsSymbol(x.car.car, Else) {
      CondDraws(x.cdr, if x.car.cdr.Nil? then i + 1 else i);
    }
  }

  lemma {:induction false} CondElaborates(n: nat, x: Datum, i: nat, g: nat)
    requires UpTo(n) && Size(x) <= n
    ensures CondElaborated(x, i, g)
    decreases x
  {
    if ParseClauses(x).Some? && ExpandCond(x, i).Ok? && C.Desugar(ExpandCond(x, i).value.0, g).Ok? {
      SizeOfParts(x);
      var (t, h) := C.Desugar(ExpandCond(x, i).value.0, g).value;
      if x.Nil? {
        SettleVar(Known(Undef), g);
        SettleOtherwise(Var(Known(Undef)), i, g, t, h);
      } else if IsSymbol(x.car.car, Else) {
        ClauseBodyElaborates(n, x.car.cdr, g);
        SettleOtherwise(ParseBody(x.car.cdr).value, i, g, t, h);
      } else if x.car.cdr.Nil? {
        TestClauseElaborates(n, x, i, g);
      } else {
        BodyClauseElaborates(n, x, i, g);
      }
    }
  }

  lemma {:induction false} TestClauseElaborates(n: nat, x: Datum, i: nat, g: nat)
    requires UpTo(n) && Size(x) <= n && ParseClauses(x).Some?
    requires ExpandCond(x, i).Ok? && C.Desugar(ExpandCond(x, i).value.0, g).Ok?
    requires x.Pair? && x.car.Pair? && !IsSymbol(x.car.car, Else) && x.car.cdr.Nil?
    ensures CondElaborated(x, i, g)
    decreases x, 0
  {
    SizeOfParts(x);
    var test, more := x.car.car, x.cdr;
    var els := ExpandCond(more, i + 1).value.0;
    DesugarTemp(CondName(i + 1), test, els, g);
    assert Elaborates(test, g);
    var (a, g1) := C.Desugar(test, g).value;
    CondElaborates(n, more, i + 1, g1);
    var (b, h) := C.Desugar(els, g1).value;
    SettleTestClause(Parse(test).value, ParseClauses(more).value, i, g, a, g1, b, h);
  }

  lemma {:induction false} BodyClauseElaborates(n: nat, x: Datum, i: nat, g: nat)
    requires UpTo(n) && Size(x) <= n && ParseClauses(x).Some?
    requires ExpandCond(x, i).Ok? && C.Desugar(ExpandCond(x, i).value.0, g).Ok?
    requires x.Pair? && x.car.Pair? && !IsSymbol(x.car.car, Else) && !x.car.cdr.Nil?
    ensures CondElaborated(x, i, g)
    decreases x, 0
  {
    SizeOfParts(x);
    var test, body, more := x.car.car, x.car.cdr, x.cdr;
    var thn, els := BeginForm(ToSeq(body).value), ExpandCond(more, i).value.0;
    DesugarIf(test, thn, els, g);
    assert Elaborates(test, g);
    var (a, g1) := C.Desugar(test, g).value;
    ClauseBodyElaborates(n, body, g1);
    var (b, g2) := C.Desugar(thn, g1).value;
    CondElaborates(n, more, i, g2);
    var (c, h) := C.Desugar(els, g2).value;
    SettleBodyClause(Parse(test).value, ParseBody(body).value, ParseClauses(more).value, i, g, a, g1, b, g2, c, h);
  }

  lemma CondWhole(n: nat, x: Datum, clauses: Clauses, i: nat, y: Datum, g: nat, t: Core, h: nat)
    requires UpTo(n) && Size(x) <= n && ParseClauses(x) == Some(clauses)
    requires ExpandCond(x, i) == Ok((y, g)) && C.Desugar(y, g) == Ok((t, h))
    ensures Settled(Form.Cond(clauses), i, t, h)
  {
    CondDrawn(x, clauses, i, y, g);
    CondBecomes(n, x, clauses, i, y, g, g, t, h);
    SettleCond(clauses, i, t, h);
  }

  lemma CondDrawn(x: Datum, clauses: Clauses, i: nat, y: Datum, g: nat)
    requires ParseClauses(x) == Some(clauses) && ExpandCond(x, i) == Ok((y, g))
    ensures g == i + ClauseDraws(clauses)
  {
    CondDraws(x, i);
  }

  lemma CondBecomes(n: nat, x: Datum, clauses: Clauses, i: nat, y: Datum, j: nat, g: nat, t: Core, h: nat)
    requires UpTo(n) && Size(x) <= n && ParseClauses(x) == Some(clauses)
    requires ExpandCond(x, i) == Ok((y, j)) && C.Desugar(y, g) == Ok((t, h))
    ensures ClausesSettled(clauses, i, g, t, h)
  {
    CondElaborates(n, x, i, g);
  }

  lemma CondFormElaborates(rest: Datum, i: nat)
    requires UpTo(Size(rest)) && ParseClauses(rest).Some? && ExpandCond(rest, i).Ok?
    ensures var (y, g) := ExpandCond(rest, i).value; Yields(Form.Cond(ParseClauses(rest).value), i, C.Desugar(y, g))
  {
    var (y, g) := ExpandCond(rest, i).value;
    if C.Desugar(y, g).Ok? {
      var (t, h) := C.Desugar(y, g).value;
      CondWhole(Size(rest), rest, ParseClauses(rest).value, i, y, g, t, h);
    }
  }

  // ---- Case ----

  function MemvForm(y: Symbol, keys: Datum): Datum {
    ListOf([Sym(Known(Memv)), Sym(y), ListOf([Sym(Known(Keyword.Quote)), keys])])
  }

  lemma DesugarQuote(x: Datum, g: nat)
    ensures C.Desugar(ListOf([Sym(Known(Keyword.Quote)), x]), g) == Ok((C.Const(x), g))
  {
    var xs := [x];
    assert [Sym(Known(Keyword.Quote)), x][1..] == xs;
    DesugarSpecial(Keyword.Quote, ListOf(xs), g);
    ToSeqListOf(xs);
  }

  lemma DesugarMemv(y: Symbol, keys: Datum, g: nat)
    ensures C.Desugar(MemvForm(y, keys), g) == Ok((MemvCall(y, keys), g))
  {
    var quoted := ListOf([Sym(Known(Keyword.Quote)), keys]);
    var xs := [Sym(y), quoted];
    assert [Sym(Known(Memv)), Sym(y), quoted][1..] == xs;
    DesugarCombination(Sym(Known(Memv)), xs, g);
    DesugarQuote(keys, g);
    DesugarPair(Sym(y), quoted, g);
    assert C.Desugar(Sym(y), g) == Ok((C.Ref(y), g));
  }

  lemma DesugarPair(a: Datum, b: Datum, g: nat)
    ensures C.DesugarArgs([a, b], g).Ok? ==> C.Desugar(a, g).Ok? && C.Desugar(b, C.Desugar(a, g).value.1).Ok?
    ensures C.Desugar(a, g).Ok? && C.Desugar(b, C.Desugar(a, g).value.1).Ok? ==>
              var (ta, g1) := C.Desugar(a, g).value;
              var (tb, g2) := C.Desugar(b, g1).value;
              C.DesugarArgs([a, b], g) == Ok(([ta, tb], g2))
  {
    var xs := [a, b];
    assert xs[0] == a && xs[1..] == [b];
    if C.Desugar(a, g).Ok? {
      var (ta, g1) := C.Desugar(a, g).value;
      if C.Desugar(b, g1).Ok? {
        var (tb, g2) := C.Desugar(b, g1).value;
        assert [b][1..] == [];
        assert C.DesugarArgs([b], g1) == Ok(([tb] + [], g2));
        assert [ta] + ([tb] + []) == [ta, tb];
      } else {
        assert [b][0] == b;
        assert C.DesugarArgs([b], g1).Err?;
      }
    }
  }

  /** The clauses of a case, as `cond` clauses that look for the key in y. */
  function CondOf(y: Symbol, x: Datum): Datum
    requires CaseClauses(y, x).Ok?
  {
    ListOf(CaseClauses(y, x).value)
  }

  /** One clause of a case, as a `cond` clause. */
  lemma CondOfPair(y: Symbol, x: Datum)
    requires CaseClauses(y, x).Ok? && x.Pair?
    ensures x.car.Pair? && ToSeq(x.car.cdr).Some? && CaseClauses(y, x.cdr).Ok?
    ensures var clause := if IsSymbol(x.car.car, Else) then x.car.car else MemvForm(y, x.car.car);
            CondOf(y, x) == Pair(Pair(clause, x.car.cdr), CondOf(y, x.cdr))
  {
    var clauses := CaseClauses(y, x).value;
    assert clauses[1..] == CaseClauses(y, x.cdr).value;
  }

  /** The clauses x of a case whose key is in the kth generated variable. */
  ghost predicate CaseElaborated(k: nat, x: Datum, i: nat, g: nat) {
    ParseChoices(x).Some? && CaseClauses(CaseName(k), x).Ok? && ExpandCond(CondOf(CaseName(k), x), i).Ok? &&
    C.Desugar(ExpandCond(CondOf(CaseName(k), x), i).value.0, g).Ok? ==>
      var (t, h) := C.Desugar(ExpandCond(CondOf(CaseName(k), x), i).value.0, g).value;
      ChoicesSettled(k, ParseChoices(x).value, i, g, t, h)
  }

  lemma {:induction false} ChoicesDraw(y: Symbol, x: Datum, i: nat)
    requires ParseChoices(x).Some? && CaseClauses(y, x).Ok? && ExpandCond(CondOf(y, x), i).Ok?
    ensures ExpandCond(CondOf(y, x), i).value.1 == i + ChoiceDraws(ParseChoices(x).value)
    decreases x
  {
    if x.Pair? {
      CondOfPair(y, x);
      if !IsSymbol(x.car.car, Else) {
        ChoicesDraw(y, x.cdr, if x.car.cdr.Nil? then i + 1 else i);
      }
    }
  }

  lemma {:induction false} ChoicesElaborate(n: nat, k: nat, x: Datum, i: nat, g: nat)
    requires UpTo(n) && Size(x) <= n
    ensures CaseElaborated(k, x, i, g)
    decreases x
  {
    var y := CaseName(k);
    if ParseChoices(x).Some? && CaseClauses(y, x).Ok? && ExpandCond(CondOf(y, x), i).Ok? &&
       C.Desugar(ExpandCond(CondOf(y, x), i).value.0, g).Ok? {
      SizeOfParts(x);
      var (t, h) := C.Desugar(ExpandCond(CondOf(y, x), i).value.0, g).value;
      if x.Nil? {
        SettleVar(Known(Undef), g);
        SettleDefault(k, Var(Known(Undef)), i, g, t, h);
      } else {
        CondOfPair(y, x);
        if IsSymbol(x.car.car, Else) {
          ClauseBodyElaborates(n, x.car.cdr, g);
          SettleDefault(k, ParseBody(x.car.cdr).value, i, g, t, h);
        } else if x.car.cdr.Nil? {
          TestChoiceElaborates(n, k, x, i, g);
        } else {
          BodyChoiceElaborates(n, k, x, i, g);
        }
      }
    }
  }

  lemma {:induction false} TestChoiceElaborates(n: nat, k: nat, x: Datum, i: nat, g: nat)
    requires UpTo(n) && Size(x) <= n && ParseChoices(x).Some?
    requires x.Pair? && x.car.Pair? && !IsSymbol(x.car.car, Else) && x.car.cdr.Nil?
    requires && CaseClauses(CaseName(k), x).Ok? && ExpandCond(CondOf(CaseName(k), x), i).Ok?
             && C.Desugar(ExpandCond(CondOf(CaseName(k), x), i).value.0, g).Ok?
    ensures CaseElaborated(k, x, i, g)
    decreases x, 0
  {
    var y := CaseName(k);
    SizeOfParts(x);
    CondOfPair(y, x);
    var keys, more := x.car.car, x.cdr;
    var els := ExpandCond(CondOf(y, more), i + 1).value.0;
    DesugarTemp(CondName(i + 1), MemvForm(y, keys), els, g);
    DesugarMemv(y, keys, g);
    ChoicesElaborate(n, k, more, i + 1, g);
    var (b, h) := C.Desugar(els, g).value;
    SettleTestChoice(k, keys, ParseChoices(more).value, i, g, b, h);
  }

  lemma {:induction false} BodyChoiceElaborates(n: nat, k: nat, x: Datum, i: nat, g: nat)
    requires UpTo(n) && Size(x) <= n && ParseChoices(x).Some?
    requires x.Pair? && x.car.Pair? && !IsSymbol(x.car.car, Else) && !x.car.cdr.Nil?
    requires && CaseClauses(CaseName(k), x).Ok? && ExpandCond(CondOf(CaseName(k), x), i).Ok?
             && C.Desugar(ExpandCond(CondOf(CaseName(k), x), i).value.0, g).Ok?
    ensures CaseElaborated(k, x, i, g)
    decreases x, 0
  {
    var y := CaseName(k);
    SizeOfParts(x);
    CondOfPair(y, x);
    var keys, body, more := x.car.car, x.car.cdr, x.cdr;
    var thn, els := BeginForm(ToSeq(body).value), ExpandCond(CondOf(y, more), i).value.0;
    DesugarIf(MemvForm(y, keys), thn, els, g);
    DesugarMemv(y, keys, g);
    ClauseBodyElaborates(n, body, g);
    var (b, g1) := C.Desugar(thn, g).value;
    ChoicesElaborate(n, k, more, i, g1);
    var (c, h) := C.Desugar(els, g1).value;
    SettleBodyChoice(k, keys, ParseBody(body).value, ParseChoices(more).value, i, g, b, g1, c, h);
  }

  /** The clauses x of a case expand to z, which desugars to t. */
  predicate ChoicesBecome(k: nat, x: Datum, i: nat, z: Datum, g: nat, t: Core, h: nat) {
    CaseClauses(CaseName(k), x).Ok? && ExpandCond(CondOf(CaseName(k), x), i) == Ok((z, g)) && C.Desugar(z, g) ==
      Ok((t, h))
  }

  /** The clauses of a case, once its key is desugared. */
  lemma ChoicesWhole(n: nat, k: nat, x: Datum, choices: Choices, i: nat, z: Datum, g: nat, t: Core, h: nat)
    requires UpTo(n) && Size(x) <= n && ParseChoices(x) == Some(choices) && ChoicesBecome(k, x, i, z, g, t, h)
    ensures ChoicesSettled(k, choices, i, i + ChoiceDraws(choices), t, h)
  {
    ChoicesDrawn(k, x, choices, i, z, g);
    ChoicesElaborate(n, k, x, i, g);
  }

  lemma ChoicesDrawn(k: nat, x: Datum, choices: Choices, i: nat, z: Datum, g: nat)
    requires ParseChoices(x) == Some(choices) && CaseClauses(CaseName(k), x).Ok?
    requires ExpandCond(CondOf(CaseName(k), x), i) == Ok((z, g))
    ensures g == i + ChoiceDraws(choices)
  {
    ChoicesDraw(CaseName(k), x, i);
  }

  /** A case's expansion, in parts. */
  lemma DesugarCase(rest: Datum, i: nat) returns (a: Core, g: nat, z: Datum, g1: nat, t: Core, h: nat)
    requires rest.Pair? && ExpandCase(rest, i).Ok? && C.Desugar(ExpandCase(rest, i).value.0, i + 1).Ok?
    ensures C.Desugar(rest.car, i + 1) == Ok((a, g)) && ChoicesBecome(i + 1, rest.cdr, g, z, g1, t, h)
    ensures C.Desugar(ExpandCase(rest, i).value.0, i + 1).value == (C.Call(C.Fun([CaseName(i + 1)], None, t), [a]), h)
  {
    var y := CaseName(i + 1);
    var cond := Pair(Sym(Known(Keyword.Cond)), CondOf(y, rest.cdr));
    DesugarLetOne(y, rest.car, cond, i + 1);
    a, g := C.Desugar(rest.car, i + 1).value.0, C.Desugar(rest.car, i + 1).value.1;
    DesugarDerived(Keyword.Cond, CondOf(y, rest.cdr), g);
    z, g1 := ExpandCond(CondOf(y, rest.cdr), g).value.0, ExpandCond(CondOf(y, rest.cdr), g).value.1;
    t, h := C.Desugar(z, g1).value.0, C.Desugar(z, g1).value.1;
  }

  lemma CaseElaborates(n: nat, rest: Datum, key: Form, choices: Choices, i: nat)
    requires UpTo(n) && Size(rest) <= n && rest.Pair? && Parse(rest.car) == Some(key)
    requires ParseChoices(rest.cdr) == Some(choices)
    requires ExpandCase(rest, i).Ok?
    ensures Yields(Form.Case(key, choices), i, C.Desugar(ExpandCase(rest, i).value.0, i + 1))
  {
    SizeOfParts(rest);
    if C.Desugar(ExpandCase(rest, i).value.0, i + 1).Ok? {
      var a, g, z, g1, t, h := DesugarCase(rest, i);
      assert Elaborates(rest.car, i + 1);
      ChoicesWhole(n, i + 1, rest.cdr, choices, g, z, g1, t, h);
      SettleCase(key, choices, i, a, g, t, h);
    }
  }

  lemma CaseFormElaborates(rest: Datum, i: nat)
    requires UpTo(Size(rest)) && rest.Pair? && ParseDerived(Keyword.Case, rest).Some? && ExpandCase(rest, i).Ok?
    ensures Yields(ParseDerived(Keyword.Case, rest).value, i, C.Desugar(ExpandCase(rest, i).value.0, i + 1))
  {
    CaseElaborates(Size(rest), rest, Parse(rest.car).value, ParseChoices(rest.cdr).value, i);
  }
}
