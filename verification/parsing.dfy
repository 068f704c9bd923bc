/** Well-formed expressions have a form. */
module Parsing {
  import opened Wrappers
  import opened Datums
  import opened Symbols
  import opened Expand
  import opened Surface
  import opened Forms

  /** x is no letrec without a body, and no named let whose name is that of a form. */
  predicate IsRegularForm(x: Datum) {
    x.Pair? && x.cdr.Pair? ==>
      && !(IsKnown(x.car, Keyword.Letrec) && x.cdr.cdr.Nil?)
      && !(IsKnown(x.car, Keyword.Let) && x.cdr.car.Sym? && IsSyntaxName(x.cdr.car.name))
  }

  /** Nor is any part of x. */
  predicate Regular(x: Datum)
    decreases Size(x), 1
  {
    IsRegularForm(x) && AllRegular(x)
  }

  predicate AllRegular(x: Datum)
    decreases Size(x), 0
  {
    match x
    case Pair(a, d) => Regular(a) && AllRegular(d)
    case Vec(es) =>
      SizeListOf(es);
      AllRegular(ListOf(es))
    case _ => true
  }

  /** The parts of what is regular are regular. */
  lemma RegularParts(x: Datum)
    requires AllRegular(x)
    ensures x.Pair? ==> Regular(x.car) && AllRegular(x.car) && AllRegular(x.cdr)
    ensures x.Pair? && x.car.Pair? ==> Regular(x.car.car) && AllRegular(x.car.car) && AllRegular(x.car.cdr)
    ensures x.Pair? && x.cdr.Pair? ==> Regular(x.cdr.car) && AllRegular(x.cdr.car) && AllRegular(x.cdr.cdr)
  {
    if x.Pair? {
      assert AllRegular(x.car) && AllRegular(x.cdr);
    }
  }

  /** Every well-formed and regular expression has a form. */
  lemma {:induction false} FormedParses(x: Datum)
    requires Formed(x) && Regular(x)
    ensures Parse(x).Some?
    decreases Size(x), 9
  {
    if x.Pair? {
      if x.car.Sym? && x.car.name.Known? {
        KnownParses(x.car.name.k, x.cdr);
      } else {
        FormedParses(x.car);
        ListParses(x.cdr);
      }
    }
  }

  lemma {:induction false} ListParses(x: Datum)
    requires AllFormed(x) && AllRegular(x)
    ensures ParseList(x).Some? && ParseBody(x).Some?
    decreases Size(x), 0
  {
    if x.Pair? {
      FormedParses(x.car);
      ListParses(x.cdr);
    }
  }

  lemma KnownParses(k: Keyword, rest: Datum)
    requires OperandsFormed(k, rest) && AllRegular(rest) && IsRegularForm(Pair(Sym(Known(k)), rest))
    ensures Parse(Pair(Sym(Known(k)), rest)).Some?
    decreases Size(rest), 8
  {
    if !IsSyntax(k) {
      ListParses(rest);
    } else if CoreLanguage.IsSpecial(k) {
      SpecialParses(k, rest);
    } else if rest.Pair? {
      DerivedParses(k, rest);
    }
  }

  lemma SpecialParses(k: Keyword, rest: Datum)
    requires CoreLanguage.IsSpecial(k) && OperandsFormed(k, rest) && AllRegular(rest)
    ensures ParseSpecial(k, rest).Some?
    decreases Size(rest), 7
  {
    Smaller(rest);
    RegularParts(rest);
    if k == Keyword.Lambda {
      LambdaParses(rest.car, rest.cdr);
    } else if k == Keyword.Define {
      DefineParses(rest);
    } else if k == Keyword.Begin {
      ListParses(rest);
    } else {
      FewParse(k, rest);
    }
  }

  /** Forms with a few operands. */
  lemma FewParse(k: Keyword, rest: Datum)
    requires CoreLanguage.IsSpecial(k) && OperandsFormed(k, rest) && AllRegular(rest)
    requires k != Keyword.Lambda && k != Keyword.Define && k != Keyword.Begin
    ensures ParseSpecial(k, rest).Some?
    decreases Size(rest), 6
  {
    Smaller(rest);
    RegularParts(rest);
    if k == Keyword.Set {
      FormedParses(rest.cdr.car);
    } else if k == Keyword.CallCC || k == Keyword.CallWithCC {
      FormedParses(rest.car);
      ListLength(rest);
    } else if k == Keyword.If || k == Keyword.Apply {
      ListParses(rest);
      ListLength(rest);
    }
  }

  /** As many forms as expressions. */
  lemma ListLength(rest: Datum)
    requires rest.Pair? && Parse(rest.car).Some? && (rest.cdr.Nil? || ParseList(rest).Some?)
    ensures ParseList(rest).Some? && (rest.cdr.Nil? ==> |ParseList(rest).value| == 1)
    ensures rest.cdr.Pair? ==> |ParseList(rest).value| >= 2
    ensures rest.cdr.Pair? && rest.cdr.cdr.Nil? ==> |ParseList(rest).value| == 2
    ensures rest.cdr.Pair? && rest.cdr.cdr.Pair? && rest.cdr.cdr.cdr.Nil? ==> |ParseList(rest).value| == 3
  {
  }

  lemma LambdaParses(params: Datum, body: Datum)
    requires ParametersFormed(params) && ScopeFormed(body) && AllRegular(body)
    ensures ParseLambda(params, body).Some?
    decreases Size(body), 6
  {
    ScopeParses(body);
    ParametersParse(params);
  }

  lemma {:induction false} ParametersParse(p: Datum)
    requires ParametersFormed(p)
    ensures Params(p).Ok?
  {
    if p.Pair? {
      ParametersParse(p.cdr);
    }
  }

  lemma DefineParses(rest: Datum)
    requires OperandsFormed(Keyword.Define, rest) && AllRegular(rest)
    ensures ParseSpecial(Keyword.Define, rest).Some?
    decreases Size(rest), 6
  {
    Smaller(rest);
    RegularParts(rest);
    if rest.car.Sym? {
      FormedParses(rest.cdr.car);
    } else {
      LambdaParses(rest.car.cdr, rest.cdr);
    }
  }

  lemma {:induction false} ScopeParses(body: Datum)
    requires ScopeFormed(body) && AllRegular(body)
    ensures ParseScoped(body).Some? && ParseDefines(body).Some?
    decreases Size(body), 2
  {
    Smaller(body);
    if body.Pair? && IsForm(body.car, Keyword.Define) {
      InternalParses(body.car);
      ScopeParses(body.cdr);
    } else {
      ListParses(body);
    }
  }

  lemma InternalParses(x: Datum)
    requires IsForm(x, Keyword.Define) && InternalFormed(x.cdr) && Regular(x)
    ensures ParseDefine(x).Some?
    decreases Size(x), 2
  {
    Smaller(x);
    Smaller(x.cdr);
    RegularParts(x);
    RegularParts(x.cdr);
    if x.cdr.car.Sym? {
      FormedParses(x.cdr.cdr.car);
    } else {
      LambdaParses(x.cdr.car.cdr, x.cdr.cdr);
    }
  }

  lemma LoneParses(body: Datum)
    requires LoneScopeFormed(body) && AllRegular(body)
    ensures ParseLone(body).Some?
    decreases Size(body), 3
  {
    if body.Pair? && body.cdr.Nil? {
      ScopeParses(body);
    } else {
      ListParses(body);
    }
  }

  lemma {:induction false} BindingsParse(bs: Datum)
    requires BindingsFormed(bs) && AllRegular(bs)
    ensures ParseBindings(bs).Some? && (bs.Nil? <==> ParseBindings(bs).value.0 == [])
    decreases Size(bs), 0
  {
    Smaller(bs);
    RegularParts(bs);
    if bs.Pair? {
      RegularParts(bs.car);
      FormedParses(bs.car.cdr.car);
      BindingsParse(bs.cdr);
    }
  }

  lemma DerivedParses(k: Keyword, rest: Datum)
    requires Weights.IsDerived(k) && rest.Pair? && OperandsFormed(k, rest) && AllRegular(rest)
    requires IsRegularForm(Pair(Sym(Known(k)), rest))
    ensures ParseDerived(k, rest).Some?
    decreases Size(rest), 7
  {
    Smaller(rest);
    RegularParts(rest);
    match k
    case Quasiquote => TemplateParses(rest.car);
    case Let => LetParses(rest);
    case LetStar =>
      BindingsParse(rest.car);
      if rest.car.Nil? { ListParses(rest.cdr); } else { LoneParses(rest.cdr); }
    case Letrec =>
      BindingsParse(rest.car);
      if rest.car.Nil? { LoneParses(rest.cdr); } else { ListParses(rest.cdr); }
    case And => ListParses(rest);
    case Or => ListParses(rest);
    case Cond => ClausesParse(rest);
    case Case =>
      FormedParses(rest.car);
      ChoicesParse(rest.cdr);
    case Do => DoParses(rest);
  }

  lemma LetParses(rest: Datum)
    requires LetFormed(rest) && AllRegular(rest) && IsRegularForm(Pair(Sym(Known(Keyword.Let)), rest))
    ensures ParseDerived(Keyword.Let, rest).Some?
    decreases Size(rest), 5
  {
    Smaller(rest);
    RegularParts(rest);
    if rest.car.Sym? {
      RegularParts(rest.cdr);
      var bs := rest.cdr.car;
      ValuesFormed(rest.car.name, bs);
      BindingsParse(bs);
      ScopeParses(rest.cdr.cdr);
    } else {
      BindingsParse(rest.car);
      ScopeParses(rest.cdr);
    }
  }

  /** The initial values of a loop are expressions, unless its name makes something else of them. */
  lemma ValuesFormed(name: Symbol, bs: Datum)
    requires !IsSyntaxName(name) && BindingsShaped(bs) && Formed(Pair(Sym(name), InitialValues(bs)))
    ensures BindingsFormed(bs)
  {
    ValuesAll(bs);
  }

  lemma {:induction false} ValuesAll(bs: Datum)
    requires BindingsShaped(bs)
    ensures BindingsFormed(bs) <==> AllFormed(InitialValues(bs))
  {
    if bs.Pair? {
      ValuesAll(bs.cdr);
    }
  }

  lemma {:induction false} ClausesParse(cs: Datum)
    requires ClausesFormed(cs) && AllRegular(cs)
    ensures ParseClauses(cs).Some?
    decreases Size(cs), 0
  {
    Smaller(cs);
    RegularParts(cs);
    if cs.Pair? {
      ListParses(cs.car.cdr);
      if !IsKnown(cs.car.car, Else) {
        FormedParses(cs.car.car);
        ClausesParse(cs.cdr);
      }
    }
  }

  lemma {:induction false} ChoicesParse(cs: Datum)
    requires CasesFormed(cs) && AllRegular(cs)
    ensures ParseChoices(cs).Some?
    decreases Size(cs), 0
  {
    Smaller(cs);
    RegularParts(cs);
    if cs.Pair? {
      ListParses(cs.car.cdr);
      if !IsKnown(cs.car.car, Else) {
        ChoicesParse(cs.cdr);
      }
    }
  }

  lemma DoParses(rest: Datum)
    requires DoFormed(rest) && AllRegular(rest)
    ensures ParseDerived(Keyword.Do, rest).Some?
    decreases Size(rest), 5
  {
    Smaller(rest);
    RegularParts(rest);
    RegularParts(rest.cdr.car);
    SpecsParse(rest.car);
    FormedParses(rest.cdr.car.car);
    ListParses(rest.cdr.car.cdr);
    ListParses(rest.cdr.cdr);
  }

  lemma {:induction false} SpecsParse(x: Datum)
    requires SpecsFormed(x) && AllRegular(x)
    ensures ParseSpecs(x).Some?
    decreases Size(x), 0
  {
    Smaller(x);
    RegularParts(x);
    if x.Pair? {
      Smaller(x.car);
      RegularParts(x.car);
      RegularParts(x.car.cdr);
      FormedParses(x.car.cdr.car);
      if x.car.cdr.cdr.Pair? {
        FormedParses(x.car.cdr.cdr.car);
      }
      SpecsParse(x.cdr);
    }
  }

  lemma {:induction false} TemplateParses(x: Datum)
    requires TemplateFormed(x) && AllRegular(x)
    ensures ParseTemplate(x).Some?
    decreases Size(x), 0
  {
    Smaller(x);
    RegularParts(x);
    match x
    case Pair(a, d) =>
      if IsKnown(a, Unquote) {
        FormedParses(d.car);
      } else {
        TemplateParses(d);
        if IsForm(a, Unquote) || IsForm(a, Splice) {
          RegularParts(a);
          FormedParses(a.cdr.car);
        } else if a.Pair? {
          TemplateParses(a);
        }
      }
    case Vec(es) =>
      SizeListOf(es);
      TemplateParses(ListOf(es));
    case _ =>
  }
}
