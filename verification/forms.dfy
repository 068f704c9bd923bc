/** Which expressions are well formed, said of their text alone. */
module Forms {
  import opened Datums
  import opened Symbols

  predicate IsKnown(x: Datum, k: Keyword) {
    x == Sym(Known(k))
  }

  lemma SizeOfPair(x: Datum)
    ensures x.Pair? ==> Size(x) == 1 + Size(x.car) + Size(x.cdr)
  {
  }

  /** The parts of x are smaller. */
  lemma Smaller(x: Datum)
    ensures x.Pair? ==> Size(x) == 1 + Size(x.car) + Size(x.cdr)
    ensures x.Pair? && x.car.Pair? ==> Size(x.car) == 1 + Size(x.car.car) + Size(x.car.cdr)
    ensures x.Pair? && x.car.Pair? && x.car.cdr.Pair? ==>
              Size(x.car.cdr) == 1 + Size(x.car.cdr.car) + Size(x.car.cdr.cdr)
    ensures x.Pair? && x.cdr.Pair? ==> Size(x.cdr) == 1 + Size(x.cdr.car) + Size(x.cdr.cdr)
    ensures x.Pair? && x.cdr.Pair? && x.cdr.cdr.Pair? ==>
              Size(x.cdr.cdr) == 1 + Size(x.cdr.cdr.car) + Size(x.cdr.cdr.cdr)
  {
    if x.Pair? {
      SizeOfPair(x.car);
      SizeOfPair(x.cdr);
      if x.car.Pair? { SizeOfPair(x.car.cdr); }
      if x.cdr.Pair? { SizeOfPair(x.cdr.cdr); }
    }
  }

  /** May x be compiled? */
  predicate Formed(x: Datum)
    decreases Size(x), 1
  {
    match x
    case Eof => false
    case Pair(head, rest) =>
      if head.Sym? && head.name.Known? then OperandsFormed(head.name.k, rest) else Formed(head) && AllFormed(rest)
    case _ => true
  }

  /** A proper list of well-formed expressions. */
  predicate AllFormed(xs: Datum)
    decreases Size(xs), 0
  {
    xs.Nil? || (xs.Pair? && Formed(xs.car) && AllFormed(xs.cdr))
  }

  predicate OperandsFormed(k: Keyword, rest: Datum)
    decreases Size(rest), 4
  {
    Smaller(rest);
    match k
    case Quote => rest.Pair? && rest.cdr.Nil?
    case Quasiquote => rest.Pair? && rest.cdr.Nil? && TemplateFormed(rest.car)
    case Let => LetFormed(rest)
    case LetStar => rest.Pair? && BindingsFormed(rest.car)
                    && if rest.car.Nil? then AllFormed(rest.cdr) else LoneScopeFormed(rest.cdr)
    case Letrec => rest.Pair? && BindingsFormed(rest.car)
                   && if rest.car.Nil? then LoneScopeFormed(rest.cdr) else AllFormed(rest.cdr)
    case And | Or | Begin => AllFormed(rest)
    case Cond => ClausesFormed(rest)
    case Case => rest.Pair? && Formed(rest.car) && CasesFormed(rest.cdr)
    case Do => DoFormed(rest)
    case If => && rest.Pair? && rest.cdr.Pair? && AllFormed(rest)
               && (rest.cdr.cdr.Pair? ==> rest.cdr.cdr.cdr.Nil?)
    case Lambda => rest.Pair? && ParametersFormed(rest.car) && ScopeFormed(rest.cdr)
    case Define => rest.Pair? && DefineFormed(rest.car, rest.cdr)
    case DefineMacro => false
    case Set => rest.Pair? && rest.car.Sym? && rest.cdr.Pair? && Formed(rest.cdr.car) && rest.cdr.cdr.Nil?
    case CallCC | CallWithCC => rest.Pair? && Formed(rest.car) && rest.cdr.Nil?
    case Apply => rest.Pair? && rest.cdr.Pair? && AllFormed(rest)
    case TestStart | TestEnd | TracePrint | MacroPrint | CompilePrint => true
    case _ => AllFormed(rest)
  }

  // ---- Procedures ----

  /** Symbols, perhaps with a last one after a dot, or alone. */
  predicate ParametersFormed(p: Datum) {
    p.Nil? || p.Sym? || (p.Pair? && p.car.Sym? && ParametersFormed(p.cdr))
  }

  /** The body of a procedure: internal defines come first. */
  predicate ScopeFormed(body: Datum)
    decreases Size(body), 1
  {
    Smaller(body);
    if body.Pair? && body.car.Pair? && IsKnown(body.car.car, Define)
    then InternalFormed(body.car.cdr) && ScopeFormed(body.cdr)
    else AllFormed(body)
  }

  /** What follows the `define` of an internal one: more than a value is allowed after a variable. */
  predicate InternalFormed(rest: Datum)
    decreases Size(rest), 2
  {
    Smaller(rest);
    && rest.Pair?
    && if rest.car.Sym? then rest.cdr.Pair? && Formed(rest.cdr.car)
       else rest.car.Pair? && rest.car.car.Sym? && ParametersFormed(rest.car.cdr) && ScopeFormed(rest.cdr)
  }

  /** Any other define. */
  predicate DefineFormed(target: Datum, tail: Datum)
    decreases Size(tail), 3
  {
    Smaller(tail);
    if target.Sym? then tail.Pair? && Formed(tail.car) && tail.cdr.Nil?
    else target.Pair? && target.car.Sym? && ParametersFormed(target.cdr) && ScopeFormed(tail)
  }

  // ---- Bindings ----

  /** A list of `(variable init)`. */
  predicate BindingsFormed(bs: Datum)
    decreases Size(bs), 0
  {
    Smaller(bs);
    || bs.Nil?
    || (bs.Pair? && IsBinding(bs.car) && Formed(bs.car.cdr.car) && BindingsFormed(bs.cdr))
  }

  predicate IsBinding(b: Datum) {
    b.Pair? && b.car.Sym? && b.cdr.Pair? && b.cdr.cdr.Nil?
  }

  /** The list of the bindings' initial values. */
  function InitialValues(bs: Datum): (xs: Datum)
    ensures Size(xs) <= Size(bs)
  {
    Smaller(bs);
    if bs.Pair? && IsBinding(bs.car) then Pair(bs.car.cdr.car, InitialValues(bs.cdr)) else Nil
  }

  /** A let; a named one calls its procedure, under that name, with the initial values. */
  predicate LetFormed(rest: Datum)
    decreases Size(rest), 3
  {
    Smaller(rest);
    && rest.Pair?
    && if rest.car.Sym? then
         && rest.cdr.Pair? && BindingsShaped(rest.cdr.car) && ScopeFormed(rest.cdr.cdr)
         && Formed(Pair(rest.car, InitialValues(rest.cdr.car)))
       else BindingsFormed(rest.car) && ScopeFormed(rest.cdr)
  }

  predicate BindingsShaped(bs: Datum) {
    bs.Nil? || (bs.Pair? && IsBinding(bs.car) && BindingsShaped(bs.cdr))
  }

  /** The body of a let* with variables or of a letrec without: a define that stands alone is internal. */
  predicate LoneScopeFormed(body: Datum)
    decreases Size(body), 2
  {
    Smaller(body);
    if body.Pair? && body.cdr.Nil? then ScopeFormed(body) else AllFormed(body)
  }

  // ---- Clauses ----

  /** The clauses of a cond; what follows `else` is ignored. */
  predicate ClausesFormed(cs: Datum)
    decreases Size(cs), 0
  {
    Smaller(cs);
    || cs.Nil?
    || (&& cs.Pair? && cs.car.Pair? && AllFormed(cs.car.cdr)
        && (IsKnown(cs.car.car, Else) || (Formed(cs.car.car) && ClausesFormed(cs.cdr))))
  }

  /** The clauses of a case; what follows `else` need only have the shape of clauses. */
  predicate CasesFormed(cs: Datum)
    decreases Size(cs), 0
  {
    Smaller(cs);
    || cs.Nil?
    || (&& cs.Pair? && cs.car.Pair? && AllFormed(cs.car.cdr)
        && if IsKnown(cs.car.car, Else) then CasesShaped(cs.cdr) else CasesFormed(cs.cdr))
  }

  predicate CasesShaped(cs: Datum) {
    cs.Nil? || (cs.Pair? && cs.car.Pair? && Proper(cs.car.cdr) && CasesShaped(cs.cdr))
  }

  predicate Proper(xs: Datum) {
    xs.Nil? || (xs.Pair? && Proper(xs.cdr))
  }

  /** `((variable init [step]) ...) (test result ...) command ...`. */
  predicate DoFormed(rest: Datum)
    decreases Size(rest), 3
  {
    Smaller(rest);
    && rest.Pair? && rest.cdr.Pair? && rest.cdr.car.Pair?
    && SpecsFormed(rest.car) && AllFormed(rest.cdr.car) && AllFormed(rest.cdr.cdr)
  }

  predicate SpecsFormed(xs: Datum)
    decreases Size(xs), 0
  {
    Smaller(xs);
    xs.Nil? || (xs.Pair? && SpecFormed(xs.car) && SpecsFormed(xs.cdr))
  }

  /** What follows the step is ignored. */
  predicate SpecFormed(x: Datum)
    decreases Size(x), 0
  {
    Smaller(x);
    && x.Pair? && x.car.Sym? && x.cdr.Pair? && Formed(x.cdr.car)
    && (x.cdr.cdr.Nil? || (x.cdr.cdr.Pair? && Formed(x.cdr.cdr.car)))
  }

  // ---- Templates ----

  /** A quasiquoted template: what is unquoted or spliced is an expression, but vectors in lists are left alone. A
      splice stands for list elements, so not at the end of a list after a dot. */
  predicate TemplateFormed(x: Datum)
    decreases Size(x), 0
  {
    Smaller(x);
    match x
    case Pair(a, d) =>
      if IsKnown(a, Unquote) then d.Pair? && Formed(d.car)
      else if IsKnown(a, Splice) then false
      else if a.Pair? && (IsKnown(a.car, Unquote) || IsKnown(a.car, Splice)) then
        a.cdr.Pair? && Formed(a.cdr.car) && TemplateFormed(d)
      else (a.Pair? ==> TemplateFormed(a)) && TemplateFormed(d)
    case Vec(es) =>
      SizeListOf(es);
      TemplateFormed(ListOf(es))
    case _ => true
  }
}
