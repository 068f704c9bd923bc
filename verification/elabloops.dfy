/** Desugaring do and quasiquote gives what the forms they parse as become. */
module LoopElaboration {
  import opened Wrappers
  import opened Datums
  import opened Symbols
  import opened Expand
  import C = CoreLanguage
  import opened Surface
  import opened Lowering
  import opened Hygiene
  import opened Rules
  import opened Shapes
  import opened ScopeElaboration
  import opened ClauseElaboration

  // ---- Do ----

  function BindingsOf(specs: seq<DoSpec>): (bs: seq<Binding>)
    ensures |bs| == |specs|
  {
    seq(|specs|, i requires 0 <= i < |specs| => Binding(specs[i].name, specs[i].init))
  }

  /** The specs of a do, parsed. */
  ghost predicate SpecsAre(n: nat, specs: seq<DoSpec>, names: seq<Symbol>, inits: seq<Form>, steps: seq<Form>) {
    && NamesOf(BindingsOf(specs)) == names && Parses(SpecInits(specs), inits) && Parses(SpecSteps(specs), steps)
    && Small(SpecInits(specs), n) && Small(SpecSteps(specs), n)
  }

  lemma {:induction false} SpecsParse(x: Datum)
    requires ToSeq(x).Some? && DoSpecs(ToSeq(x).value).Ok? && ParseSpecs(x).Some?
    ensures var (names, inits, steps) := ParseSpecs(x).value;
            SpecsAre(Size(x), DoSpecs(ToSeq(x).value).value, names, inits, steps)
  {
    SizeOfParts(x);
    if x.Pair? {
      SpecsParse(x.cdr);
      var xs := ToSeq(x).value;
      assert xs[1..] == ToSeq(x.cdr).value;
      var specs, rest := DoSpecs(xs).value, DoSpecs(xs[1..]).value;
      assert specs == [specs[0]] + rest;
      var (names, inits, steps) := ParseSpecs(x.cdr).value;
      FirstSpec(x, specs[0]);
      MoreSpecsAre(Size(x.cdr), Size(x), specs[0], Parse(specs[0].init).value, Parse(specs[0].step).value,
                   rest, names, inits, steps);
    }
  }

  lemma FirstSpec(x: Datum, spec: DoSpec)
    requires x.Pair? && ParseSpecs(x).Some? && DoSpecs([x.car]).Ok? && DoSpecs([x.car]).value[0] == spec
    ensures Parse(spec.init).Some? && Parse(spec.step).Some? && Size(spec.init) < Size(x) && Size(spec.step) < Size(x)
    ensures var (names, inits, steps) := ParseSpecs(x.cdr).value;
            ParseSpecs(x).value == ([spec.name] + names, [Parse(spec.init).value] + inits,
                                    [Parse(spec.step).value] + steps)
  {
    SizeOfParts(x);
    SizeOfParts(x.car);
    SizeOfParts(x.car.cdr);
  }

  lemma MoreSpecsAre(m: nat, n: nat, spec: DoSpec, init: Form, step: Form,
                     rest: seq<DoSpec>, names: seq<Symbol>, inits: seq<Form>, steps: seq<Form>)
    requires SpecsAre(m, rest, names, inits, steps) && m <= n && Parse(spec.init) == Some(init)
    requires Parse(spec.step) == Some(step)
    requires Size(spec.init) < n && Size(spec.step) < n
    ensures SpecsAre(n, [spec] + rest, [spec.name] + names, [init] + inits, [step] + steps)
  {
    MoreSpecs(spec, rest);
  }

  lemma MoreSpecs(spec: DoSpec, rest: seq<DoSpec>)
    ensures NamesOf(BindingsOf([spec] + rest)) == [spec.name] + NamesOf(BindingsOf(rest))
    ensures SpecInits([spec] + rest) == [spec.init] + SpecInits(rest)
    ensures SpecSteps([spec] + rest) == [spec.step] + SpecSteps(rest)
  {
  }

  /** The commands of a do, before the next round. */
  lemma {:induction false} CommandsElaborate(n: nat, xs: seq<Datum>, fs: seq<Form>, again: Datum, g: nat)
    returns (g': nat)
    requires UpTo(n) && Small(xs, n) && Parses(xs, fs) && C.DesugarBody(xs + [again], g).Ok?
    requires forall i :: C.Desugar(again, i).Ok? ==> C.Desugar(again, i).value.0.Call?
    ensures C.Desugar(again, g').Ok? && C.Desugar(again, g').value.1 == C.DesugarBody(xs + [again], g).value.1
    ensures CommandsSettled(fs, g, C.DesugarBody(xs + [again], g).value.0, C.Desugar(again, g').value.0, g')
  {
    var ys := xs + [again];
    if xs == [] {
      assert ys == [again];
      DesugarOne(again, g);
      g' := g;
    } else {
      assert ys[0] == xs[0] && ys[1..] == xs[1..] + [again];
      assert Elaborates(xs[0], g);
      var (t, g1) := C.Desugar(xs[0], g).value;
      g' := CommandsElaborate(n, xs[1..], fs[1..], again, g1);
      SettleCommand(fs, g, t, g1, C.DesugarBody(ys[1..], g1).value.0, C.Desugar(again, g').value.0, g');
    }
  }

  /** The body of a do's procedure: the test, the result, and the commands before the next round. */
  function RoundForm(loop: Symbol, specs: seq<DoSpec>, test: Datum, result: seq<Datum>, commands: seq<Datum>): Datum {
    IfForm(test, BeginForm(result), BeginForm(commands + [Pair(Sym(loop), ListOf(SpecSteps(specs)))]))
  }

  lemma DoIsLoop(loop: Symbol, specs: seq<DoSpec>, test: Datum, result: seq<Datum>, commands: seq<Datum>)
    ensures DoLoop(loop, specs, test, result, commands) ==
            LoopForm(loop, BindingsOf(specs), ListOf([RoundForm(loop, specs, test, result, commands)]),
                     SpecInits(specs))
  {
    assert SpecNames(specs) == Names(BindingsOf(specs));
  }

  /** A parsed do. */
  ghost predicate DoParses(n: nat, f: Form, specs: seq<DoSpec>, test: Datum, result: Datum, commands: seq<Datum>) {
    && f.Do? && f.names == NamesOf(BindingsOf(specs)) && Parses(SpecInits(specs), f.inits)
    && Parses(SpecSteps(specs), f.steps)
    && Small(SpecInits(specs), n) && Small(SpecSteps(specs), n)
    && Size(test) < n && Parse(test) == Some(f.test)
    && ToSeq(result).Some? && Size(result) <= n && ParseBody(result) == Some(f.result)
    && Small(commands, n) && Parses(commands, f.commands)
  }

  /** The call that begins the next round. */
  lemma AgainDesugars(loop: Symbol, xs: seq<Datum>, g: nat)
    requires IsOperator(Sym(loop)) && C.Desugar(Pair(Sym(loop), ListOf(xs)), g).Ok?
    ensures C.DesugarArgs(xs, g).Ok?
    ensures var (ts, h) := C.DesugarArgs(xs, g).value;
            C.Desugar(Pair(Sym(loop), ListOf(xs)), g).value == (C.Call(C.Ref(loop), ts), h)
  {
    DesugarCombination(Sym(loop), xs, g);
  }

  /** The commands and the steps. */
  lemma StepsElaborate(n: nat, commands: seq<Datum>, fs: seq<Form>, loop: Symbol, xs: seq<Datum>, steps: seq<Form>,
                       g: nat)
    returns (g': nat, ts: seq<Core>)
    requires UpTo(n) && Small(commands, n) && Parses(commands, fs) && Small(xs, n) && Parses(xs, steps)
    requires IsOperator(Sym(loop))
    requires C.DesugarBody(commands + [Pair(Sym(loop), ListOf(xs))], g).Ok?
    ensures var (t, h) := C.DesugarBody(commands + [Pair(Sym(loop), ListOf(xs))], g).value;
            CommandsSettled(fs, g, t, C.Call(C.Ref(loop), ts), g') && AllSettled(steps, g', ts, h)
  {
    var again := Pair(Sym(loop), ListOf(xs));
    forall i | C.Desugar(again, i).Ok? ensures C.Desugar(again, i).value.0.Call? {
      AgainDesugars(loop, xs, i);
    }
    g' := CommandsElaborate(n, commands, fs, again, g);
    AgainDesugars(loop, xs, g');
    ts := C.DesugarArgs(xs, g').value.0;
    AllElaborate(n, xs, steps, g');
  }

  /** What a round of a do became. */
  ghost predicate RoundIs(f: Form, loop: Symbol, g: nat, u: Core, h: nat, r: Round)
    requires f.Do?
  {
    && u == C.Test(r.test, r.result, r.commands) && h == r.g4
    && Settled(f.test, g, r.test, r.g1) && Settled(f.result, r.g1, r.result, r.g2)
    && CommandsSettled(f.commands, r.g2, r.commands, C.Call(C.Ref(loop), r.steps), r.g3)
    && AllSettled(f.steps, r.g3, r.steps, r.g4)
  }

  lemma RoundElaborates(n: nat, f: Form, loop: Symbol, specs: seq<DoSpec>, test: Datum, result: Datum,
                        commands: seq<Datum>,
                        g: nat) returns (r: Round)
    requires UpTo(n) && DoParses(n, f, specs, test, result, commands) && IsOperator(Sym(loop))
    requires C.Desugar(RoundForm(loop, specs, test, ToSeq(result).value, commands), g).Ok?
    ensures var (u, h) := C.Desugar(RoundForm(loop, specs, test, ToSeq(result).value, commands), g).value;
            RoundIs(f, loop, g, u, h, r)
  {
    var again, res := Pair(Sym(loop), ListOf(SpecSteps(specs))), ToSeq(result).value;
    DesugarIf(test, BeginForm(res), BeginForm(commands + [again]), g);
    assert Elaborates(test, g);
    var (t, g1) := C.Desugar(test, g).value;
    ClauseBodyElaborates(n, result, g1);
    var (b, g2) := C.Desugar(BeginForm(res), g1).value;
    DesugarBegin(commands + [again], g2);
    var g3, ts := StepsElaborate(n, commands, f.commands, loop, SpecSteps(specs), f.steps, g2);
    var (c, h) := C.DesugarBody(commands + [again], g2).value;
    r := Round(t, g1, b, g2, c, g3, ts, h, []);
  }

  lemma DoElaborates(n: nat, f: Form, i: nat, specs: seq<DoSpec>, test: Datum, result: Datum, commands: seq<Datum>)
    requires UpTo(n) && DoParses(n, f, specs, test, result, commands)
    ensures Yields(f, i, C.Desugar(DoLoop(LoopName(i + 1), specs, test, ToSeq(result).value, commands), i + 1))
  {
    var loop, res := LoopName(i + 1), ToSeq(result).value;
    if C.Desugar(DoLoop(loop, specs, test, res, commands), i + 1).Ok? {
      var round := RoundForm(loop, specs, test, res, commands);
      DoDesugars(loop, specs, test, res, commands, i + 1);
      var r := RoundElaborates(n, f, loop, specs, test, result, commands, i + 1);
      var (ts, h) := C.DesugarArgs(SpecInits(specs), r.g4).value;
      AllElaborate(n, SpecInits(specs), f.inits, r.g4);
      SettleDo(f, i, r.(inits := ts), h);
    }
  }

  lemma DoDesugars(loop: Symbol, specs: seq<DoSpec>, test: Datum, res: seq<Datum>, commands: seq<Datum>, g: nat)
    requires IsOperator(Sym(loop)) && C.Desugar(DoLoop(loop, specs, test, res, commands), g).Ok?
    ensures C.Desugar(RoundForm(loop, specs, test, res, commands), g).Ok?
    ensures var (u, g1) := C.Desugar(RoundForm(loop, specs, test, res, commands), g).value;
            && C.DesugarArgs(SpecInits(specs), g1).Ok?
            && var (ts, h) := C.DesugarArgs(SpecInits(specs), g1).value;
            C.Desugar(DoLoop(loop, specs, test, res, commands), g).value ==
              (LoopTerm(loop, NamesOf(BindingsOf(specs)), u, ts), h)
  {
    var round := RoundForm(loop, specs, test, res, commands);
    DoIsLoop(loop, specs, test, res, commands);
    DesugarLoop(loop, BindingsOf(specs), ListOf([round]), SpecInits(specs), g);
    ScanOne(round);
    DesugarOne(round, g);
  }

  /** The parts of a written do. */
  lemma TwoOperands(rest: Datum, xs: seq<Datum>)
    requires ToSeq(rest) == Some(xs) && |xs| >= 2
    ensures rest.Pair? && rest.cdr.Pair? && xs[0] == rest.car && xs[1] == rest.cdr.car
    ensures ToSeq(rest.cdr.cdr) == Some(xs[2..])
  {
    var ys := ToSeq(rest.cdr).value;
    assert xs == [rest.car] + ys;
    assert ys == [rest.cdr.car] + ToSeq(rest.cdr.cdr).value;
    assert xs[2..] == ToSeq(rest.cdr.cdr).value;
  }

  lemma DoFormParts(rest: Datum, i: nat)
    requires rest.Pair? && ExpandDo(rest, i).Ok?
    ensures ToSeq(rest.car).Some? && DoSpecs(ToSeq(rest.car).value).Ok? && rest.cdr.Pair? && rest.cdr.car.Pair?
    ensures ToSeq(rest.cdr.car.cdr).Some? && ToSeq(rest.cdr.cdr).Some?
    ensures ExpandDo(rest, i).value.0 ==
            DoLoop(LoopName(i + 1), DoSpecs(ToSeq(rest.car).value).value, rest.cdr.car.car,
                   ToSeq(rest.cdr.car.cdr).value, ToSeq(rest.cdr.cdr).value)
  {
    var xs := ToSeq(rest).value;
    TwoOperands(rest, xs);
    var commands := ToSeq(rest.cdr.cdr).value;
  }

  /** How a written do parses. */
  lemma DoFormParsed(rest: Datum)
    requires rest.Pair? && ParseDerived(Keyword.Do, rest).Some?
    ensures rest.cdr.Pair? && rest.cdr.car.Pair? && ParseSpecs(rest.car).Some? && Parse(rest.cdr.car.car).Some?
    ensures ParseBody(rest.cdr.car.cdr).Some? && ParseList(rest.cdr.cdr).Some?
    ensures var (names, inits, steps) := ParseSpecs(rest.car).value;
            ParseDerived(Keyword.Do, rest).value ==
              Form.Do(names, inits, steps, Parse(rest.cdr.car.car).value, ParseBody(rest.cdr.car.cdr).value,
                      ParseList(rest.cdr.cdr).value)
    ensures Size(rest.car) < Size(rest) && Size(rest.cdr.car.car) < Size(rest) && Size(rest.cdr.car.cdr) < Size(rest)
    ensures Size(rest.cdr.cdr) < Size(rest)
  {
    SizeOfParts(rest);
    SizeOfParts(rest.cdr);
  }

  lemma DoFormParses(rest: Datum, i: nat)
    requires rest.Pair? && ParseDerived(Keyword.Do, rest).Some? && ExpandDo(rest, i).Ok?
    ensures rest.cdr.Pair? && rest.cdr.car.Pair? && ToSeq(rest.car).Some? && DoSpecs(ToSeq(rest.car).value).Ok?
    ensures ToSeq(rest.cdr.cdr).Some?
    ensures DoParses(Size(rest), ParseDerived(Keyword.Do, rest).value, DoSpecs(ToSeq(rest.car).value).value,
                     rest.cdr.car.car, rest.cdr.car.cdr, ToSeq(rest.cdr.cdr).value)
  {
    DoFormParts(rest, i);
    DoFormParsed(rest);
    SpecsParse(rest.car);
    ListParses(rest.cdr.cdr);
  }

  lemma DoFormElaborates(rest: Datum, i: nat)
    requires UpTo(Size(rest)) && rest.Pair? && ParseDerived(Keyword.Do, rest).Some? && ExpandDo(rest, i).Ok?
    ensures Yields(ParseDerived(Keyword.Do, rest).value, i, C.Desugar(ExpandDo(rest, i).value.0, i + 1))
  {
    DoFormParts(rest, i);
    DoFormParses(rest, i);
    var specs, commands, clause := DoSpecs(ToSeq(rest.car).value).value, ToSeq(rest.cdr.cdr).value, rest.cdr.car;
    DoElaborates(Size(rest), ParseDerived(Keyword.Do, rest).value, i, specs, clause.car, clause.cdr, commands);
  }

  // ---- Quasiquote ----

  lemma DesugarBuild(op: Keyword, a: Datum, b: Datum, g: nat)
    requires IsBuilder(op) && C.Desugar(ListOf([Sym(Known(op)), a, b]), g).Ok?
    ensures C.Desugar(a, g).Ok? && C.Desugar(b, C.Desugar(a, g).value.1).Ok?
    ensures var (ta, g1) := C.Desugar(a, g).value;
            var (tb, h) := C.Desugar(b, g1).value;
            C.Desugar(ListOf([Sym(Known(op)), a, b]), g).value == (C.Call(C.Ref(Known(op)), [ta, tb]), h)
  {
    var xs := [a, b];
    assert [Sym(Known(op)), a, b][1..] == xs;
    DesugarBuilder(op, xs, g);
    DesugarPair(a, b, g);
  }

  lemma DesugarBuilder(op: Keyword, xs: seq<Datum>, g: nat)
    requires IsBuilder(op) && C.Desugar(Pair(Sym(Known(op)), ListOf(xs)), g).Ok?
    ensures C.DesugarArgs(xs, g).Ok?
    ensures var (ts, h) := C.DesugarArgs(xs, g).value;
            C.Desugar(Pair(Sym(Known(op)), ListOf(xs)), g).value == (C.Call(C.Ref(Known(op)), ts), h)
  {
    DesugarCombination(Sym(Known(op)), xs, g);
  }

  lemma DesugarVector(list: Datum, g: nat)
    requires C.Desugar(ListOf([Sym(Known(ListToVector)), list]), g).Ok?
    ensures C.Desugar(list, g).Ok?
    ensures var (t, h) := C.Desugar(list, g).value;
            C.Desugar(ListOf([Sym(Known(ListToVector)), list]), g).value == (C.Call(C.Ref(Known(ListToVector)), [t]), h)
  {
    var xs := [list];
    assert [Sym(Known(ListToVector)), list][1..] == xs;
    DesugarBuilder(ListToVector, xs, g);
    DesugarArgsOne(list, g);
  }

  /** The template x, built by its quasiquote expansion. */
  ghost predicate TemplateElaborated(x: Datum, g: nat) {
    ParseTemplate(x).Some? && Quasi(x).Ok? ==> Yields(ParseTemplate(x).value, g, C.Desugar(Quasi(x).value, g))
  }

  lemma {:induction false} TemplateElaborates(n: nat, x: Datum, g: nat)
    requires UpTo(n) && Size(x) <= n
    ensures TemplateElaborated(x, g)
    decreases Size(x), 1
  {
    if ParseTemplate(x).Some? && Quasi(x).Ok? && C.Desugar(Quasi(x).value, g).Ok? {
      SizeOfParts(x);
      match x
      case Pair(a, d) =>
        if IsSymbol(a, Unquote) {
          assert Elaborates(d.car, g);
        } else {
          PairTemplateElaborates(n, a, d, g);
        }
      case Vec(es) =>
        SizeListOf(es);
        VectorTemplateElaborates(n, es, g);
      case _ =>
        DesugarQuote(x, g);
        SettleQuoted(x, g);
    }
  }

  /** The expression for the first of a pair in a template. */
  function FirstOf(a: Datum): Result<Datum, SyntaxError> {
    if IsForm(a, Unquote) || IsForm(a, Splice) then if a.cdr.Pair? then Ok(a.cdr.car) else Err(ExpectedPair)
    else if a.Pair? then Quasi(a)
    else Ok(ListOf([Sym(Known(Keyword.Quote)), a]))
  }

  function FirstForm(a: Datum): Option<Form> {
    if IsForm(a, Unquote) || IsForm(a, Splice) then if a.cdr.Pair? then Parse(a.cdr.car) else None
    else if a.Pair? then ParseTemplate(a)
    else Some(Quoted(a))
  }

  lemma {:induction false} FirstElaborates(n: nat, a: Datum, g: nat)
    requires UpTo(n) && Size(a) < n && FirstForm(a).Some? && FirstOf(a).Ok?
    ensures Yields(FirstForm(a).value, g, C.Desugar(FirstOf(a).value, g))
    decreases Size(a), 2
  {
    if IsForm(a, Unquote) || IsForm(a, Splice) {
      SizeOfParts(a);
      SizeOfParts(a.cdr);
      assert Elaborates(a.cdr.car, g);
    } else if a.Pair? {
      TemplateElaborates(n, a, g);
    } else {
      DesugarQuote(a, g);
      SettleQuoted(a, g);
    }
  }

  lemma {:induction false} PairTemplateElaborates(n: nat, a: Datum, d: Datum, g: nat)
    requires UpTo(n) && Size(Pair(a, d)) <= n && ParseTemplate(Pair(a, d)).Some?
    requires !IsSymbol(a, Unquote) && Quasi(Pair(a, d)).Ok? && C.Desugar(Quasi(Pair(a, d)).value, g).Ok?
    ensures TemplateElaborated(Pair(a, d), g)
    decreases Size(Pair(a, d)), 0
  {
    SizeOfParts(Pair(a, d));
    var op := if IsForm(a, Splice) then Append else Cons;
    var first, rest := FirstOf(a).value, Quasi(d).value;
    assert Quasi(Pair(a, d)).value == ListOf([Sym(Known(op)), first, rest]);
    assert ParseTemplate(Pair(a, d)) == Some(Build(op, [FirstForm(a).value, ParseTemplate(d).value]));
    DesugarBuild(op, first, rest, g);
    FirstElaborates(n, a, g);
    var (ta, g1) := C.Desugar(first, g).value;
    TemplateElaborates(n, d, g1);
    var (tb, h) := C.Desugar(rest, g1).value;
    SettleTwo(FirstForm(a).value, ParseTemplate(d).value, g, ta, g1, tb, h);
    SettleBuild(op, [FirstForm(a).value, ParseTemplate(d).value], g, [ta, tb], h);
  }

  lemma {:induction false} VectorTemplateElaborates(n: nat, es: seq<Datum>, g: nat)
    requires UpTo(n) && Size(Vec(es)) <= n && ParseTemplate(Vec(es)).Some?
    requires Quasi(Vec(es)).Ok? && C.Desugar(Quasi(Vec(es)).value, g).Ok?
    ensures TemplateElaborated(Vec(es), g)
    decreases Size(Vec(es)), 0
  {
    SizeListOf(es);
    var f, list := ParseTemplate(ListOf(es)).value, Quasi(ListOf(es)).value;
    DesugarVector(list, g);
    TemplateElaborates(n, ListOf(es), g);
    var (t, h) := C.Desugar(list, g).value;
    SettleSole(f, g, t, h);
    SettleBuild(ListToVector, [f], g, [t], h);
  }
}
