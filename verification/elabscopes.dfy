/** Desugaring lists of forms, bodies and scopes gives what the forms they parse as become. */
module ScopeElaboration {
  import opened Wrappers
  import opened Datums
  import opened Symbols
  import opened Expand
  import C = CoreLanguage
  import opened Surface
  import opened Lowering
  import opened Rules
  import opened Shapes

  // ---- The induction hypothesis ----

  /** What desugaring f from g on gave, if it gave anything, came of f. */
  ghost predicate Yields(f: Form, g: nat, r: C.Desugared) {
    r.Ok? ==> Settled(f, g, r.value.0, r.value.1)
  }

  ghost predicate Elaborates(x: Datum, g: nat) {
    Parse(x).Some? ==> Yields(Parse(x).value, g, C.Desugar(x, g))
  }

  ghost predicate UpTo(n: nat) {
    forall x: Datum, g: nat :: Size(x) < n ==> Elaborates(x, g)
  }

  predicate Small(xs: seq<Datum>, n: nat) {
    forall i :: 0 <= i < |xs| ==> Size(xs[i]) < n
  }

  /** The expressions xs parse as the forms fs. */
  predicate Parses(xs: seq<Datum>, fs: seq<Form>) {
    |xs| == |fs| && forall i :: 0 <= i < |xs| ==> Parse(xs[i]) == Some(fs[i])
  }

  lemma {:induction false} AllElaborate(n: nat, xs: seq<Datum>, fs: seq<Form>, g: nat)
    requires UpTo(n) && Small(xs, n) && Parses(xs, fs) && C.DesugarArgs(xs, g).Ok?
    ensures AllSettled(fs, g, C.DesugarArgs(xs, g).value.0, C.DesugarArgs(xs, g).value.1)
  {
    if xs == [] {
      SettleNone(g);
    } else {
      assert Elaborates(xs[0], g);
      var (t, g1) := C.Desugar(xs[0], g).value;
      var (ts, h) := C.DesugarArgs(xs[1..], g1).value;
      AllElaborate(n, xs[1..], fs[1..], g1);
      SettleMore(fs, g, t, g1, ts, h);
    }
  }

  // ---- Lists and bodies ----

  lemma {:induction false} ListParses(x: Datum)
    requires ParseList(x).Some? && ToSeq(x).Some?
    ensures Parses(ToSeq(x).value, ParseList(x).value) && Small(ToSeq(x).value, Size(x))
  {
    if x.Pair? {
      ListParses(x.cdr);
    }
  }

  function BodyForm(fs: seq<Form>): Form {
    if fs == [] then Quoted(Nil) else if |fs| == 1 then fs[0] else Form.Then(fs[0], BodyForm(fs[1..]))
  }

  lemma {:induction false} BodyParses(x: Datum) returns (fs: seq<Form>)
    requires ParseBody(x).Some? && ToSeq(x).Some?
    ensures Parses(ToSeq(x).value, fs) && Small(ToSeq(x).value, Size(x)) && ParseBody(x).value == BodyForm(fs)
    decreases x, 1
  {
    if x.Nil? {
      fs := [];
    } else {
      var rest := BodyTail(x);
      fs := [Parse(x.car).value] + rest;
      assert fs[1..] == rest;
      assert ToSeq(x).value == [x.car] + ToSeq(x.cdr).value;
    }
  }

  lemma {:induction false} BodyTail(x: Datum) returns (fs: seq<Form>)
    requires x.Pair? && ParseBody(x).Some? && ToSeq(x).Some?
    ensures Parses(ToSeq(x.cdr).value, fs) && Small(ToSeq(x.cdr).value, Size(x))
    ensures x.cdr.Nil? <==> fs == []
    ensures fs != [] ==> ParseBody(x.cdr) == Some(BodyForm(fs))
    decreases x, 0
  {
    if x.cdr.Nil? {
      fs := [];
    } else {
      fs := BodyParses(x.cdr);
    }
  }

  lemma {:induction false} BodyElaborates(n: nat, xs: seq<Datum>, fs: seq<Form>, g: nat)
    requires UpTo(n) && Small(xs, n) && Parses(xs, fs)
    ensures Yields(BodyForm(fs), g, C.DesugarBody(xs, g))
  {
    if xs == [] {
      SettleQuoted(Nil, g);
    } else {
      assert Elaborates(xs[0], g);
      if |xs| >= 2 && C.DesugarBody(xs, g).Ok? {
        var (t, g1) := C.Desugar(xs[0], g).value;
        var (more, h) := C.DesugarBody(xs[1..], g1).value;
        BodyElaborates(n, xs[1..], fs[1..], g1);
        SettleThen(fs[0], BodyForm(fs[1..]), g, t, g1, more, h);
      }
    }
  }

  // ---- Letrec ----

  /** Assignments to the variables of a letrec, and its body. */
  lemma {:induction false} FillElaborates(n: nat, bs: seq<Binding>, fs: seq<Form>, tail: seq<Datum>, tfs: seq<Form>,
                                          g: nat)
    requires UpTo(n) && Small(Inits(bs), n) && Parses(Inits(bs), fs)
    requires Small(tail, n) && Parses(tail, tfs) && tail != []
    requires C.DesugarBody(Assignments(bs) + tail, g).Ok?
    ensures var (t, h) := C.DesugarBody(Assignments(bs) + tail, g).value;
            FillSettled(NamesOf(bs), fs, BodyForm(tfs), g, t, h)
  {
    var xs := Assignments(bs) + tail;
    var (t, h) := C.DesugarBody(xs, g).value;
    if bs == [] {
      assert xs == tail;
      BodyElaborates(n, tail, tfs, g);
      SettleFilled(BodyForm(tfs), g, t, h);
    } else {
      var b := bs[0];
      AssignmentFirst(bs, tail, g);
      assert Inits(bs)[0] == b.init && Inits(bs)[1..] == Inits(bs[1..]) && NamesOf(bs)[1..] == NamesOf(bs[1..]);
      assert Elaborates(b.init, g);
      var (a, g1) := C.Desugar(b.init, g).value;
      FillElaborates(n, bs[1..], fs[1..], tail, tfs, g1);
      SettleFill(NamesOf(bs), fs, BodyForm(tfs), g, a, g1, C.DesugarBody(Assignments(bs[1..]) + tail, g1).value.0, h);
    }
  }

  /** The first of the assignments, and what comes after it. */
  lemma AssignmentFirst(bs: seq<Binding>, tail: seq<Datum>, g: nat)
    requires bs != [] && tail != [] && C.DesugarBody(Assignments(bs) + tail, g).Ok?
    ensures C.Desugar(bs[0].init, g).Ok?
    ensures var (a, g1) := C.Desugar(bs[0].init, g).value;
            && C.DesugarBody(Assignments(bs[1..]) + tail, g1).Ok?
            && var (more, h) := C.DesugarBody(Assignments(bs[1..]) + tail, g1).value;
            C.DesugarBody(Assignments(bs) + tail, g).value == (C.Then(C.Assign(bs[0].name, a), more), h)
  {
    var xs, b := Assignments(bs) + tail, bs[0];
    assert xs[0] == ListOf([Sym(Known(Keyword.Set)), Sym(b.name), b.init]);
    assert xs[1..] == Assignments(bs[1..]) + tail;
    DesugarSet(b.name, b.init, g);
  }

  /** The expansion of a letrec with variables. */
  lemma LetrecTailElaborates(n: nat, bs: seq<Binding>, fs: seq<Form>, tail: seq<Datum>, tfs: seq<Form>, g: nat)
    requires UpTo(n) && Small(Inits(bs), n) && Parses(Inits(bs), fs) && bs != []
    requires Small(tail, n) && Parses(tail, tfs) && tail != []
    ensures Yields(Form.Letrec(NamesOf(bs), fs, BodyForm(tfs)), g,
                   C.Desugar(LetForm(Keyword.Let, Undefined(bs), ListOf([BeginForm(Assignments(bs) + tail)])), g))
  {
    if C.Desugar(LetForm(Keyword.Let, Undefined(bs), ListOf([BeginForm(Assignments(bs) + tail)])), g).Ok? {
      DesugarAssignments(bs, tail, g);
      FillElaborates(n, bs, fs, tail, tfs, g);
      var (t, h) := C.DesugarBody(Assignments(bs) + tail, g).value;
      SettleLetrec(NamesOf(bs), fs, BodyForm(tfs), g, t, h);
    }
  }

  lemma LetrecElaborates(n: nat, bs: seq<Binding>, fs: seq<Form>, tail: seq<Datum>, tfs: seq<Form>, g: nat)
    requires UpTo(n) && Small(Inits(bs), n) && Parses(Inits(bs), fs) && bs != []
    requires Small(tail, n) && Parses(tail, tfs) && tail != []
    ensures Yields(Form.Letrec(NamesOf(bs), fs, BodyForm(tfs)), g,
              C.Desugar(LetForm(Keyword.Letrec, bs, ListOf(tail)), g))
  {
    ExpandLetrecForm(bs, tail, g);
    LetrecTailElaborates(n, bs, fs, tail, tfs, g);
  }

  // ---- Scopes ----

  /** The bindings bs and the forms after them, parsed. */
  ghost predicate DefinesAre(n: nat, bs: seq<Binding>, rest: seq<Datum>, names: seq<Symbol>, fs: seq<Form>, f: Form,
                             tail: seq<Datum>, tfs: seq<Form>) {
    && NamesOf(bs) == names && Parses(Inits(bs), fs) && Small(Inits(bs), n)
    && tail == (if rest == [] then [Sym(Known(Undef))] else rest)
    && Parses(tail, tfs) && f == BodyForm(tfs) && Small(tail, n)
  }

  lemma OneMoreDefine(n: nat, b: Binding, bs: seq<Binding>, rest: seq<Datum>, names: seq<Symbol>, e: Form,
                      fs: seq<Form>, f: Form,
                      tail: seq<Datum>, tfs: seq<Form>)
    requires DefinesAre(n, bs, rest, names, fs, f, tail, tfs) && Parse(b.init) == Some(e) && Size(b.init) < n
    ensures DefinesAre(n, [b] + bs, rest, [b.name] + names, [e] + fs, f, tail, tfs)
  {
    assert NamesOf([b] + bs) == [b.name] + NamesOf(bs) && Inits([b] + bs) == [b.init] + Inits(bs);
  }

  /** The leading defines of a body, as the bindings of a letrec. */
  lemma {:induction false} DefinesParse(n: nat, body: Datum) returns (tail: seq<Datum>, tfs: seq<Form>)
    requires Size(body) <= n && n > 1
    requires ToSeq(body).Some? && LeadingDefines(ToSeq(body).value).Ok? && ParseDefines(body).Some?
    ensures var (bs, rest) := LeadingDefines(ToSeq(body).value).value;
            var (names, fs, f) := ParseDefines(body).value;
            DefinesAre(n, bs, rest, names, fs, f, tail, tfs)
    decreases body
  {
    var xs := ToSeq(body).value;
    if body.Pair? && IsForm(body.car, Keyword.Define) {
      DefineParses(body.car);
      assert xs == [body.car] + ToSeq(body.cdr).value;
      assert xs[1..] == ToSeq(body.cdr).value;
      tail, tfs := DefinesParse(n, body.cdr);
      var (bs, rest) := LeadingDefines(xs[1..]).value;
      var (names, fs, f) := ParseDefines(body.cdr).value;
      OneMoreDefine(n, InternalDefine(body.car).value, bs, rest, names, ParseDefine(body.car).value.1, fs, f, tail,
                    tfs);
    } else if body.Nil? {
      tail, tfs := [Sym(Known(Undef))], [Var(Known(Undef))];
    } else {
      tfs := BodyParses(body);
      tail := xs;
    }
  }

  lemma DefineParses(x: Datum)
    requires IsForm(x, Keyword.Define) && InternalDefine(x).Ok? && ParseDefine(x).Some?
    ensures ParseDefine(x).value.0 == InternalDefine(x).value.name
    ensures Parse(InternalDefine(x).value.init) == Some(ParseDefine(x).value.1)
    ensures Size(InternalDefine(x).value.init) < Size(x)
  {
    SizeOfParts(x);
    if x.cdr.car.Pair? {
      LambdaParses(x.cdr.car.cdr, x.cdr.cdr);
    }
  }

  lemma LambdaParses(params: Datum, body: Datum)
    ensures Parse(LambdaForm(params, body)) == ParseLambda(params, body)
    ensures Size(LambdaForm(params, body)) == 3 + Size(params) + Size(body)
  {
    var operands, head := Pair(params, body), Sym(Known(Keyword.Lambda));
    assert Size(operands) == 1 + Size(params) + Size(body);
    assert Size(Pair(head, operands)) == 1 + Size(head) + Size(operands);
    assert Parse(Pair(head, operands)) == ParseSyntax(Keyword.Lambda, operands);
    assert ParseSyntax(Keyword.Lambda, operands) == ParseSpecial(Keyword.Lambda, operands);
    assert ParseSpecial(Keyword.Lambda, operands) == ParseLambda(params, body);
  }

  lemma ScopedElaborates(n: nat, body: Datum, g: nat)
    requires UpTo(n) && Size(body) <= n && ParseScoped(body).Some? && ScanOutDefines(body).Ok?
    ensures Yields(ParseScoped(body).value, g, C.DesugarBody(ScanOutDefines(body).value, g))
  {
    var xs := ToSeq(body).value;
    if body.Pair? && IsForm(body.car, Keyword.Define) {
      DefinesElaborate(n, body, g);
    } else {
      var fs := BodyParses(body);
      BodyElaborates(n, xs, fs, g);
    }
  }

  lemma DefinesElaborate(n: nat, body: Datum, g: nat)
    requires UpTo(n) && Size(body) <= n && ParseScoped(body).Some? && ScanOutDefines(body).Ok?
    requires body.Pair? && IsForm(body.car, Keyword.Define)
    ensures Yields(ParseScoped(body).value, g, C.DesugarBody(ScanOutDefines(body).value, g))
  {
    var tail, tfs := DefinesParse(n, body);
    var (bs, rest) := LeadingDefines(ToSeq(body).value).value;
    var (names, fs, f) := ParseDefines(body).value;
    assert bs != [];
    DesugarOne(LetForm(Keyword.Letrec, bs, ListOf(tail)), g);
    LetrecElaborates(n, bs, fs, tail, tfs, g);
  }

  // ---- Let ----

  lemma {:induction false} BindingsParse(form: Keyword, x: Datum)
    requires Bindings(form, x).Ok? && ParseBindings(x).Some?
    ensures ParseBindings(x).value.0 == NamesOf(Bindings(form, x).value)
    ensures Parses(Inits(Bindings(form, x).value), ParseBindings(x).value.1)
    ensures Small(Inits(Bindings(form, x).value), Size(x))
  {
    SizeOfParts(x);
    if x.Pair? {
      BindingsParse(form, x.cdr);
      var bs := Bindings(form, x.cdr).value;
      var b := Binding(x.car.car.name, x.car.cdr.car);
      assert Bindings(form, x).value == [b] + bs;
      assert NamesOf([b] + bs) == [b.name] + NamesOf(bs) && Inits([b] + bs) == [b.init] + Inits(bs);
    }
  }

  lemma LetElaborates(n: nat, bs: seq<Binding>, fs: seq<Form>, body: Datum, g: nat)
    requires UpTo(n) && Small(Inits(bs), n) && Parses(Inits(bs), fs) && Size(body) <= n && ParseScoped(body).Some?
    ensures Yields(Form.Let(NamesOf(bs), fs, ParseScoped(body).value), g,
                   C.Desugar(Pair(LambdaForm(ListOf(Names(bs)), body), ListOf(Inits(bs))), g))
  {
    if C.Desugar(Pair(LambdaForm(ListOf(Names(bs)), body), ListOf(Inits(bs))), g).Ok? {
      DesugarApplied(bs, body, g);
      AllElaborate(n, Inits(bs), fs, g);
      var (ts, g1) := C.DesugarArgs(Inits(bs), g).value;
      ScopedElaborates(n, body, g1);
      var (t, h) := C.DesugarBody(ScanOutDefines(body).value, g1).value;
      SettleLet(NamesOf(bs), fs, ParseScoped(body).value, g, ts, g1, t, h);
    }
  }

  lemma NamedLetElaborates(n: nat, loop: Symbol, bs: seq<Binding>, fs: seq<Form>, body: Datum, g: nat)
    requires UpTo(n) && Small(Inits(bs), n) && Parses(Inits(bs), fs) && Size(body) <= n && ParseScoped(body).Some?
    ensures Yields(Form.NamedLet(loop, NamesOf(bs), fs, ParseScoped(body).value), g,
                   C.Desugar(LoopForm(loop, bs, body, Inits(bs)), g))
  {
    if IsSyntaxName(loop) {
      KeywordLoop(loop, NamesOf(bs), fs, ParseScoped(body).value, g, C.Desugar(LoopForm(loop, bs, body, Inits(bs)), g));
    } else if C.Desugar(LoopForm(loop, bs, body, Inits(bs)), g).Ok? {
      DesugarLoop(loop, bs, body, Inits(bs), g);
      ScopedElaborates(n, body, g);
      var (t, g1) := C.DesugarBody(ScanOutDefines(body).value, g).value;
      AllElaborate(n, Inits(bs), fs, g1);
      var (ts, h) := C.DesugarArgs(Inits(bs), g1).value;
      SettleNamedLet(loop, NamesOf(bs), fs, ParseScoped(body).value, g, t, g1, ts, h);
    }
  }

  /** A loop named like a keyword is not called by its name, so nothing is what it becomes. */
  lemma KeywordLoop(loop: Symbol, names: seq<Symbol>, fs: seq<Form>, body: Form, g: nat, r: C.Desugared)
    requires IsSyntaxName(loop)
    ensures Yields(Form.NamedLet(loop, names, fs, body), g, r)
  {
    if r.Ok? {
      Unfold(Form.NamedLet(loop, names, fs, body), g, r.value.0, r.value.1);
    }
  }

  lemma LetFormElaborates(rest: Datum, g: nat)
    requires UpTo(Size(rest)) && rest.Pair? && ParseDerived(Keyword.Let, rest).Some? && ExpandLet(rest).Ok?
    ensures Yields(ParseDerived(Keyword.Let, rest).value, g, C.Desugar(ExpandLet(rest).value, g))
  {
    SizeOfParts(rest);
    if rest.car.Sym? {
      BindingsParse(Keyword.Let, rest.cdr.car);
      var bs := Bindings(Keyword.Let, rest.cdr.car).value;
      NamedLetElaborates(Size(rest), rest.car.name, bs, ParseBindings(rest.cdr.car).value.1, rest.cdr.cdr, g);
    } else {
      BindingsParse(Keyword.Let, rest.car);
      LetElaborates(Size(rest), Bindings(Keyword.Let, rest.car).value, ParseBindings(rest.car).value.1, rest.cdr, g);
    }
  }

  /** A body wrapped up as one form parses as it did. */
  lemma LoneParses(body: Datum, xs: seq<Datum>)
    requires ToSeq(body) == Some(xs)
    ensures ParseScoped(ListOf([BeginForm(xs)])) == ParseLone(body)
    ensures Size(ListOf([BeginForm(xs)])) <= 4 + Size(body)
  {
    var z := BeginForm(xs);
    ListOfOne(z);
    assert Size(Pair(z, Nil)) == 2 + Size(z);
    if |xs| >= 2 {
      var head := Sym(Known(Keyword.Begin));
      assert z == Pair(head, body);
      assert Size(z) == 1 + Size(head) + Size(body);
      assert Parse(z) == ParseSyntax(Keyword.Begin, body) == ParseSpecial(Keyword.Begin, body) == ParseBody(body);
      assert ParseScoped(Pair(z, Nil)) == ParseBody(Pair(z, Nil)) == Parse(z);
      assert body.Pair? && body.cdr.Pair?;
    } else if |xs| == 1 {
      assert xs == [z] && body == ListOf([z]);
    } else {
      assert z == Nil && body == Nil;
      assert ParseBody(Pair(Nil, Nil)) == Parse(Nil) == ParseBody(Nil);
    }
  }

  lemma LetrecFormElaborates(rest: Datum, g: nat)
    requires UpTo(2 + Size(rest)) && rest.Pair? && ParseDerived(Keyword.Letrec, rest).Some? && ExpandLetrec(rest).Ok?
    ensures Yields(ParseDerived(Keyword.Letrec, rest).value, g, C.Desugar(ExpandLetrec(rest).value, g))
  {
    SizeOfParts(rest);
    BindingsParse(Keyword.Letrec, rest.car);
    var bs := Bindings(Keyword.Letrec, rest.car).value;
    var tail := ToSeq(rest.cdr).value;
    assert ToSeq(rest).value[1..] == tail;
    if bs == [] {
      assert Assignments(bs) + tail == tail;
      EmptyLetrecElaborates(2 + Size(rest), rest.cdr, tail, g);
    } else {
      var tfs := BodyParses(rest.cdr);
      LetrecTailElaborates(2 + Size(rest), bs, ParseBindings(rest.car).value.1, tail, tfs, g);
    }
  }

  /** A letrec without variables is a scope all the same. */
  lemma EmptyLetrecElaborates(n: nat, body: Datum, tail: seq<Datum>, g: nat)
    requires UpTo(n) && 4 + Size(body) <= n && ToSeq(body) == Some(tail) && ParseLone(body).Some?
    ensures Yields(Form.Letrec([], [], ParseLone(body).value), g,
                   C.Desugar(LetForm(Keyword.Let, Undefined([]), ListOf([BeginForm(tail)])), g))
  {
    var z := BeginForm(tail);
    if C.Desugar(LetForm(Keyword.Let, Undefined([]), ListOf([z])), g).Ok? {
      DesugarFill([], z, g);
      LoneParses(body, tail);
      ScopedElaborates(n, ListOf([z]), g);
      var (t, h) := C.DesugarBody(ScanOutDefines(ListOf([z])).value, g).value;
      SettleFilled(ParseLone(body).value, g, t, h);
      SettleLetrec([], [], ParseLone(body).value, g, t, h);
    }
  }

  // ---- Let* ----

  lemma {:induction false} StarElaborates(n: nat, bs: seq<Binding>, fs: seq<Form>, z: Datum, g: nat)
    requires UpTo(n) && Small(Inits(bs), n) && Parses(Inits(bs), fs) && bs != []
    requires Size(ListOf([z])) <= n && ParseScoped(ListOf([z])).Some?
    ensures Yields(OneByOne(NamesOf(bs), fs, ParseScoped(ListOf([z])).value), g, C.Desugar(StarForm(bs, z), g))
    decreases bs
  {
    var b, body := bs[0], ParseScoped(ListOf([z])).value;
    if |bs| == 1 {
      DesugarLet(bs, [z], g);
      OneBinding(bs, fs, body);
      LetElaborates(n, bs, fs, ListOf([z]), g);
    } else if C.Desugar(StarForm(bs, z), g).Ok? {
      StarSplit(bs, z, g);
      var (ta, g1) := C.Desugar(b.init, g).value;
      var (tb, h) := C.Desugar(StarForm(bs[1..], z), g1).value;
      MoreBindings(bs, fs, body);
      assert Elaborates(b.init, g);
      StarElaborates(n, bs[1..], fs[1..], z, g1);
      SettleSole(fs[0], g, ta, g1);
      SettleLet([b.name], [fs[0]], OneByOne(NamesOf(bs[1..]), fs[1..], body), g, [ta], g1, tb, h);
    }
  }

  lemma OneBinding(bs: seq<Binding>, fs: seq<Form>, body: Form)
    requires |bs| == |fs| == 1
    ensures OneByOne(NamesOf(bs), fs, body) == Form.Let(NamesOf(bs), fs, body)
  {
    assert NamesOf(bs) == [bs[0].name] && fs == [fs[0]];
    assert OneByOne(NamesOf(bs)[1..], fs[1..], body) == body;
  }

  lemma MoreBindings(bs: seq<Binding>, fs: seq<Form>, body: Form)
    requires |bs| == |fs| > 0
    ensures OneByOne(NamesOf(bs), fs, body) ==
            Form.Let([bs[0].name], [fs[0]], OneByOne(NamesOf(bs[1..]), fs[1..], body))
    ensures Inits(bs)[0] == bs[0].init && Inits(bs)[1..] == Inits(bs[1..])
  {
    assert NamesOf(bs)[1..] == NamesOf(bs[1..]);
  }

  lemma StarSplit(bs: seq<Binding>, z: Datum, g: nat)
    requires |bs| > 1 && C.Desugar(StarForm(bs, z), g).Ok?
    ensures C.Desugar(bs[0].init, g).Ok? && C.Desugar(StarForm(bs[1..], z), C.Desugar(bs[0].init, g).value.1).Ok?
    ensures var (ta, g1) := C.Desugar(bs[0].init, g).value;
            var (tb, h) := C.Desugar(StarForm(bs[1..], z), g1).value;
            C.Desugar(StarForm(bs, z), g).value == (C.Call(C.Fun([bs[0].name], None, tb), [ta]), h)
  {
    DesugarLetOne(bs[0].name, bs[0].init, LetForm(Keyword.LetStar, bs[1..], ListOf([z])), g);
    StarForms(bs[1..], z, C.Desugar(bs[0].init, g).value.1);
  }

  /** What a let* with variables expands to, its body one form. */
  function StarForm(bs: seq<Binding>, z: Datum): Datum
    requires bs != []
  {
    if |bs| == 1 then LetForm(Keyword.Let, bs, ListOf([z]))
    else LetForm(Keyword.Let, [bs[0]], ListOf([LetForm(Keyword.LetStar, bs[1..], ListOf([z]))]))
  }

  lemma StarForms(bs: seq<Binding>, z: Datum, g: nat)
    requires bs != [] && C.Desugar(LetForm(Keyword.LetStar, bs, ListOf([z])), g).Ok?
    ensures C.Desugar(LetForm(Keyword.LetStar, bs, ListOf([z])), g) == C.Desugar(StarForm(bs, z), g)
  {
    var rest := Pair(ListOf(BindingList(bs)), ListOf([z]));
    ToSeqListOf([z]);
    BindingsOfList(Keyword.LetStar, bs);
    assert ToSeq(rest) == Some([rest.car] + [z]);
    assert ([rest.car] + [z])[1..] == [z];
    DesugarDerived(Keyword.LetStar, rest, g);
  }

  lemma LetStarFormElaborates(rest: Datum, g: nat)
    requires UpTo(2 + Size(rest)) && rest.Pair? && ParseDerived(Keyword.LetStar, rest).Some? && ExpandLetStar(rest).Ok?
    ensures Yields(ParseDerived(Keyword.LetStar, rest).value, g, C.Desugar(ExpandLetStar(rest).value, g))
  {
    SizeOfParts(rest);
    BindingsParse(Keyword.LetStar, rest.car);
    var bs := Bindings(Keyword.LetStar, rest.car).value;
    var xs := ToSeq(rest.cdr).value;
    assert ToSeq(rest).value[1..] == xs;
    if bs == [] {
      var fs := BodyParses(rest.cdr);
      DesugarBegin(xs, g);
      BodyElaborates(Size(rest), xs, fs, g);
    } else {
      LoneParses(rest.cdr, xs);
      assert Size(rest.car) >= 3;
      StarElaborates(2 + Size(rest), bs, ParseBindings(rest.car).value.1, BeginForm(xs), g);
    }
  }
}
