/** How a form becomes a core term, constructor by constructor: the term is what the form becomes exactly if the form
    is hygienic, and then the counter moves as the form says. */
module Rules {
  import opened Wrappers
  import opened Datums
  import opened Symbols
  import C = CoreLanguage
  import opened Surface
  import opened Lowering
  import opened Hygiene

  /** Either both hold, and the counter is right, or neither does. */
  predicate Agreed(becomes: bool, clean: bool, counted: bool) {
    becomes || clean ==> becomes && clean && counted
  }

  /** t, with the counter then at h, came of f with the counter at g. Stated so that only `Unfold` unfolds it. */
  ghost predicate Settled(f: Form, g: nat, t: Core, h: nat) {
    forall x :: x in [f] ==> Agreed(Becomes(x, t), Clean(x, g), h == After(x, g))
  }

  lemma Unfold(f: Form, g: nat, t: Core, h: nat)
    ensures Settled(f, g, t, h) <==> Agreed(Lowers(f, t), Clean(f, g), h == After(f, g))
    ensures Becomes(f, t) <==> Lowers(f, t)
  {
    assert f in [f];
    Unseal(f, t);
  }

  predicate AllSettled(fs: seq<Form>, g: nat, ts: seq<Core>, h: nat) {
    |fs| == |ts| && Agreed(BecomesAll(fs, ts), CleanAll(fs, g), h == AfterAll(fs, g))
  }

  lemma SettleNone(g: nat)
    ensures AllSettled([], g, [], g)
  {
  }

  lemma SettleMore(fs: seq<Form>, g: nat, t: Core, g1: nat, ts: seq<Core>, h: nat)
    requires fs != [] && Settled(fs[0], g, t, g1) && AllSettled(fs[1..], g1, ts, h)
    ensures AllSettled(fs, g, [t] + ts, h)
  {
    Unfold(fs[0], g, t, g1);
    if BecomesAll(fs, [t] + ts) {
      assert Becomes(fs[0], ([t] + ts)[0]);
      forall i | 0 <= i < |fs| - 1 ensures Becomes(fs[1..][i], ts[i]) {
        assert Becomes(fs[i + 1], ([t] + ts)[i + 1]);
      }
    }
  }

  lemma SettleTwo(a: Form, b: Form, g: nat, ta: Core, g1: nat, tb: Core, h: nat)
    requires Settled(a, g, ta, g1) && Settled(b, g1, tb, h)
    ensures AllSettled([a, b], g, [ta, tb], h)
  {
    SettleNone(h);
    SettleMore([b], g1, tb, h, [], h);
    assert [a, b][1..] == [b] && [ta] + ([tb] + []) == [ta, tb];
    SettleMore([a, b], g, ta, g1, [tb] + [], h);
  }

  lemma SettleSole(f: Form, g: nat, t: Core, h: nat)
    requires Settled(f, g, t, h)
    ensures AllSettled([f], g, [t], h)
  {
    SettleNone(h);
    assert [f][1..] == [] && [t] + [] == [t];
    SettleMore([f], g, t, h, [], h);
  }

  lemma SealsAll(fs: seq<Form>, ts: seq<Core>)
    ensures LowersAll(fs, ts) <==> BecomesAll(fs, ts)
  {
    if BecomesAll(fs, ts) { SealAll(fs, ts); }
    if LowersAll(fs, ts) { UnsealAll(fs, ts); }
  }

  // ---- Forms that the compiler takes itself ----

  lemma SettleQuoted(x: Datum, g: nat)
    ensures Settled(Quoted(x), g, C.Const(x), g)
  {
    Unfold(Quoted(x), g, C.Const(x), g);
  }

  lemma SettleVar(x: Symbol, g: nat)
    ensures Settled(Var(x), g, C.Ref(x), g)
  {
    Unfold(Var(x), g, C.Ref(x), g);
  }

  lemma SettleThen(a: Form, b: Form, g: nat, ta: Core, g1: nat, tb: Core, h: nat)
    requires Settled(a, g, ta, g1) && Settled(b, g1, tb, h)
    ensures Settled(Form.Then(a, b), g, C.Then(ta, tb), h)
  {
    Unfold(a, g, ta, g1);
    Unfold(b, g1, tb, h);
    Unfold(Form.Then(a, b), g, C.Then(ta, tb), h);
  }

  lemma SettleIf(a: Form, b: Form, c: Form, g: nat, ta: Core, g1: nat, tb: Core, g2: nat, tc: Core, h: nat)
    requires Settled(a, g, ta, g1) && Settled(b, g1, tb, g2) && Settled(c, g2, tc, h)
    ensures Settled(Form.If(a, b, c), g, C.Test(ta, tb, tc), h)
  {
    Unfold(a, g, ta, g1);
    Unfold(b, g1, tb, g2);
    Unfold(c, g2, tc, h);
    Unfold(Form.If(a, b, c), g, C.Test(ta, tb, tc), h);
  }

  lemma SettleLambda(params: seq<Symbol>, rest: Option<Symbol>, body: Form, g: nat, t: Core, h: nat)
    requires Settled(body, g, t, h)
    ensures Settled(Form.Lambda(params, rest, body), g, C.Fun(params, rest, t), h)
  {
    Unfold(body, g, t, h);
    Unfold(Form.Lambda(params, rest, body), g, C.Fun(params, rest, t), h);
  }

  lemma SettleDefine(x: Symbol, rhs: Form, g: nat, t: Core, h: nat)
    requires Settled(rhs, g, t, h)
    ensures Settled(Form.Define(x, rhs), g, C.Def(x, t), h)
  {
    Unfold(rhs, g, t, h);
    Unfold(Form.Define(x, rhs), g, C.Def(x, t), h);
  }

  lemma SettleSet(x: Symbol, rhs: Form, g: nat, t: Core, h: nat)
    requires Settled(rhs, g, t, h)
    ensures Settled(Form.Set(x, rhs), g, C.Assign(x, t), h)
  {
    Unfold(rhs, g, t, h);
    Unfold(Form.Set(x, rhs), g, C.Assign(x, t), h);
  }

  lemma SettleCapture(receiver: Form, g: nat, t: Core, h: nat)
    requires Settled(receiver, g, t, h)
    ensures Settled(Form.CallCC(receiver), g, C.CaptureCall(t), h)
  {
    Unfold(receiver, g, t, h);
    Unfold(Form.CallCC(receiver), g, C.CaptureCall(t), h);
  }

  lemma SettleCall(f: Form, fs: seq<Form>, spread: bool, g: nat, ts: seq<Core>, g1: nat, t: Core, h: nat)
    requires AllSettled(fs, g, ts, g1) && Settled(f, g1, t, h) && (spread ==> fs != [])
    ensures Settled(Form.Call(f, fs, spread), g, if spread then C.Spread(t, ts) else C.Call(t, ts), h)
  {
    SealsAll(fs, ts);
    Unfold(f, g1, t, h);
    Unfold(Form.Call(f, fs, spread), g, if spread then C.Spread(t, ts) else C.Call(t, ts), h);
  }

  lemma SettleBuild(op: Keyword, fs: seq<Form>, g: nat, ts: seq<Core>, h: nat)
    requires AllSettled(fs, g, ts, h) && IsBuilder(op)
    ensures Settled(Build(op, fs), g, C.Call(C.Ref(Known(op)), ts), h)
  {
    SealsAll(fs, ts);
    Unfold(Build(op, fs), g, C.Call(C.Ref(Known(op)), ts), h);
  }

  // ---- Scopes ----

  lemma SettleLet(names: seq<Symbol>, fs: seq<Form>, body: Form, g: nat, ts: seq<Core>, g1: nat, t: Core, h: nat)
    requires |names| == |fs| && AllSettled(fs, g, ts, g1) && Settled(body, g1, t, h)
    ensures Settled(Form.Let(names, fs, body), g, C.Call(C.Fun(names, None, t), ts), h)
  {
    SealsAll(fs, ts);
    Unfold(body, g1, t, h);
    Unfold(Form.Let(names, fs, body), g, C.Call(C.Fun(names, None, t), ts), h);
  }

  /** What a loop becomes, with its body and its first arguments. */
  function LoopTerm(loop: Symbol, names: seq<Symbol>, body: Core, args: seq<Core>): Core {
    C.Call(C.Fun([loop], None, C.Then(C.Assign(loop, C.Fun(names, None, body)), C.Call(C.Ref(loop), args))),
           [UNDEFINED])
  }

  lemma LoopTermIs(loop: Symbol, names: seq<Symbol>, body: Core, args: seq<Core>)
    ensures var t := LoopTerm(loop, names, body, args);
            (IsLoop(t, loop, names) <==> !Standard(loop)) && LoopBody(t) == body && LoopInits(t) == args
  {
  }

  lemma SettleNamedLet(loop: Symbol, names: seq<Symbol>, fs: seq<Form>, body: Form, g: nat, t: Core, g1: nat,
                       ts: seq<Core>, h: nat)
    requires |names| == |fs| && Settled(body, g, t, g1) && AllSettled(fs, g1, ts, h)
    ensures Settled(Form.NamedLet(loop, names, fs, body), g, LoopTerm(loop, names, t, ts), h)
  {
    LoopTermIs(loop, names, t, ts);
    SealsAll(fs, ts);
    Unfold(body, g, t, g1);
    Unfold(Form.NamedLet(loop, names, fs, body), g, LoopTerm(loop, names, t, ts), h);
  }

  /** t assigns the values of fs to the names, and goes on with the body. */
  predicate FillSettled(names: seq<Symbol>, fs: seq<Form>, body: Form, g: nat, t: Core, h: nat) {
    Agreed(LowersFill(names, fs, t) && Becomes(body, Bottom(|names|, t)),
           CleanAll(fs, g) && Clean(body, AfterAll(fs, g)), h == After(body, AfterAll(fs, g)))
  }

  lemma SettleFilled(body: Form, g: nat, t: Core, h: nat)
    requires Settled(body, g, t, h)
    ensures FillSettled([], [], body, g, t, h)
  {
    Unfold(body, g, t, h);
  }

  lemma SettleFill(names: seq<Symbol>, fs: seq<Form>, body: Form, g: nat, t: Core, g1: nat, more: Core, h: nat)
    requires names != [] && |names| == |fs| && Settled(fs[0], g, t, g1)
    requires FillSettled(names[1..], fs[1..], body, g1, more, h)
    ensures FillSettled(names, fs, body, g, C.Then(C.Assign(names[0], t), more), h)
  {
    Unfold(fs[0], g, t, g1);
  }

  lemma SettleLetrec(names: seq<Symbol>, fs: seq<Form>, body: Form, g: nat, t: Core, h: nat)
    requires |names| == |fs| && FillSettled(names, fs, body, g, t, h)
    ensures Settled(Form.Letrec(names, fs, body), g, C.Call(C.Fun(names, None, t), seq(|names|, _ => UNDEFINED)), h)
  {
    Unseal(body, Bottom(|names|, t));
    Unfold(Form.Letrec(names, fs, body), g, C.Call(C.Fun(names, None, t), seq(|names|, _ => UNDEFINED)), h);
  }

  // ---- And, or ----

  lemma SettleEmptyAnd(g: nat)
    ensures Settled(Form.And([]), g, C.Const(Bool(true)), g)
  {
    Unfold(Form.And([]), g, C.Const(Bool(true)), g);
  }

  lemma SettleEmptyOr(g: nat)
    ensures Settled(Form.Or([]), g, C.Const(Bool(false)), g)
  {
    Unfold(Form.Or([]), g, C.Const(Bool(false)), g);
  }

  predicate AndSettled(fs: seq<Form>, g: nat, t: Core, h: nat) {
    Agreed(LowersAnd(fs, t), CleanAll(fs, g), h == AfterAll(fs, g))
  }

  lemma SettleAndSole(f: Form, g: nat, t: Core, h: nat)
    requires Settled(f, g, t, h)
    ensures AndSettled([f], g, t, h)
  {
    Unfold(f, g, t, h);
    assert [f][1..] == [];
  }

  lemma SettleAndMore(fs: seq<Form>, g: nat, t: Core, g1: nat, more: Core, h: nat)
    requires |fs| >= 2 && Settled(fs[0], g, t, g1) && AndSettled(fs[1..], g1, more, h)
    ensures AndSettled(fs, g, C.Test(t, more, C.Const(Bool(false))), h)
  {
    Unfold(fs[0], g, t, g1);
  }

  lemma SettleAnd(fs: seq<Form>, g: nat, t: Core, h: nat)
    requires AndSettled(fs, g, t, h)
    ensures Settled(Form.And(fs), g, t, h)
  {
    Unfold(Form.And(fs), g, t, h);
  }

  /** The value a in a variable y: that value if it is not false, and otherwise what `els` evaluates to. */
  function TempTerm(y: Symbol, a: Core, els: Core): Core {
    C.Call(C.Fun([y], None, C.Test(C.Ref(y), C.Ref(y), els)), [a])
  }

  predicate OrSettled(fs: seq<Form>, i: nat, g: nat, t: Core, h: nat) {
    Agreed(LowersOr(fs, t), OrFresh(fs, i) && CleanAll(fs, g), h == AfterAll(fs, g))
  }

  lemma SettleOrSole(f: Form, i: nat, g: nat, t: Core, h: nat)
    requires Settled(f, g, t, h)
    ensures OrSettled([f], i, g, t, h)
  {
    Unfold(f, g, t, h);
    assert [f][1..] == [];
  }

  lemma SettleOrMore(fs: seq<Form>, i: nat, g: nat, t: Core, g1: nat, more: Core, h: nat)
    requires |fs| >= 2 && Settled(fs[0], g, t, g1) && OrSettled(fs[1..], i + 1, g1, more, h)
    ensures OrSettled(fs, i, g, TempTerm(OrName(i + 1), t, more), h)
  {
    Unfold(fs[0], g, t, g1);
  }

  lemma SettleOr(fs: seq<Form>, i: nat, t: Core, h: nat)
    requires OrSettled(fs, i, i + OrDraws(|fs|), t, h)
    ensures Settled(Form.Or(fs), i, t, h)
  {
    Unfold(Form.Or(fs), i, t, h);
  }

  // ---- Cond, case ----

  predicate ClausesAgree(clauses: Clauses, i: nat, g: nat, t: Core, h: nat) {
    Agreed(LowersClauses(clauses, t), ClausesFresh(clauses, i) && CleanClauses(clauses, g),
           h == AfterClauses(clauses, g))
  }

  /** The same, stated so that only `ClausesOpened` unfolds it. */
  ghost predicate ClausesSettled(clauses: Clauses, i: nat, g: nat, t: Core, h: nat) {
    forall c :: c in [clauses] ==> ClausesAgree(c, i, g, t, h)
  }

  lemma ClausesOpened(clauses: Clauses, i: nat, g: nat, t: Core, h: nat)
    ensures ClausesSettled(clauses, i, g, t, h) <==> ClausesAgree(clauses, i, g, t, h)
  {
    assert clauses in [clauses];
  }

  lemma SettleOtherwise(f: Form, i: nat, g: nat, t: Core, h: nat)
    requires Settled(f, g, t, h)
    ensures ClausesSettled(Otherwise(f), i, g, t, h)
  {
    ClausesOpened(Otherwise(f), i, g, t, h);
    Unfold(f, g, t, h);
  }

  lemma SettleTestClause(test: Form, more: Clauses, i: nat, g: nat, t: Core, g1: nat, els: Core, h: nat)
    requires Settled(test, g, t, g1) && ClausesSettled(more, i + 1, g1, els, h)
    ensures ClausesSettled(Clause(test, None, more), i, g, TempTerm(CondName(i + 1), t, els), h)
  {
    ClausesOpened(more, i + 1, g1, els, h);
    ClausesOpened(Clause(test, None, more), i, g, TempTerm(CondName(i + 1), t, els), h);
    Unfold(test, g, t, g1);
    assert ClausesAgree(Clause(test, None, more), i, g, TempTerm(CondName(i + 1), t, els), h);
  }

  lemma SettleBodyClause(test: Form, body: Form, more: Clauses, i: nat,
                         g: nat, t: Core, g1: nat, b: Core, g2: nat, els: Core, h: nat)
    requires Settled(test, g, t, g1) && Settled(body, g1, b, g2) && ClausesSettled(more, i, g2, els, h)
    ensures ClausesSettled(Clause(test, Some(body), more), i, g, C.Test(t, b, els), h)
  {
    ClausesOpened(more, i, g2, els, h);
    ClausesOpened(Clause(test, Some(body), more), i, g, C.Test(t, b, els), h);
    Unfold(test, g, t, g1);
    Unfold(body, g1, b, g2);
    var g' := After(test, g);
    assert CleanOption(Some(body), g') == Clean(body, g') && AfterOption(Some(body), g') == After(body, g');
    assert ClausesAgree(Clause(test, Some(body), more), i, g, C.Test(t, b, els), h);
  }

  lemma SettleCond(clauses: Clauses, i: nat, t: Core, h: nat)
    requires ClausesSettled(clauses, i, i + ClauseDraws(clauses), t, h)
    ensures Settled(Form.Cond(clauses), i, t, h)
  {
    ClausesOpened(clauses, i, i + ClauseDraws(clauses), t, h);
    Unfold(Form.Cond(clauses), i, t, h);
  }

  lemma SettleEmptyCond(g: nat)
    ensures Settled(Form.Cond(Otherwise(Var(Known(Undef)))), g, UNDEFINED, g)
  {
    Unfold(Form.Cond(Otherwise(Var(Known(Undef)))), g, UNDEFINED, g);
  }

  /** The clauses of a case whose key is in the kth generated variable. */
  predicate ChoicesAgree(k: nat, choices: Choices, i: nat, g: nat, t: Core, h: nat) {
    Agreed(LowersChoices(CaseName(k), choices, t),
           CaseName(k) !in FreeChoices(choices) && ChoicesFresh(choices, i) && CleanChoices(choices, g),
           h == AfterChoices(choices, g))
  }

  /** The same, stated so that only `ChoicesOpened` unfolds it. */
  ghost predicate ChoicesSettled(k: nat, choices: Choices, i: nat, g: nat, t: Core, h: nat) {
    forall c :: c in [choices] ==> ChoicesAgree(k, c, i, g, t, h)
  }

  lemma ChoicesOpened(k: nat, choices: Choices, i: nat, g: nat, t: Core, h: nat)
    ensures ChoicesSettled(k, choices, i, g, t, h) <==> ChoicesAgree(k, choices, i, g, t, h)
  {
    assert choices in [choices];
  }

  lemma CaseIsNotCond(i: nat, j: nat)
    ensures CaseName(i) != CondName(j)
  {
    assert ("case" + Decimal(i))[1] == 'a';
    assert ("cond" + Decimal(j))[1] == 'o';
  }

  /** No known name is a generated one. */
  lemma CaseIsNotMemv(i: nat)
    ensures CaseName(i) != Known(Memv)
  {
  }

  lemma SettleDefault(k: nat, f: Form, i: nat, g: nat, t: Core, h: nat)
    requires Settled(f, g, t, h)
    ensures ChoicesSettled(k, Default(f), i, g, t, h)
  {
    ChoicesOpened(k, Default(f), i, g, t, h);
    Unfold(f, g, t, h);
  }

  lemma SettleTestChoice(k: nat, keys: Datum, more: Choices, i: nat, g: nat, els: Core, h: nat)
    requires ChoicesSettled(k, more, i + 1, g, els, h)
    ensures ChoicesSettled(k, Choice(keys, None, more), i, g,
              TempTerm(CondName(i + 1), MemvCall(CaseName(k), keys), els), h)
  {
    ChoicesOpened(k, more, i + 1, g, els, h);
    ChoicesOpened(k, Choice(keys, None, more), i, g, TempTerm(CondName(i + 1), MemvCall(CaseName(k), keys), els), h);
    CaseIsNotCond(k, i + 1);
    CaseIsNotMemv(k);
    var t := TempTerm(CondName(i + 1), MemvCall(CaseName(k), keys), els);
    assert ChoicesAgree(k, Choice(keys, None, more), i, g, t, h);
  }

  lemma SettleBodyChoice(k: nat, keys: Datum, body: Form, more: Choices, i: nat, g: nat, b: Core, g1: nat, els: Core,
                         h: nat)
    requires Settled(body, g, b, g1) && ChoicesSettled(k, more, i, g1, els, h)
    ensures ChoicesSettled(k, Choice(keys, Some(body), more), i, g, C.Test(MemvCall(CaseName(k), keys), b, els), h)
  {
    ChoicesOpened(k, more, i, g1, els, h);
    ChoicesOpened(k, Choice(keys, Some(body), more), i, g, C.Test(MemvCall(CaseName(k), keys), b, els), h);
    Unfold(body, g, b, g1);
    assert CleanOption(Some(body), g) == Clean(body, g) && AfterOption(Some(body), g) == After(body, g);
    CaseIsNotMemv(k);
    assert ChoicesAgree(k, Choice(keys, Some(body), more), i, g, C.Test(MemvCall(CaseName(k), keys), b, els), h);
  }

  lemma SettleCase(key: Form, choices: Choices, i: nat, a: Core, g: nat, t: Core, h: nat)
    requires Settled(key, i + 1, a, g) && ChoicesSettled(i + 1, choices, g, g + ChoiceDraws(choices), t, h)
    ensures Settled(Form.Case(key, choices), i, C.Call(C.Fun([CaseName(i + 1)], None, t), [a]), h)
  {
    var f, u := Form.Case(key, choices), C.Call(C.Fun([CaseName(i + 1)], None, t), [a]);
    ChoicesOpened(i + 1, choices, g, g + ChoiceDraws(choices), t, h);
    Unfold(key, i + 1, a, g);
    Unfold(f, i, u, h);
    assert Lowers(f, u) <==> Lowers(key, a) && LowersChoices(CaseName(i + 1), choices, t);
  }

  // ---- Do ----

  predicate CommandsSettled(fs: seq<Form>, g: nat, t: Core, again: Core, h: nat) {
    Bottom(|fs|, t) == again && Agreed(LowersCommands(fs, t), CleanAll(fs, g), h == AfterAll(fs, g))
  }

  lemma SettleCommand(fs: seq<Form>, g: nat, t: Core, g1: nat, more: Core, again: Core, h: nat)
    requires fs != [] && Settled(fs[0], g, t, g1) && CommandsSettled(fs[1..], g1, more, again, h)
    ensures CommandsSettled(fs, g, C.Then(t, more), again, h)
  {
    Unfold(fs[0], g, t, g1);
  }

  /** The parts of a do, with the counter after each. */
  datatype Round = Round(test: Core, g1: nat, result: Core, g2: nat, commands: Core, g3: nat, steps: seq<Core>, g4: nat,
                         inits: seq<Core>)

  ghost predicate RoundSettled(f: Form, loop: Symbol, g: nat, r: Round, h: nat)
    requires f.Do?
  {
    && Settled(f.test, g, r.test, r.g1) && Settled(f.result, r.g1, r.result, r.g2)
    && CommandsSettled(f.commands, r.g2, r.commands, C.Call(C.Ref(loop), r.steps), r.g3)
    && AllSettled(f.steps, r.g3, r.steps, r.g4) && AllSettled(f.inits, r.g4, r.inits, h)
  }

  /** A do's parts are hygienic exactly if they are what they become. */
  lemma RoundAgreed(f: Form, loop: Symbol, g: nat, r: Round, h: nat)
    requires f.Do? && RoundSettled(f, loop, g, r, h)
    ensures Agreed(&& LowersAll(f.inits, r.inits) && Lowers(f.test, r.test) && Lowers(f.result, r.result)
                   && LowersCommands(f.commands, r.commands) && LowersAll(f.steps, r.steps),
                   CleanDo(f, g),
                   h == AfterAll(f.inits, AfterAll(f.steps, AfterAll(f.commands, After(f.result, After(f.test, g))))))
  {
    Unfold(f.test, g, r.test, r.g1);
    Unfold(f.result, r.g1, r.result, r.g2);
    SealsAll(f.inits, r.inits);
    SealsAll(f.steps, r.steps);
  }

  lemma SettleDo(f: Form, i: nat, r: Round, h: nat)
    requires f.Do? && |f.names| == |f.inits| == |f.steps| && RoundSettled(f, LoopName(i + 1), i + 1, r, h)
    ensures Settled(f, i, LoopTerm(LoopName(i + 1), f.names, C.Test(r.test, r.result, r.commands), r.inits), h)
  {
    var t := LoopTerm(LoopName(i + 1), f.names, C.Test(r.test, r.result, r.commands), r.inits);
    RoundAgreed(f, LoopName(i + 1), i + 1, r, h);
    LoopTermIs(LoopName(i + 1), f.names, C.Test(r.test, r.result, r.commands), r.inits);
    Unfold(f, i, LoopTerm(LoopName(i + 1), f.names, C.Test(r.test, r.result, r.commands), r.inits), h);
  }
}
