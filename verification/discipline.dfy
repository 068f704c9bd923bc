/** The dump of a running program: who pushes what, who pops it, and what tail calls and continuations do to it. */
module Discipline {
  import opened Wrappers
  import opened CoreLanguage
  import M = Machine
  import opened CodeGen
  import R = Reference
  import opened Simulation
  import opened Soundness
  import opened Correctness
  import opened Iteration

  /** A state some program reaches from a start in stores that earlier programs left. */
  ghost predicate Reachable(P: M.Primitives, m: M.State) {
    exists t: Core, rs: R.RefStore, ms: M.MachineStore, N: nat ::
      Ready(rs, ms) && M.Run(P, StartMachine(t, ms), N) == M.Running(m)
  }

  /** Every reachable state represents a configuration of the reference semantics. */
  lemma Represents(P: M.Primitives, m: M.State) returns (r: R.Config)
    requires Reachable(P, m)
    ensures Related(r, m) && Fits(r)
  {
    var t: Core, rs: R.RefStore, ms: M.MachineStore, N: nat :|
      Ready(rs, ms) && M.Run(P, StartMachine(t, ms), N) == M.Running(m);
    var n := TrackProgram(P, t, rs, ms, N);
    r := R.Steps(P, StartReference(t, rs), n);
  }

  lemma ReachableStep(P: M.Primitives, m: M.State)
    requires Reachable(P, m) && M.Step(P, m).Running?
    ensures Reachable(P, M.Step(P, m).m)
  {
    var t: Core, rs: R.RefStore, ms: M.MachineStore, N: nat :|
      Ready(rs, ms) && M.Run(P, StartMachine(t, ms), N) == M.Running(m);
    IterateLast(M.Advance(P), M.Running(StartMachine(t, ms)), N);
    assert M.Run(P, StartMachine(t, ms), N + 1) == M.Running(M.Step(P, m).m);
  }

  // ---- Who pops what ----

  /** An instruction that ends a branch or a body, or keeps the caller's dump for its callee. */
  predicate EndsOrTail(ins: M.Instr) {
    ins.RTN? || ins.JOIN? || ins.TAPP? || ins.TCALLCC? || ins.SELR?
  }

  lemma {:induction false} GenStartsPlain(t: Core, scope: Scope, tail: bool)
    ensures Gen(t, scope, tail) != [] && !EndsOrTail(Gen(t, scope, tail)[0])
  {
    match t
    case Test(c, _, _) => GenStartsPlain(c, scope, false);
    case Then(a, _) => GenStartsPlain(a, scope, false);
    case Def(_, rhs) => GenStartsPlain(rhs, scope, false);
    case Assign(_, rhs) => GenStartsPlain(rhs, scope, false);
    case CaptureCall(f) => GenStartsPlain(f, scope, false);
    case Call(f, args) => if args != [] { GenStartsPlain(args[0], scope, false); }
    case Spread(f, args) => if args != [] { GenStartsPlain(args[0], scope, false); }
    case _ =>
  }

  lemma CallRestStartsPlain(todo: seq<Core>, f: Core, spread: bool, n: nat, scope: Scope, tail: bool)
    ensures CallRest(todo, f, spread, n, scope, tail) != [] && !EndsOrTail(CallRest(todo, f, spread, n, scope, tail)[0])
  {
    if todo != [] {
      GenStartsPlain(todo[0], scope, false);
    }
  }

  /** Only a machine that has a value to return is about to execute such an instruction. */
  lemma EndsReturning(r: R.Config, m: M.State)
    requires Related(r, m) && m.pc < |m.c| && EndsOrTail(m.c[m.pc])
    ensures r.Return? && m.c[m.pc..][0] == m.c[m.pc]
    ensures r.k.Argument? ==> !Direct(r.k, m.Below(), m.e, m.c[m.pc..], m.d)
  {
    assert m.c[m.pc..][0] == m.c[m.pc];
    if r.Eval? {
      GenStartsPlain(r.t, ScopeOf(r.env), false);
      GenStartsPlain(r.t, ScopeOf(r.env), true);
    } else if r.k.Argument? {
      var n, scope := |r.k.done| + 1 + |r.k.todo|, ScopeOf(r.k.env);
      CallRestStartsPlain(r.k.todo, r.k.f, r.k.spread, n, scope, false);
      CallRestStartsPlain(r.k.todo, r.k.f, r.k.spread, n, scope, true);
    }
  }

  /** A continuation whose own instruction is one of those in tail position. */
  lemma TailIsDirect(k: R.Kont, s: seq<Value>, e: seq<nat>, code: Code, d: Dump)
    requires code != [] && Direct(k, s, e, code, d) && !k.Argument? && !k.Hole?
    requires code[0].TAPP? || code[0].TCALLCC? || code[0].SELR?
    ensures CallEntry(d) && |code| > 1 && code[1].RTN?
  {
    match k
    case Branch(_, _, _, next) => assert Follows(true, next, s, e, code[1..], d);
    case Operator(_, next) => assert Follows(true, next, s[..|s| - 1], e, code[1..], d);
    case Capturing(next) => assert Follows(true, next, s, e, code[1..], d);
    case _ =>
  }

  /** JOIN pops only what a SEL pushed, and finds its stack with one value more and its environment unchanged. */
  lemma JoinDiscipline(P: M.Primitives, m: M.State)
    requires Reachable(P, m) && m.pc < |m.c| && m.c[m.pc].JOIN?
    ensures TestEntry(m.d) && m.s != [] && m.s == m.d.s + [m.Top()] && m.e == m.d.e
  {
    var r := Represents(P, m);
    EndsReturning(r, m);
    NotDirect(r.k, m.Below(), m.e, m.c[m.pc..], m.d);
    assert m.s == m.Below() + [m.Top()];
  }

  /** RTN pops only what a call pushed. */
  lemma ReturnDiscipline(P: M.Primitives, m: M.State)
    requires Reachable(P, m) && m.pc < |m.c| && m.c[m.pc].RTN?
    ensures CallEntry(m.d) && m.s != []
  {
    var r := Represents(P, m);
    EndsReturning(r, m);
    NotDirect(r.k, m.Below(), m.e, m.c[m.pc..], m.d);
  }

  /** In tail position no test of the current body is left on the dump, and RTN is the next instruction. */
  lemma TailDiscipline(P: M.Primitives, m: M.State)
    requires Reachable(P, m) && m.pc < |m.c| && (m.c[m.pc].TAPP? || m.c[m.pc].TCALLCC? || m.c[m.pc].SELR?)
    ensures CallEntry(m.d) && m.pc + 1 < |m.c| && m.c[m.pc + 1].RTN?
  {
    var r := Represents(P, m);
    EndsReturning(r, m);
    TailIsDirect(r.k, m.Below(), m.e, m.c[m.pc..], m.d);
  }

  // ---- Tail calls ----

  /** The dump a body was entered with: what is left once the body's own tests are joined. */
  function BaseDump(d: Dump): Dump {
    if TestEntry(d) then BaseDump(d.next) else d
  }

  /** The next instruction stays in the current body or leaves it by a tail call: it neither calls a closure that is
      to return here, nor returns, nor resumes a continuation. */
  predicate StaysOrTailCalls(m: M.State) {
    m.pc < |m.c| &&
    match m.c[m.pc]
    case RTN => false
    case APP => m.s == [] || !(m.Top().Closure? || m.Top().Continuation?)
    case CALLCC => m.s == [] || !(m.Top().Closure? || m.Top().Continuation?)
    case TAPP => m.s == [] || !m.Top().Continuation?
    case TCALLCC => m.s == [] || !m.Top().Continuation?
    case _ => true
  }

  lemma StepKeepsBase(P: M.Primitives, m: M.State)
    requires Reachable(P, m) && StaysOrTailCalls(m) && M.Step(P, m).Running?
    ensures BaseDump(M.Step(P, m).m.d) == BaseDump(m.d)
  {
    match m.c[m.pc]
    case JOIN => JoinDiscipline(P, m);
    case _ =>
  }

  /** The next instruction calls a closure that is to return here. */
  predicate CallsClosure(m: M.State) {
    m.pc < |m.c| && (m.c[m.pc].APP? || m.c[m.pc].CALLCC?) && m.s != [] && m.Top().Closure?
  }

  /** The next instruction captures the current continuation. */
  predicate Captures(m: M.State) {
    m.pc < |m.c| && (m.c[m.pc].CALLCC? || m.c[m.pc].TCALLCC?) && m.s != []
  }

  /** The next instruction applies the continuation numbered id to v and perhaps others. */
  predicate Resumes(m: M.State, id: nat, v: M.Value, others: seq<M.Value>) {
    && m.pc < |m.c| && (m.c[m.pc].APP? || m.c[m.pc].TAPP?)
    && |m.s| >= 2 && m.Top() == M.Continuation(id) && m.s[|m.s| - 2] == M.ArgList([v] + others)
  }

  predicate TailCalls(m: M.State) {
    m.pc < |m.c| && (m.c[m.pc].TAPP? || m.c[m.pc].TCALLCC?)
  }

  /** From y, a body goes on at x: by an instruction of its own, which may be a tail call; ... */
  ghost predicate GoesOn(P: M.Primitives, y: M.State, x: M.State) {
    StaysOrTailCalls(y) && M.Step(P, y) == M.Running(x)
  }

  /** ... by a procedure that is called at y, starts at y' and returns from r, at the end of its own body; ... */
  ghost predicate ReturnsTo(P: M.Primitives, y: M.State, y': M.State, r: M.State, x: M.State) {
    && CallsClosure(y) && M.Step(P, y) == M.Running(y')
    && r.pc < |r.c| && r.c[r.pc].RTN? && M.Step(P, r) == M.Running(x)
  }

  /** ... or because the continuation captured at y is resumed at w, a state of this or of any other run. */
  ghost predicate ResumedAt(P: M.Primitives, y: M.State, w: M.State, v: M.Value, others: seq<M.Value>, x: M.State) {
    && Captures(y) && M.Step(P, y).Running? && Reachable(P, w) && M.Step(P, y).m.st.conts <= w.st.conts
    && Resumes(w, |y.st.conts|, v, others) && M.Step(P, w) == M.Running(x)
  }

  /** The body that m is in, and the bodies that it leaves by tail calls, get to x. Procedures called on the way, to
      any depth, have returned, and continuations captured on the way may have been resumed; n bounds the height of
      this derivation. */
  ghost predicate InBody(P: M.Primitives, m: M.State, x: M.State, n: nat)
    decreases n, 1
  {
    x == m || exists y: M.State, i: nat :: i < n && InBody(P, m, y, i) && OneMore(P, y, x, n)
  }

  ghost predicate OneMore(P: M.Primitives, y: M.State, x: M.State, n: nat)
    decreases n, 0
  {
    || GoesOn(P, y, x)
    || (exists y': M.State, r: M.State, j: nat :: ReturnsTo(P, y, y', r, x) && j < n && InBody(P, y', r, j))
    || (exists w: M.State, v: M.Value, others: seq<M.Value> :: ResumedAt(P, y, w, v, others, x))
  }

  /** What every way of going on keeps: x, like y, has d as its base dump. */
  lemma GoesOnKeeps(P: M.Primitives, y: M.State, x: M.State)
    requires Reachable(P, y) && GoesOn(P, y, x)
    ensures Reachable(P, x) && BaseDump(x.d) == BaseDump(y.d)
  {
    StepKeepsBase(P, y);
    ReachableStep(P, y);
  }

  /** A called procedure starts with its caller's registers on the dump, which its return takes off again. */
  lemma ReturnKeeps(P: M.Primitives, y: M.State, y': M.State, r: M.State, x: M.State)
    requires Reachable(P, r) && ReturnsTo(P, y, y', r, x) && BaseDump(r.d) == BaseDump(y'.d)
    ensures Reachable(P, x) && BaseDump(x.d) == BaseDump(y.d)
  {
    ReturnDiscipline(P, r);
    ReachableStep(P, r);
    CallSaves(P, y);
  }

  lemma CallSaves(P: M.Primitives, y: M.State)
    requires CallsClosure(y) && M.Step(P, y).Running?
    ensures var d := M.Step(P, y).m.d; BaseDump(d) == d && d.Saved? && d.next == y.d
  {
  }

  lemma ResumptionKeeps(P: M.Primitives, y: M.State, w: M.State, v: M.Value, others: seq<M.Value>, x: M.State)
    requires ResumedAt(P, y, w, v, others, x)
    ensures Reachable(P, x) && BaseDump(x.d) == BaseDump(y.d)
  {
    ResumeExact(P, y, w, v, others);
    ReachableStep(P, w);
  }

  ghost predicate Keeps(P: M.Primitives, m: M.State, x: M.State) {
    Reachable(P, x) && BaseDump(x.d) == BaseDump(m.d)
  }

  lemma {:induction false} InBodyKeeps(P: M.Primitives, m: M.State, x: M.State, n: nat)
    requires Reachable(P, m) && InBody(P, m, x, n)
    ensures Keeps(P, m, x)
    decreases n, 1
  {
    if x != m {
      var y: M.State, i: nat :| i < n && InBody(P, m, y, i) && OneMore(P, y, x, n);
      InBodyKeeps(P, m, y, i);
      OneMoreKeeps(P, y, x, n);
    }
  }

  lemma {:induction false} OneMoreKeeps(P: M.Primitives, y: M.State, x: M.State, n: nat)
    requires Reachable(P, y) && OneMore(P, y, x, n)
    ensures Keeps(P, y, x)
    decreases n, 0
  {
    if GoesOn(P, y, x) {
      GoesOnKeeps(P, y, x);
    } else if y': M.State, r: M.State, j: nat :| ReturnsTo(P, y, y', r, x) && j < n && InBody(P, y', r, j) {
      ReachableStep(P, y);
      InBodyKeeps(P, y', r, j);
      ReturnKeeps(P, y, y', r, x);
    } else {
      var w: M.State, v: M.Value, others: seq<M.Value> :| ResumedAt(P, y, w, v, others, x);
      ResumptionKeeps(P, y, w, v, others, x);
    }
  }

  /** Wherever a body has got to, its own base dump is the one it started with, and at every tail call on the way the
      dump is exactly that: however many calls, returns and tail calls there have been, a tail call does not deepen
      it. */
  lemma TailCallsKeepDump(P: M.Primitives, m: M.State, x: M.State, n: nat)
    requires Reachable(P, m) && InBody(P, m, x, n)
    ensures Reachable(P, x) && BaseDump(x.d) == BaseDump(m.d)
    ensures TailCalls(x) ==> x.d == BaseDump(m.d)
  {
    InBodyKeeps(P, m, x, n);
    if TailCalls(x) {
      TailDiscipline(P, x);
    }
  }

  // ---- Continuations ----

  /** The store of a machine that runs or has halted. */
  function StoreOf(o: M.Outcome): M.MachineStore
    requires !o.Faulted?
  {
    if o.Running? then o.m.st else o.st
  }

  /** Nothing a program does, to its end or to any point before, changes a captured continuation. */
  lemma ContinuationsPersist(P: M.Primitives, m: M.State, n: nat)
    ensures !M.Run(P, m, n).Faulted? ==> m.st.conts <= StoreOf(M.Run(P, m, n)).conts
  {
    var inv := (o: M.Outcome) => !o.Faulted? ==> m.st.conts <= StoreOf(o).conts;
    forall o | inv(o) ensures inv(M.Advance(P)(o)) {
      if o.Running? {
        StepKeepsConts(P, o.m);
      }
    }
    Invariant(M.Advance(P), inv, M.Running(m), n);
  }

  lemma StepKeepsConts(P: M.Primitives, m: M.State)
    ensures !M.Step(P, m).Faulted? ==> m.st.conts <= StoreOf(M.Step(P, m)).conts
  {
  }

  /** A continuation may be resumed any number of times, from anywhere: from each state, of this run or another, whose
      store has what the capture left there, the registers become those it was captured with, plus the value. */
  lemma ResumeExact(P: M.Primitives, m: M.State, m': M.State, v: M.Value, others: seq<M.Value>)
    requires Captures(m) && M.Step(P, m).Running? && M.Step(P, m).m.st.conts <= m'.st.conts
    requires Resumes(m', |m.st.conts|, v, others)
    ensures M.Step(P, m') == M.Running(M.State(m.Below() + [v], m.e, m.c, m.pc + 1, m.d, m'.st))
  {
    var id := |m.st.conts|;
    CaptureRecords(P, m);
    assert m'.st.conts[id] == M.MachineCont(m.Below(), m.e, m.c, m.pc + 1, m.d);
    assert M.Elements(m'.st.heap, m'.s[|m'.s| - 2], {}) == Some([v] + others);
    assert ([v] + others)[0] == v;
  }

  /** Programs are run one after the other, each from the store that the one before left when it ended or when an
      error stopped it. */
  ghost predicate Session(P: M.Primitives, programs: seq<Core>, st: M.MachineStore, st': M.MachineStore)
    decreases programs
  {
    if programs == [] then st' == st
    else exists n: nat :: var o := M.Run(P, StartMachine(programs[0], st), n);
                          !o.Faulted? && Session(P, programs[1..], StoreOf(o), st')
  }

  lemma {:induction false} SessionPersists(P: M.Primitives, programs: seq<Core>, st: M.MachineStore,
                                           st': M.MachineStore)
    requires Session(P, programs, st, st')
    ensures st.conts <= st'.conts
    decreases programs
  {
    if programs != [] {
      var n: nat :| !M.Run(P, StartMachine(programs[0], st), n).Faulted? &&
                    Session(P, programs[1..], StoreOf(M.Run(P, StartMachine(programs[0], st), n)), st');
      ContinuationsPersist(P, StartMachine(programs[0], st), n);
      SessionPersists(P, programs[1..], StoreOf(M.Run(P, StartMachine(programs[0], st), n)), st');
    }
  }

  /** A continuation that one program captures is resumed exactly by any later program: the capturing program runs on
      for n steps, others follow, and then one gets to m' in k steps. */
  lemma ResumedLater(P: M.Primitives, m: M.State, n: nat, others: seq<Core>, st: M.MachineStore,
                     t: Core, k: nat, m': M.State, v: M.Value, more: seq<M.Value>)
    requires Captures(m) && M.Step(P, m).Running?
    requires !M.Run(P, M.Step(P, m).m, n).Faulted? && Session(P, others, StoreOf(M.Run(P, M.Step(P, m).m, n)), st)
    requires M.Run(P, StartMachine(t, st), k) == M.Running(m') && Resumes(m', |m.st.conts|, v, more)
    ensures M.Step(P, m') == M.Running(M.State(m.Below() + [v], m.e, m.c, m.pc + 1, m.d, m'.st))
  {
    ContinuationsPersist(P, M.Step(P, m).m, n);
    SessionPersists(P, others, StoreOf(M.Run(P, M.Step(P, m).m, n)), st);
    ContinuationsPersist(P, StartMachine(t, st), k);
    ResumeExact(P, m, m', v, more);
  }

  lemma CaptureRecords(P: M.Primitives, m: M.State)
    requires Captures(m) && M.Step(P, m).Running?
    ensures |m.st.conts| < |M.Step(P, m).m.st.conts|
    ensures M.Step(P, m).m.st.conts[|m.st.conts|] == M.MachineCont(m.Below(), m.e, m.c, m.pc + 1, m.d)
  {
  }

  /** The dump that the receiver of a captured continuation starts with. */
  lemma CaptureDump(P: M.Primitives, m: M.State)
    requires Captures(m) && m.Top().Closure? && M.Step(P, m).Running?
    ensures M.Step(P, m).m.d == if m.c[m.pc].TCALLCC? then m.d else M.Saved(m.Below(), m.e, m.c, m.pc + 1, m.d)
  {
  }

  /** When the receiver of a captured continuation k simply returns v, the machine reaches the state that k resumed
      with v does: at once for CALLCC, and for TCALLCC after the RTN that the resumed code executes next. */
  lemma NormalReturnIsResume(P: M.Primitives, m: M.State, m': M.State)
    requires Reachable(P, m) && Captures(m)
    requires m.Top().Closure? && M.Step(P, m).Running?
    requires m'.pc < |m'.c| && m'.c[m'.pc].RTN? && m'.s != [] && m'.d == M.Step(P, m).m.d
    ensures var resumed := M.State(m.Below() + [m'.Top()], m.e, m.c, m.pc + 1, m.d, m'.st);
            M.Step(P, m') == if m.c[m.pc].CALLCC? then M.Running(resumed) else M.Step(P, resumed)
  {
    CaptureDump(P, m);
    Returned(P, m');
    if m.c[m.pc].TCALLCC? {
      TailDiscipline(P, m);
      var resumed := M.State(m.Below() + [m'.Top()], m.e, m.c, m.pc + 1, m.d, m'.st);
      Returned(P, resumed);
      assert resumed.Top() == m'.Top();
    }
  }

  lemma Returned(P: M.Primitives, m: M.State)
    requires m.pc < |m.c| && m.c[m.pc].RTN? && m.s != []
    ensures M.Step(P, m) == if m.d.Empty? then M.Halted(m.Top(), m.st)
                            else M.Running(M.State(m.d.s + [m.Top()], m.d.e, m.d.c, m.d.pc, m.d.next, m.st))
  {
  }
}
