/** What the simulation gives: compiled programs compute what the reference semantics says, and never get stuck. */
module Correctness {
  import opened CoreLanguage
  import M = Machine
  import opened CodeGen
  import R = Reference
  import opened Simulation
  import opened Soundness
  import opened Iteration

  /** The machine about to run a program, as `eval_top` starts it. */
  function StartMachine(t: Core, st: M.MachineStore): M.State {
    M.State([], [], ProgramCode(t), 0, M.Empty, st)
  }

  function StartReference(t: Core, st: R.RefStore): R.Config {
    R.Eval(t, [], R.Finish, st)
  }

  lemma StartRelated(t: Core, rs: R.RefStore, ms: M.MachineStore)
    requires StoresRelated(rs, ms)
    ensures Related(StartReference(t, rs), StartMachine(t, ms))
  {
    var g := Gen(t, [], false);
    assert ScopeOf([]) == [] && FramesOf([]) == [];
    var code := ProgramCode(t);
    assert code[0..] == code && code[|g|..] == [M.STOP];
    assert Direct(R.Finish, [], [], [M.STOP], M.Empty);
    assert Evaluates(t, [], false, R.Finish, [], code, M.Empty);
  }

  // ---- Runs ----

  function Rank(o: M.Outcome): nat {
    if o.Running? then M.Depth(o.m.d) else 0
  }

  /** The machine simulates the reference semantics up to a hole. */
  lemma Simulated(P: M.Primitives)
    ensures Simulates(R.Advance(P), M.Advance(P), (r, o) => OutcomeRelated(r, o), r => AtHole(r), o => Rank(o))
    ensures Simulates(R.Advance(P), M.Advance(P), (r, o) => OutcomeRelated(r, o), r => R.Final(r), o => Rank(o))
  {
    var rel := (r, o) => OutcomeRelated(r, o);
    var rank := (o: M.Outcome) => Rank(o);
    forall r, o | rel(r, o) && !AtHole(r)
      ensures exists n: nat :: Catches(R.Advance(P), rel, rank, r, M.Advance(P)(o), rank(o), n)
    {
      var n := Caught(P, r, o);
      assert Catches(R.Advance(P), rel, rank, r, M.Advance(P)(o), rank(o), n);
    }
  }

  lemma Caught(P: M.Primitives, r: R.Config, o: M.Outcome) returns (n: nat)
    requires OutcomeRelated(r, o) && !AtHole(r)
    ensures OutcomeRelated(R.Steps(P, r, n), M.Advance(P)(o)) && (n == 0 ==> Rank(M.Advance(P)(o)) < Rank(o))
  {
    if r.Done? || r.Failed? {
      n := OneStep(P, r);
    } else {
      n := Sync(P, r, o.m);
    }
  }

  /** However long the machine runs, it is where some number of reference steps leads. */
  lemma Track(P: M.Primitives, r: R.Config, m: M.State, N: nat) returns (n: nat)
    requires Related(r, m)
    ensures OutcomeRelated(R.Steps(P, r, n), M.Run(P, m, N)) || AtHole(R.Steps(P, r, n))
  {
    Simulated(P);
    n := Follow(R.Advance(P), M.Advance(P), (r, o) => OutcomeRelated(r, o), r => AtHole(r), o => Rank(o), r,
                M.Running(m), N);
  }

  /** However long the reference evaluation, the machine gets to its end. */
  lemma Drive(P: M.Primitives, r: R.Config, m: M.State, n: nat) returns (N: nat)
    requires Related(r, m) && R.Final(R.Steps(P, r, n))
    ensures OutcomeRelated(R.Steps(P, r, n), M.Run(P, m, N))
  {
    Simulated(P);
    N := Arrive(R.Advance(P), M.Advance(P), (r, o) => OutcomeRelated(r, o), r => R.Final(r), o => Rank(o), r,
                M.Running(m), n);
  }

  // ---- Whole programs ----

  /** Stores left by earlier programs: related, with every frame in range. */
  ghost predicate Ready(rs: R.RefStore, ms: M.MachineStore) {
    StoresRelated(rs, ms) && StoreFits(rs)
  }

  lemma StepsFit(P: M.Primitives, r: R.Config, n: nat)
    requires Fits(r)
    ensures Fits(R.Steps(P, r, n))
  {
    forall y | Fits(y) ensures Fits(R.Advance(P)(y)) {
      NextFits(P, y);
    }
    Invariant(R.Advance(P), y => Fits(y), r, n);
  }

  /** A program's machine and its reference evaluation go together, step for step. */
  lemma TrackProgram(P: M.Primitives, t: Core, rs: R.RefStore, ms: M.MachineStore, N: nat) returns (n: nat)
    requires Ready(rs, ms)
    ensures OutcomeRelated(R.Steps(P, StartReference(t, rs), n), M.Run(P, StartMachine(t, ms), N))
    ensures Fits(R.Steps(P, StartReference(t, rs), n))
  {
    StartRelated(t, rs, ms);
    n := Track(P, StartReference(t, rs), StartMachine(t, ms), N);
    StepsFit(P, StartReference(t, rs), n);
  }

  /** Compiled code computes what the reference semantics says: each stops exactly when the other does, with the same
      value or error and related stores, so one diverges exactly when the other does. */
  lemma ProgramCorrect(P: M.Primitives, t: Core, rs: R.RefStore, ms: M.MachineStore)
    requires Ready(rs, ms)
    ensures forall n: nat :: R.Final(R.Steps(P, StartReference(t, rs), n)) ==>
              exists N: nat :: OutcomeRelated(R.Steps(P, StartReference(t, rs), n), M.Run(P, StartMachine(t, ms), N))
    ensures forall N: nat :: !M.Run(P, StartMachine(t, ms), N).Running? ==>
              exists n: nat :: && R.Final(R.Steps(P, StartReference(t, rs), n))
                               && OutcomeRelated(R.Steps(P, StartReference(t, rs), n), M.Run(P, StartMachine(t, ms), N))
  {
    var r, m := StartReference(t, rs), StartMachine(t, ms);
    StartRelated(t, rs, ms);
    forall n: nat | R.Final(R.Steps(P, r, n))
      ensures exists N: nat :: OutcomeRelated(R.Steps(P, r, n), M.Run(P, m, N))
    {
      var N := Drive(P, r, m, n);
    }
    forall N: nat | !M.Run(P, m, N).Running?
      ensures exists n: nat :: R.Final(R.Steps(P, r, n)) && OutcomeRelated(R.Steps(P, r, n), M.Run(P, m, N))
    {
      var n := TrackProgram(P, t, rs, ms, N);
      assert R.Final(R.Steps(P, r, n));
    }
  }

  /** Compiled code never gets stuck: whatever the program and the primitives, no instruction underflows the stack,
      misses a frame, pops an empty dump or runs off the end of its code. */
  lemma NeverStuck(P: M.Primitives, t: Core, rs: R.RefStore, ms: M.MachineStore, N: nat)
    requires Ready(rs, ms)
    ensures M.Run(P, StartMachine(t, ms), N).Faulted? ==> !M.Run(P, StartMachine(t, ms), N).f.Internal()
  {
    var n := TrackProgram(P, t, rs, ms, N);
  }

  /** A program that ends leaves the stores ready for the next one. */
  lemma StoresStayReady(P: M.Primitives, t: Core, rs: R.RefStore, ms: M.MachineStore, N: nat)
    requires Ready(rs, ms) && M.Run(P, StartMachine(t, ms), N).Halted?
    ensures exists rs': R.RefStore :: Ready(rs', M.Run(P, StartMachine(t, ms), N).st)
  {
    var n := TrackProgram(P, t, rs, ms, N);
    assert Ready(R.Steps(P, StartReference(t, rs), n).st, M.Run(P, StartMachine(t, ms), N).st);
  }

  // ---- One expression in its surroundings ----

  /** RTN and JOIN bring a machine with a value for a hole to the hole's own registers. */
  lemma {:induction false} Settle(P: M.Primitives, r: R.Config, m: M.State) returns (N: nat, m': M.State)
    requires AtHole(r) && Related(r, m)
    ensures M.Run(P, m, N) == M.Running(m')
    ensures m'.pc <= |m'.c| && m'.s == r.k.s + [r.v] && m'.e == r.k.e && m'.c[m'.pc..] == r.k.code && m'.d == r.k.d
    ensures StoresRelated(r.st, m'.st)
    decreases M.Depth(m.d)
  {
    if Direct(r.k, m.Below(), m.e, m.c[m.pc..], m.d) {
      N, m' := 0, m;
      assert m.s == m.Below() + [m.Top()];
    } else {
      ReturnThrough(P, r, m);
      var o := M.Step(P, m);
      N, m' := Settle(P, r, o.m);
      assert M.Advance(P)(M.Running(m)) == o;
      N := N + 1;
    }
  }

  /** Wherever the code of an expression stands, running it does what evaluating the expression does: outside tail
      position the machine goes on after that code with the value pushed and its other registers as they were; in tail
      position it is where RTN of the value leads. */
  lemma ExpressionCorrect(P: M.Primitives, t: Core, env: R.Env, tail: bool, rs: R.RefStore, m: M.State, n: nat)
    returns (N: nat, m': M.State)
    requires m.pc <= |m.c| && m.e == FramesOf(env) && StoresRelated(rs, m.st)
    requires Gen(t, ScopeOf(env), tail) < m.c[m.pc..]
    requires tail ==> m.c[m.pc..][|Gen(t, ScopeOf(env), tail)|].RTN? && CallEntry(m.d) && m.d.pc < |m.d.c|
    requires var r := R.Steps(P, R.Eval(t, env, Surroundings(t, env, tail, m), rs), n);
             r.Return? && r.k == Surroundings(t, env, tail, m)
    ensures M.Run(P, m, N) == M.Running(m') && m'.pc <= |m'.c|
    ensures var r := R.Steps(P, R.Eval(t, env, Surroundings(t, env, tail, m), rs), n);
            && StoresRelated(r.st, m'.st)
            && (!tail ==> && m'.s == m.s + [r.v] && m'.e == m.e && m'.d == m.d
                          && m'.c[m'.pc..] == m.c[m.pc..][|Gen(t, ScopeOf(env), tail)|..])
            && (tail ==> && m'.s == m.d.s + [r.v] && m'.e == m.d.e && m'.d == m.d.next
                         && m'.c[m'.pc..] == m.d.c[m.d.pc..])
  {
    var k := Surroundings(t, env, tail, m);
    var r := R.Eval(t, env, k, rs);
    var after := m.c[m.pc..][|Gen(t, ScopeOf(env), tail)|..];
    if tail {
      assert Direct(k, m.d.s, m.d.e, m.d.c[m.d.pc..], m.d.next);
    } else {
      assert Direct(k, m.s, m.e, after, m.d);
    }
    assert Follows(tail, k, m.s, m.e, after, m.d);
    assert Evaluates(t, env, tail, k, m.s, m.c[m.pc..], m.d);
    var r' := R.Steps(P, r, n);
    var i := Drive(P, r, m, n);
    var m1 := M.Run(P, m, i).m;
    var j;
    j, m' := Settle(P, r', m1);
    IterateCompose(M.Advance(P), M.Running(m), i, j);
    N := i + j;
  }

  /** The registers that await the value of t when its code runs from m. */
  function Surroundings(t: Core, env: R.Env, tail: bool, m: M.State): R.Kont
    requires m.pc <= |m.c| && Gen(t, ScopeOf(env), tail) < m.c[m.pc..]
    requires tail ==> m.d.Saved? && m.d.pc <= |m.d.c|
  {
    if tail then R.Hole(m.d.s, m.d.e, m.d.c[m.d.pc..], m.d.next)
    else R.Hole(m.s, m.e, m.c[m.pc..][|Gen(t, ScopeOf(env), tail)|..], m.d)
  }
}
