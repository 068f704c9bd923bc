/** Desugaring preserves meaning: written programs do, desugared or compiled, what their forms say. */
module Meaning {
  import opened Wrappers
  import opened Datums
  import opened Iteration
  import C = CoreLanguage
  import M = Machine
  import R = Reference
  import opened Surface
  import opened Lowering
  import opened Agreement
  import opened DirectSimulation
  import D = Direct
  import opened Hygiene
  import opened Elaboration
  import Simulation
  import Forms
  import Parsing
  import WellFormed
  import Correctness

  function Advance(P: M.Primitives): D.Config -> D.Config {
    (c: D.Config) => D.Next(P, c)
  }

  /** At most n steps of the direct semantics. */
  function Steps(P: M.Primitives, c: D.Config, n: nat): D.Config {
    Iterate(Advance(P), c, n)
  }

  /** A program's form about to be evaluated. */
  function Start(f: Form, m: D.Memory): D.Config {
    D.Eval(f, [], D.Finish, m)
  }

  /** The states correspond: for where only that matters, and not what they are. */
  ghost predicate Matches(c: D.Config, r: R.Config) {
    forall d :: d in [c] ==> ConfigOk(d, r)
  }

  lemma UnsealMatch(c: D.Config, r: R.Config)
    ensures Matches(c, r) <==> ConfigOk(c, r)
  {
    assert c in [c];
  }

  lemma Caught(P: M.Primitives, r: R.Config, c: D.Config) returns (n: nat)
    requires Matches(c, r)
    ensures n > 0 && Matches(Advance(P)(c), R.Steps(P, r, n))
  {
    UnsealMatch(c, r);
    StepAgrees(P, r, c);
    n :| ConfigOk(D.Next(P, c), R.Steps(P, R.Next(P, r), n));
    assert R.Advance(P)(r) == R.Next(P, r);
    n := n + 1;
    UnsealMatch(D.Next(P, c), R.Steps(P, r, n));
  }

  lemma Simulated(P: M.Primitives, stop: R.Config -> bool, rel: (R.Config, D.Config) -> bool, rank: D.Config -> nat)
    requires forall r, c :: rel(r, c) <==> Matches(c, r)
    ensures Simulates(R.Advance(P), Advance(P), rel, stop, rank)
  {
    forall r, c | rel(r, c)
      ensures exists n: nat :: Catches(R.Advance(P), rel, rank, r, Advance(P)(c), rank(c), n)
    {
      var n := Caught(P, r, c);
      assert Catches(R.Advance(P), rel, rank, r, Advance(P)(c), rank(c), n);
    }
  }

  lemma StartOk(f: Form, t: Core, m: D.Memory, s: R.RefStore)
    requires Lowers(f, t) && MemoryOk(m, s)
    ensures ConfigOk(Start(f, m), Correctness.StartReference(t, s))
  {
    Unseal(f, t);
    Unwrap(D.Finish, R.Finish, m.frames, s.closures);
    assert forall x :: D.Find(x, [], m.frames) == R.Lookup(x, []);
  }

  /** The direct evaluation from c ends in a state that corresponds to r. */
  ghost predicate EndsLike(P: M.Primitives, c: D.Config, r: R.Config) {
    exists N: nat :: D.Final(Steps(P, c, N)) && ConfigOk(Steps(P, c, N), r)
  }

  /** The expression x is well formed, is the form f, hygienic from counter g on, and desugars to t. */
  predicate Written(x: Datum, g: nat, f: Form, t: Core) {
    Forms.Formed(x) && Parse(x) == Some(f) && Clean(f, g) && WellFormed.CoreOf(x, g).0 == t
  }

  /** Nothing else is asked of a program than that it be well formed, regular and hygienic. */
  lemma ProgramsAreWritten(x: Datum, g: nat)
    requires Forms.Formed(x) && Parsing.Regular(x)
    ensures Parse(x).Some? && (Clean(Parse(x).value, g) ==> Written(x, g, Parse(x).value, WellFormed.CoreOf(x, g).0))
  {
    Parsing.FormedParses(x);
  }

  /** Desugaring preserves meaning. For every program hygienic from the counter on and all primitives, the desugared
      program goes through states that correspond to those of the direct evaluation, and stops only where that stops:
      with the same value or error, and corresponding memory. The one exception is a primitive that has made up a
      procedure. */
  lemma DesugaringPreservesMeaning(P: M.Primitives, x: Datum, g: nat, f: Form, t: Core, m: D.Memory, s: R.RefStore)
    requires Written(x, g, f, t) && MemoryOk(m, s)
    ensures var c, r := Start(f, m), Correctness.StartReference(t, s);
            && (forall N: nat :: Leads(P, r, Steps(P, c, N)))
            && (forall n: nat :: R.Final(R.Steps(P, r, n)) ==> EndsLike(P, c, R.Steps(P, r, n)))
  {
    DesugaringElaborates(x, g);
    FormPreserved(P, f, t, m, s);
  }

  lemma FormPreserved(P: M.Primitives, f: Form, t: Core, m: D.Memory, s: R.RefStore)
    requires Lowers(f, t) && MemoryOk(m, s)
    ensures var c, r := Start(f, m), Correctness.StartReference(t, s);
            && (forall N: nat :: Leads(P, r, Steps(P, c, N)))
            && (forall n: nat :: R.Final(R.Steps(P, r, n)) ==> EndsLike(P, c, R.Steps(P, r, n)))
  {
    StartOk(f, t, m, s);
    var c, r := Start(f, m), Correctness.StartReference(t, s);
    forall N: nat ensures Leads(P, r, Steps(P, c, N)) {
      var n := TrackForm(P, r, c, N);
    }
    forall n: nat | R.Final(R.Steps(P, r, n)) ensures EndsLike(P, c, R.Steps(P, r, n)) {
      var N := DriveForm(P, r, c, n);
      NoHoles(Steps(P, c, N), R.Steps(P, r, n));
    }
  }

  lemma TrackForm(P: M.Primitives, r: R.Config, c: D.Config, N: nat) returns (n: nat)
    requires ConfigOk(c, r)
    ensures ConfigOk(Steps(P, c, N), R.Steps(P, r, n))
  {
    var rel, stop, rank := (r, c) => Matches(c, r), r => false, c => 0;
    Simulated(P, stop, rel, rank);
    UnsealMatch(c, r);
    n := Follow(R.Advance(P), Advance(P), rel, stop, rank, r, c, N);
    UnsealMatch(Steps(P, c, N), R.Steps(P, r, n));
  }

  lemma DriveForm(P: M.Primitives, r: R.Config, c: D.Config, n: nat) returns (N: nat)
    requires ConfigOk(c, r) && R.Final(R.Steps(P, r, n))
    ensures ConfigOk(Steps(P, c, N), R.Steps(P, r, n))
  {
    var rel, stop, rank := (r, c) => Matches(c, r), r => R.Final(r), c => 0;
    Simulated(P, stop, rel, rank);
    UnsealMatch(c, r);
    N := Arrive(R.Advance(P), Advance(P), rel, stop, rank, r, c, n);
    UnsealMatch(Steps(P, c, N), R.Steps(P, r, n));
  }

  /** A correspondence has no hole in it. */
  lemma NoHoles(c: D.Config, r: R.Config)
    requires ConfigOk(c, r) && R.Final(r)
    ensures D.Final(c)
  {
    if c.Return? {
      Unwrap(c.k, r.k, c.m.frames, r.st.closures);
    }
  }

  // ---- Compiled programs ----

  /** The direct evaluation from c ends with v, or a primitive makes up a procedure on the way. */
  ghost predicate Says(P: M.Primitives, c: D.Config, v: M.Value) {
    exists N: nat :: Steps(P, c, N).Forged? || (Steps(P, c, N).Done? && Steps(P, c, N).v == v)
  }

  /** The machine running m halts with v. */
  ghost predicate Halts(P: M.Primitives, m: M.State, v: M.Value) {
    exists N: nat :: M.Run(P, m, N).Halted? && M.Run(P, m, N).v == v
  }

  /** Compiling preserves meaning, from the text of a program to the machine: the code compiled for a hygienic program
      halts with a value exactly when its form, evaluated directly, ends with that value. */
  lemma CompilingPreservesMeaning(P: M.Primitives, x: Datum, g: nat, f: Form, t: Core, v: M.Value, m: D.Memory,
                                  s: R.RefStore, ms: M.MachineStore)
    requires Written(x, g, f, t) && MemoryOk(m, s) && Correctness.Ready(s, ms)
    ensures var c, start := Start(f, m), Correctness.StartMachine(t, ms);
            && (Halts(P, start, v) ==> Says(P, c, v))
            && (Says(P, c, v) ==> Halts(P, start, v) || exists N: nat :: Steps(P, c, N).Forged?)
  {
    var c, r := Start(f, m), Correctness.StartReference(t, s);
    DesugaringPreservesMeaning(P, x, g, f, t, m, s);
    if Halts(P, Correctness.StartMachine(t, ms), v) {
      HaltingSays(P, c, t, s, ms, v);
    }
    if Says(P, c, v) && !(exists N: nat :: Steps(P, c, N).Forged?) {
      SayingHalts(P, c, t, s, ms, v);
    }
  }

  lemma HaltingSays(P: M.Primitives, c: D.Config, t: Core, s: R.RefStore, ms: M.MachineStore, v: M.Value)
    requires Correctness.Ready(s, ms) && Halts(P, Correctness.StartMachine(t, ms), v)
    requires var r := Correctness.StartReference(t, s); forall n: nat :: R.Final(R.Steps(P, r, n)) ==>
               EndsLike(P, c, R.Steps(P, r, n))
    ensures Says(P, c, v)
  {
    var n := HaltedRun(P, t, s, ms, v);
    EndsSaying(P, c, R.Steps(P, Correctness.StartReference(t, s), n));
  }

  lemma HaltedRun(P: M.Primitives, t: Core, s: R.RefStore, ms: M.MachineStore, v: M.Value) returns (n: nat)
    requires Correctness.Ready(s, ms) && Halts(P, Correctness.StartMachine(t, ms), v)
    ensures R.Steps(P, Correctness.StartReference(t, s), n).Done?
    ensures R.Steps(P, Correctness.StartReference(t, s), n).v == v
  {
    var start, r := Correctness.StartMachine(t, ms), Correctness.StartReference(t, s);
    var N: nat :| M.Run(P, start, N).Halted? && M.Run(P, start, N).v == v;
    n := Correctness.TrackProgram(P, t, s, ms, N);
    HaltedIsDone(R.Steps(P, r, n), M.Run(P, start, N));
  }

  lemma SayingHalts(P: M.Primitives, c: D.Config, t: Core, s: R.RefStore, ms: M.MachineStore, v: M.Value)
    requires Correctness.Ready(s, ms) && Says(P, c, v) && !exists N: nat :: Steps(P, c, N).Forged?
    requires forall N: nat :: Leads(P, Correctness.StartReference(t, s), Steps(P, c, N))
    ensures Halts(P, Correctness.StartMachine(t, ms), v)
  {
    var start, r := Correctness.StartMachine(t, ms), Correctness.StartReference(t, s);
    var N: nat :| Steps(P, c, N).Done? && Steps(P, c, N).v == v;
    assert Leads(P, r, Steps(P, c, N));
    var n: nat :| ConfigOk(Steps(P, c, N), R.Steps(P, r, n));
    Correctness.StartRelated(t, s, ms);
    var i := Correctness.Drive(P, r, start, n);
    DoneIsHalted(R.Steps(P, r, n), M.Run(P, start, i));
  }

  lemma HaltedIsDone(r: R.Config, o: M.Outcome)
    requires Simulation.OutcomeRelated(r, o) && o.Halted?
    ensures r.Done? && r.v == o.v
  {
  }

  lemma DoneIsHalted(r: R.Config, o: M.Outcome)
    requires Simulation.OutcomeRelated(r, o) && r.Done?
    ensures o.Halted? && o.v == r.v
  {
  }

  lemma EndsSaying(P: M.Primitives, c: D.Config, r: R.Config)
    requires r.Done? && EndsLike(P, c, r)
    ensures Says(P, c, r.v)
  {
    var N: nat :| D.Final(Steps(P, c, N)) && ConfigOk(Steps(P, c, N), r);
  }
}
