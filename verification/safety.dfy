/** Invariants of the reference semantics: variables are always found in their frames. */
module Soundness {
  import opened Symbols
  import opened CoreLanguage
  import M = Machine
  import opened Reference

  type Frames = seq<seq<M.Value>>

  /** Every rib names a frame with one slot for each of its variables. */
  predicate EnvFits(env: Env, fs: Frames) {
    forall i :: 0 <= i < |env| ==> env[i].frame < |fs| && |fs[env[i].frame]| == |env[i].names|
  }

  /** Every environment in k fits, and k has no hole in it. */
  predicate KontFits(k: Kont, fs: Frames) {
    match k
    case Finish => true
    case Branch(_, _, env, next) => EnvFits(env, fs) && KontFits(next, fs)
    case Continue(_, env, next) => EnvFits(env, fs) && KontFits(next, fs)
    case Argument(_, _, _, _, env, next) => EnvFits(env, fs) && KontFits(next, fs)
    case Operator(_, next) => KontFits(next, fs)
    case Defining(_, next) => KontFits(next, fs)
    case Assigning(_, env, next) => EnvFits(env, fs) && KontFits(next, fs)
    case Capturing(next) => KontFits(next, fs)
    case Hole(_, _, _, _) => false
  }

  predicate StoreFits(st: RefStore) {
    && (forall i :: 0 <= i < |st.closures| ==> EnvFits(st.closures[i].env, st.frames))
    && (forall i :: 0 <= i < |st.conts| ==> KontFits(st.conts[i], st.frames))
  }

  predicate Fits(r: Config) {
    match r
    case Eval(_, env, k, st) => EnvFits(env, st.frames) && KontFits(k, st.frames) && StoreFits(st)
    case Return(_, k, st) => KontFits(k, st.frames) && StoreFits(st)
    case Done(_, st) => StoreFits(st)
    case Failed(f) => !f.Internal()
  }

  /** Frames are only added, and none changes its length. */
  predicate Grows(fs: Frames, gs: Frames) {
    |fs| <= |gs| && forall i :: 0 <= i < |fs| ==> |gs[i]| == |fs[i]|
  }

  lemma {:induction false} KontGrows(k: Kont, fs: Frames, gs: Frames)
    requires Grows(fs, gs) && KontFits(k, fs)
    ensures KontFits(k, gs)
  {
    match k
    case Finish =>
    case Branch(_, _, _, next) => KontGrows(next, fs, gs);
    case Continue(_, _, next) => KontGrows(next, fs, gs);
    case Argument(_, _, _, _, _, next) => KontGrows(next, fs, gs);
    case Operator(_, next) => KontGrows(next, fs, gs);
    case Defining(_, next) => KontGrows(next, fs, gs);
    case Assigning(_, _, next) => KontGrows(next, fs, gs);
    case Capturing(next) => KontGrows(next, fs, gs);
  }

  lemma StoreGrows(st: RefStore, fs: Frames)
    requires StoreFits(st) && Grows(st.frames, fs)
    ensures StoreFits(st.(frames := fs))
  {
    forall i | 0 <= i < |st.conts| ensures KontFits(st.conts[i], fs) {
      KontGrows(st.conts[i], st.frames, fs);
    }
  }

  lemma {:induction false} LookupFits(x: Symbol, env: Env, fs: Frames)
    requires EnvFits(env, fs)
    ensures Lookup(x, env).Some? ==>
              Lookup(x, env).value.0 < |fs| && Lookup(x, env).value.1 < |fs[Lookup(x, env).value.0]|
  {
    if env != [] {
      LookupFits(x, env[1..], fs);
    }
  }

  lemma ApplyFits(P: M.Primitives, callee: M.Value, args: seq<M.Value>, k: Kont, st: RefStore)
    requires KontFits(k, st.frames) && StoreFits(st)
    ensures Fits(Reference.Apply(P, callee, args, k, st))
  {
    match callee
    case Closure(id) =>
      if id < |st.closures| {
        var clo := st.closures[id];
        match M.BindArguments(st.heap, clo.params, clo.rest, args)
        case None =>
        case Some((frame, h)) =>
          var fs := st.frames + [frame];
          StoreGrows(st, fs);
          KontGrows(k, st.frames, fs);
      }
    case _ =>
  }

  lemma EvalFits(t: Core, env: Env, k: Kont, st: RefStore)
    requires EnvFits(env, st.frames) && KontFits(k, st.frames) && StoreFits(st)
    ensures Fits(EvalStep(t, env, k, st))
  {
    match t
    case Ref(x) => LookupFits(x, env, st.frames);
    case Fun(params, rest, body) =>
      var st' := st.(closures := st.closures + [RefClosure(params, rest, body, env)]);
      assert StoreFits(st');
    case _ =>
  }

  /** Evaluation keeps every environment in range, and so never fails for want of a variable's frame. */
  lemma NextFits(P: M.Primitives, r: Config)
    requires Fits(r)
    ensures Fits(Next(P, r))
  {
    match r
    case Eval(t, env, k, st) => EvalFits(t, env, k, st);
    case Return(v, k, st) =>
      match k {
        case Operator(args, next) => ApplyFits(P, v, args, next, st);
        case Capturing(next) =>
          var st' := st.(conts := st.conts + [next]);
          assert StoreFits(st');
          ApplyFits(P, v, [M.Continuation(|st.conts|)], next, st');
        case Assigning(x, env, next) =>
          LookupFits(x, env, st.frames);
          match Lookup(x, env) {
            case Some((a, j)) =>
              var fs := st.frames[a := st.frames[a][j := v]];
              StoreGrows(st, fs);
              KontGrows(next, st.frames, fs);
            case None =>
          }
        case _ =>
      }
    case _ =>
  }
}
