/** Lexical addressing, and the code a core expression compiles to. */
module CodeGen {
  import opened Wrappers
  import opened Symbols
  import opened CoreLanguage
  import opened Machine

  /** The compile-time environment: the variables of each frame, innermost first. */
  type Scope = seq<seq<Symbol>>

  /** The frame and index of the innermost variable x. */
  function LocationOf(x: Symbol, scope: Scope): (r: Option<(nat, nat)>)
    ensures r.None? <==> forall i :: 0 <= i < |scope| ==> x !in scope[i]
    ensures r.Some? ==>
              && r.value.0 < |scope| && r.value.1 < |scope[r.value.0]|
              && scope[r.value.0][r.value.1] == x
              && x !in scope[r.value.0][..r.value.1]
              && forall i :: 0 <= i < r.value.0 ==> x !in scope[i]
  {
    if scope == [] then None
    else
      match IndexOf(x, scope[0])
      case Some(j) => Some((0, j))
      case None =>
        match LocationOf(x, scope[1..])
        case None =>
          assert forall i :: 0 < i < |scope| ==> scope[i] == scope[1..][i - 1];
          None
        case Some((i, j)) => Some((i + 1, j))
  }

  /** The search as the compiler runs it: two nested loops. */
  method FindLocation(x: Symbol, scope: Scope) returns (r: Option<(nat, nat)>)
    ensures r == LocationOf(x, scope)
  {
    var i := 0;
    while i < |scope|
      invariant 0 <= i <= |scope|
      invariant forall k :: 0 <= k < i ==> x !in scope[k]
    {
      var j := 0;
      while j < |scope[i]|
        invariant 0 <= j <= |scope[i]|
        invariant x !in scope[i][..j]
      {
        if scope[i][j] == x {
          LocationIsFirst(x, scope, i, j);
          return Some((i, j));
        }
        j := j + 1;
      }
      assert scope[i][..j] == scope[i];
      i := i + 1;
    }
    return None;
  }

  lemma LocationIsFirst(x: Symbol, scope: Scope, i: nat, j: nat)
    requires i < |scope| && j < |scope[i]| && scope[i][j] == x
    requires x !in scope[i][..j] && forall k :: 0 <= k < i ==> x !in scope[k]
    ensures LocationOf(x, scope) == Some((i, j))
  {
    assert x in scope[i];
    var (i', j') := LocationOf(x, scope).value;
    assert x in scope[i'];
    assert i' == i;
    PrefixMembers(scope[i], j);
    PrefixMembers(scope[i], j');
  }

  lemma PrefixMembers<T>(xs: seq<T>, n: nat)
    requires n <= |xs|
    ensures forall q :: 0 <= q < n ==> xs[q] in xs[..n]
  {
    assert forall q :: 0 <= q < n ==> xs[..n][q] == xs[q];
  }

  function LoadCode(x: Symbol, scope: Scope): Instr {
    match LocationOf(x, scope)
    case Some((i, j)) => LD(i, j)
    case None => LDG(x)
  }

  function StoreCode(x: Symbol, scope: Scope): Instr {
    match LocationOf(x, scope)
    case Some((i, j)) => LSET(i, j)
    case None => GSET(x)
  }

  function CallCode(tail: bool): Instr {
    if tail then TAPP else APP
  }

  function CaptureCode(tail: bool): Instr {
    if tail then TCALLCC else CALLCC
  }

  /** Packing n arguments; `apply` always has at least one, the list it spreads. */
  function PackCode(spread: bool, n: nat): Instr {
    if spread && n > 0 then ARGS_AP(n) else ARGS(n)
  }

  /** A branch ends by joining the code after the test or, in tail position, by returning. */
  function BranchCode(t: Core, scope: Scope, tail: bool): Code
    decreases t, 2
  {
    Gen(t, scope, tail) + [if tail then RTN else JOIN]
  }

  /** The code of t; in tail position it is always followed by RTN. */
  function Gen(t: Core, scope: Scope, tail: bool): Code
    decreases t, 1
  {
    match t
    case Const(x) => [LDC(x)]
    case Ref(x) => [LoadCode(x, scope)]
    case Test(c, thn, els) =>
      var ct, cf := BranchCode(thn, scope, tail), BranchCode(els, scope, tail);
      Gen(c, scope, false) + [if tail then SELR(ct, cf) else SEL(ct, cf)]
    case Then(a, b) => Gen(a, scope, false) + ([POP] + Gen(b, scope, tail))
    case Fun(params, rest, body) => [LDF(params, rest, BodyCode(body, [FrameNames(params, rest)] + scope))]
    case Def(x, rhs) => Gen(rhs, scope, false) + [DEF(x)]
    case Assign(x, rhs) => Gen(rhs, scope, false) + [StoreCode(x, scope)]
    case CaptureCall(f) => Gen(f, scope, false) + [CaptureCode(tail)]
    case Call(f, args) => GenArgs(args, scope) + ([PackCode(false, |args|)] + (Gen(f, scope, false) + [CallCode(tail)]))
    case Spread(f, args) => GenArgs(args,
                                    scope) + ([PackCode(true, |args|)] + (Gen(f, scope, false) + [CallCode(tail)]))
  }

  function BodyCode(body: Core, scope: Scope): Code
    decreases body, 2
  {
    Gen(body, scope, true) + [RTN]
  }

  function GenArgs(ts: seq<Core>, scope: Scope): Code
    decreases ts, 0
  {
    if ts == [] then [] else Gen(ts[0], scope, false) + GenArgs(ts[1..], scope)
  }

  /** The code of a whole program, as `compile_top` lays it out. */
  function ProgramCode(t: Core): Code {
    Gen(t, [], false) + [STOP]
  }
}
