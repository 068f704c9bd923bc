/** The compiler as it runs: one pass that expands forms, draws fresh names and appends instructions. */
module CompilerObject {
  import opened Wrappers
  import opened Datums
  import opened Symbols
  import opened Expand
  import opened Weights
  import opened CoreLanguage
  import opened Shapes
  import opened Machine
  import opened CodeGen
  import Forms
  import WellFormed

  /** A code block under construction. */
  class CodeBuffer {
    var ins: Code

    constructor ()
      ensures ins == []
    {
      ins := [];
    }

    method Emit(i: Instr)
      modifies this
      ensures ins == old(ins) + [i]
    {
      ins := ins + [i];
    }
  }

  /** The outcome of compiling what d desugars to onto the code `before`: the same error, or its code appended. */
  ghost predicate Compiled(d: Desugared, before: Code, env: Scope, tail: bool, r: Result<(), SyntaxError>, g: nat,
                           after: Code) {
    match d
    case Err(e) => r == Err(e)
    case Ok((t, g')) => r.Ok? && g == g' && after == before + Gen(t, env, tail)
  }

  lemma Reassociate(before: Code, args: Code, pack: Instr, f: Code, call: Instr)
    ensures before + args + [pack] + f + [call] == before + (args + ([pack] + (f + [call])))
  {
  }

  /** The code of a call, in order. */
  lemma OperationCompiled(head: Datum, xs: seq<Datum>, spread: bool, g0: nat, before: Code, ts: seq<Core>, g: nat,
                          env: Scope, tail: bool, after: Code)
    requires DesugarArgs(xs, g0) == Ok((ts, g)) && Desugar(head, g).Ok? && (spread ==> xs != [])
    requires var f := Desugar(head, g).value.0;
             after == before + GenArgs(ts, env) + [PackCode(spread, |xs|)] + Gen(f, env, false) + [CallCode(tail)]
    ensures Compiled(DesugarOperation(head, xs, spread, g0), before, env, tail, Ok(()), Desugar(head, g).value.1, after)
  {
    var f := Desugar(head, g).value.0;
    Reassociate(before, GenArgs(ts, env), PackCode(spread, |xs|), Gen(f, env, false), CallCode(tail));
  }

  class Compiler {
    /** The gensym counter. */
    var counter: nat

    constructor ()
      ensures counter == 0
    {
      counter := 0;
    }

    /** Compiling x appends the code of the core expression x stands for, in one pass over x. */
    method Comp(x: Datum, env: Scope, code: CodeBuffer, tail: bool) returns (r: Result<(), SyntaxError>)
      modifies this, code
      ensures Compiled(Desugar(x, old(counter)), old(code.ins), env, tail, r, counter, code.ins)
      decreases W(x), 2
    {
      r := Ok(());
      match x {
        case Sym(s) =>
          var at := FindLocation(s, env);
          if at.Some? {
            code.Emit(LD(at.value.0, at.value.1));
          } else {
            code.Emit(LDG(s));
          }
        case Eof =>
          r := Err(NotCompilable);
        case Pair(head, rest) =>
          if head.Sym? && head.name.Known? {
            WHead(head.name.k, rest);
            if IsDerived(head.name.k) {
              r := CompDerived(head.name.k, rest, env, code, tail);
            } else if IsSpecial(head.name.k) {
              r := CompForm(head.name.k, rest, env, code, tail);
            } else {
              r := CompCall(head, rest, env, code, tail);
            }
          } else {
            r := CompCall(head, rest, env, code, tail);
          }
        case _ =>
          code.Emit(LDC(x));
      }
    }

    method CompForm(k: Keyword, rest: Datum, env: Scope, code: CodeBuffer, tail: bool)
      returns (r: Result<(), SyntaxError>)
      requires IsSpecial(k)
      modifies this, code
      ensures Compiled(DesugarForm(k, rest, old(counter)), old(code.ins), env, tail, r, counter, code.ins)
      decreases WKnown(k, rest), 1
    {
      if k == Quote || IsReport(k) || k == DefineMacro {
        r := CompSimple(k, rest, env, code, tail);
      } else if k == If {
        r := CompIf(rest, env, code, tail);
      } else if k == Begin {
        var xs :- ListResult(rest);
        OperandWeights(rest, xs);
        r := CompBody(xs, env, code, tail);
      } else if k == Lambda {
        var xs :- Operands(Lambda, rest, 1, 0);
        assert WKnown(Lambda, rest) == 3 + WTail(rest);
        r := CompLambda(rest.car, rest.cdr, env, code, tail);
      } else if k == Define || k == Set {
        r := CompEffect(k, rest, env, code, tail);
      } else {
        r := CompCalling(k, rest, env, code, tail);
      }
    }

    /** The forms without subexpressions. */
    method CompSimple(k: Keyword, rest: Datum, env: Scope, code: CodeBuffer, tail: bool)
      returns (r: Result<(), SyntaxError>)
      requires k == Quote || IsReport(k) || k == DefineMacro
      modifies this, code
      ensures Compiled(DesugarForm(k, rest, old(counter)), old(code.ins), env, tail, r, counter, code.ins)
    {
      if k == Quote {
        var xs :- Operands(Quote, rest, 1, 1);
        code.Emit(LDC(xs[0]));
        r := Ok(());
      } else if k == DefineMacro {
        r := Err(MacroForm);
      } else {
        code.Emit(LDC(Bool(true)));
        r := Ok(());
      }
    }

    /** The special forms that define or assign. */
    method CompEffect(k: Keyword, rest: Datum, env: Scope, code: CodeBuffer, tail: bool)
      returns (r: Result<(), SyntaxError>)
      requires k == Define || k == Set
      modifies this, code
      ensures Compiled(DesugarForm(k, rest, old(counter)), old(code.ins), env, tail, r, counter, code.ins)
      decreases WKnown(k, rest), 0
    {
      if k == Define {
        var xs :- Operands(Define, rest, 1, 0);
        DefineOperandWeights(rest);
        r := CompDefine(xs[0], rest.cdr, env, code, tail);
      } else {
        r := CompSet(rest, env, code, tail);
      }
    }

    /** The special forms that call. */
    method CompCalling(k: Keyword, rest: Datum, env: Scope, code: CodeBuffer, tail: bool)
      returns (r: Result<(), SyntaxError>)
      requires k == Apply || k == CallCC || k == CallWithCC
      modifies this, code
      ensures Compiled(DesugarForm(k, rest, old(counter)), old(code.ins), env, tail, r, counter, code.ins)
      decreases WKnown(k, rest), 0
    {
      var xs :- Operands(k, rest, if k == Apply then 2 else 1, if k == Apply then 0 else 1);
      OperandWeights(rest, xs);
      if k == Apply {
        r := CompOperation(xs[0], xs[1..], true, env, code, tail);
      } else {
        r := CompCapture(xs[0], env, code, tail);
      }
    }

    method CompCapture(receiver: Datum, env: Scope, code: CodeBuffer, tail: bool)
      returns (r: Result<(), SyntaxError>)
      modifies this, code
      ensures match Desugar(receiver, old(counter))
              case Err(e) => r == Err(e)
              case Ok((t, g)) => r.Ok? && counter == g && code.ins == old(code.ins) + Gen(CaptureCall(t), env, tail)
      decreases W(receiver), 3
    {
      r := Comp(receiver, env, code, false);
      if r.Ok? {
        code.Emit(CaptureCode(tail));
      }
    }

    /** A derived form is expanded, and its expansion compiled in its place. */
    method CompDerived(k: Keyword, rest: Datum, env: Scope, code: CodeBuffer, tail: bool)
      returns (r: Result<(), SyntaxError>)
      requires IsDerived(k)
      modifies this, code
      ensures Compiled(Desugar(Pair(Sym(Known(k)), rest), old(counter)), old(code.ins), env, tail, r, counter, code.ins)
      decreases W(Pair(Sym(Known(k)), rest)), 0
    {
      WHead(k, rest);
      DesugarDerived(k, rest, counter);
      var expansion :- ExpandForm(k, rest, counter);
      ExpansionDecreases(k, rest, counter);
      assert Desugar(Pair(Sym(Known(k)), rest), counter) == Desugar(expansion.0, expansion.1);
      counter := expansion.1;
      r := Comp(expansion.0, env, code, tail);
    }

    method CompIf(rest: Datum, env: Scope, code: CodeBuffer, tail: bool) returns (r: Result<(), SyntaxError>)
      modifies this, code
      ensures Compiled(DesugarTest(rest, old(counter)), old(code.ins), env, tail, r, counter, code.ins)
      decreases WKnown(If, rest), 0
    {
      var xs :- Operands(If, rest, 2, 3);
      OperandWeights(rest, xs);
      r := Comp(xs[0], env, code, false);
      if r.Err? {
        return;
      }
      ghost var g1 := counter;
      var ct := new CodeBuffer();
      r := CompBranch(xs[1], env, ct, tail);
      if r.Err? {
        return;
      }
      ghost var g2 := counter;
      var cf := new CodeBuffer();
      r := CompBranch(if |xs| == 2 then Nil else xs[2], env, cf, tail);
      if r.Err? {
        return;
      }
      code.Emit(if tail then SELR(ct.ins, cf.ins) else SEL(ct.ins, cf.ins));
      ghost var c := Desugar(xs[0], old(counter)).value.0;
      assert code.ins == old(code.ins) + (Gen(c, env, false) + [if tail then SELR(ct.ins, cf.ins)
                                                                else SEL(ct.ins, cf.ins)]);
    }

    /** One branch, in a block of its own. */
    method CompBranch(x: Datum, env: Scope, block: CodeBuffer, tail: bool) returns (r: Result<(), SyntaxError>)
      requires block.ins == []
      modifies this, block
      ensures match Desugar(x, old(counter))
              case Err(e) => r == Err(e)
              case Ok((t, g)) => r.Ok? && counter == g && block.ins == BranchCode(t, env, tail)
      decreases W(x), 3
    {
      r := Comp(x, env, block, tail);
      if r.Ok? {
        block.Emit(if tail then RTN else JOIN);
      }
    }

    method CompSet(rest: Datum, env: Scope, code: CodeBuffer, tail: bool) returns (r: Result<(), SyntaxError>)
      modifies this, code
      ensures Compiled(DesugarAssign(rest, old(counter)), old(code.ins), env, tail, r, counter, code.ins)
      decreases WKnown(Set, rest), 0, 0
    {
      var xs :- Operands(Set, rest, 2, 2);
      OperandWeights(rest, xs);
      if !xs[0].Sym? {
        return Err(BadForm(Set));
      }
      r := Comp(xs[1], env, code, false);
      if r.Ok? {
        var at := FindLocation(xs[0].name, env);
        if at.Some? {
          code.Emit(LSET(at.value.0, at.value.1));
        } else {
          code.Emit(GSET(xs[0].name));
        }
      }
    }

    method CompDefine(target: Datum, rhs: Datum, env: Scope, code: CodeBuffer, tail: bool)
      returns (r: Result<(), SyntaxError>)
      modifies this, code
      ensures Compiled(DesugarDefine(target, rhs, old(counter)), old(code.ins), env, tail, r, counter, code.ins)
      decreases 2 + WList(rhs, 1), 0
    {
      if target.Sym? {
        if !rhs.Pair? || rhs.cdr != Nil {
          return Err(BadForm(Define));
        }
        r := Comp(rhs.car, env, code, false);
        if r.Ok? {
          code.Emit(DEF(target.name));
        }
      } else if target.Pair? && target.car.Sym? {
        r := CompLambda(target.cdr, rhs, env, code, false);
        if r.Ok? {
          code.Emit(DEF(target.car.name));
        }
      } else {
        r := Err(BadForm(Define));
      }
    }

    method CompLambda(params: Datum, body: Datum, env: Scope, code: CodeBuffer, tail: bool)
      returns (r: Result<(), SyntaxError>)
      modifies this, code
      ensures Compiled(DesugarLambda(params, body, old(counter)), old(code.ins), env, tail, r, counter, code.ins)
      decreases WList(body, 1), 1
    {
      var parsed :- Params(params);
      var (fixed, rest) := parsed;
      var forms :- ScanOutDefines(body);
      ScanOutDecreases(body);
      var bodyCode := new CodeBuffer();
      r := CompBody(forms, [FrameNames(fixed, rest)] + env, bodyCode, true);
      if r.Ok? {
        bodyCode.Emit(RTN);
        ghost var t := DesugarBody(forms, old(counter)).value.0;
        assert bodyCode.ins == BodyCode(t, [FrameNames(fixed, rest)] + env);
        code.Emit(LDF(fixed, rest, bodyCode.ins));
      }
    }

    method CompCall(head: Datum, rest: Datum, env: Scope, code: CodeBuffer, tail: bool)
      returns (r: Result<(), SyntaxError>)
      modifies this, code
      ensures Compiled(DesugarCall(head, rest, old(counter)), old(code.ins), env, tail, r, counter, code.ins)
      decreases 1 + W(head) + WList(rest, 1), 0
    {
      var xs :- ListResult(rest);
      WOfList(rest, xs, 1);
      r := CompOperation(head, xs, false, env, code, tail);
    }

    /** Arguments from left to right, packed; then the operator, called. */
    method CompOperation(head: Datum, xs: seq<Datum>, spread: bool, env: Scope, code: CodeBuffer, tail: bool)
      returns (r: Result<(), SyntaxError>)
      requires spread ==> xs != []
      modifies this, code
      ensures Compiled(DesugarOperation(head, xs, spread, old(counter)), old(code.ins), env, tail, r, counter, code.ins)
      decreases W(head) + WSeq(xs, 1), 3
    {
      r := CompArgs(xs, env, code);
      if r.Err? {
        return;
      }
      ghost var (ts, g) := DesugarArgs(xs, old(counter)).value;
      r := CompOperator(head, |xs|, spread, env, code, tail);
      if r.Ok? {
        OperationCompiled(head, xs, spread, old(counter), old(code.ins), ts, g, env, tail, code.ins);
      }
    }

    /** The end of a call of n operands: they are packed, and the operator is called. */
    method CompOperator(head: Datum, n: nat, spread: bool, env: Scope, code: CodeBuffer, tail: bool)
      returns (r: Result<(), SyntaxError>)
      requires spread ==> n > 0
      modifies this, code
      ensures match Desugar(head, old(counter))
              case Err(e) => r == Err(e)
              case Ok((f, g)) =>
                && r.Ok? && counter == g
                && code.ins == old(code.ins) + [PackCode(spread, n)] + Gen(f, env, false) + [CallCode(tail)]
      decreases W(head), 3, 0
    {
      code.Emit(if spread then ARGS_AP(n) else ARGS(n));
      r := Comp(head, env, code, false);
      if r.Ok? {
        code.Emit(if tail then TAPP else APP);
      }
    }

    method CompArgs(xs: seq<Datum>, env: Scope, code: CodeBuffer) returns (r: Result<(), SyntaxError>)
      modifies this, code
      ensures match DesugarArgs(xs, old(counter))
              case Err(e) => r == Err(e)
              case Ok((ts, g)) => r.Ok? && counter == g && code.ins == old(code.ins) + GenArgs(ts, env)
      decreases WSeq(xs, 1), 0
    {
      r := Ok(());
      ghost var whole := DesugarArgs(xs, counter);
      var i := 0;
      while i < |xs|
        invariant 0 <= i <= |xs| && r.Ok?
        invariant match DesugarArgs(xs[i..], counter)
                  case Err(e) => whole == Err(e)
                  case Ok((ts, g)) =>
                    && whole.Ok? && whole.value.1 == g
                    && old(code.ins) + GenArgs(whole.value.0, env) == code.ins + GenArgs(ts, env)
      {
        WSeqElement(xs, i);
        assert xs[i..][0] == xs[i] && xs[i..][1..] == xs[i + 1..];
        r := Comp(xs[i], env, code, false);
        if r.Err? {
          return;
        }
        i := i + 1;
      }
      assert xs[i..] == [];
    }

    method CompBody(forms: seq<Datum>, env: Scope, code: CodeBuffer, tail: bool) returns (r: Result<(), SyntaxError>)
      modifies this, code
      ensures Compiled(DesugarBody(forms, old(counter)), old(code.ins), env, tail, r, counter, code.ins)
      decreases WSeq(forms, 1), 0
    {
      r := Ok(());
      if forms == [] {
        code.Emit(LDC(Nil));
        return;
      }
      ghost var whole := DesugarBody(forms, counter);
      var i := 0;
      while i < |forms|
        invariant 0 <= i <= |forms| && r.Ok?
        invariant i < |forms| ==>
                    match DesugarBody(forms[i..], counter)
                    case Err(e) => whole == Err(e)
                    case Ok((t, g)) =>
                      && whole.Ok? && whole.value.1 == g
                      && old(code.ins) + Gen(whole.value.0, env, tail) == code.ins + Gen(t, env, tail)
        invariant i == |forms| ==>
                    whole.Ok? && whole.value.1 == counter && code.ins == old(code.ins) + Gen(whole.value.0, env, tail)
      {
        WSeqElement(forms, i);
        assert forms[i..][0] == forms[i] && forms[i..][1..] == forms[i + 1..];
        var last := i + 1 == |forms|;
        r := Comp(forms[i], env, code, last && tail);
        if r.Err? {
          return;
        }
        if !last {
          code.Emit(POP);
        }
        i := i + 1;
      }
    }

    /** `compile_top`: a program in a block of its own, ended by STOP. */
    method CompileTop(x: Datum) returns (r: Result<Code, SyntaxError>)
      modifies this
      ensures match Desugar(x, old(counter))
              case Err(e) => r == Err(e)
              case Ok((t, g)) => r == Ok(ProgramCode(t)) && counter == g
      ensures r.Ok? <==> Forms.Formed(x)
    {
      WellFormed.DesugarsExactly(x, counter);
      var code := new CodeBuffer();
      var done := Comp(x, [], code, false);
      if done.Err? {
        return Err(done.error);
      }
      code.Emit(STOP);
      assert code.ins == ProgramCode(Desugar(x, old(counter)).value.0);
      r := Ok(code.ins);
    }
  }
}
