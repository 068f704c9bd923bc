/** The machine as an object whose registers the instructions update in place. */
module VirtualMachine {
  import opened Wrappers
  import opened Datums
  import opened Machine
  import opened Listing
  import opened Iteration

  /** How an instruction, or a run, leaves the machine. */
  datatype Signal = Going | Stopped(v: Value) | Raised(f: Fault)

  /** The elements of a list, found by walking it and remembering the pairs passed. */
  method ListElements(h: Heap, v: Value) returns (r: Option<seq<Value>>)
    ensures r == Elements(h, v, {})
    ensures forall vs :: r == Some(vs) <==> IsList(h, v, vs)
  {
    forall vs {
      ElementsExact(h, v, vs);
    }
    var out, cur, seen := [], v, {};
    PrependNothing(Elements(h, v, {}));
    while !IsEnd(cur)
      invariant Elements(h, v, {}) == Prepend(out, Elements(h, cur, seen))
      decreases Unseen(h, seen), if cur.Lit? then cur.x else Nil
    {
      match cur {
        case Lit(Pair(a, d)) =>
          PrependStep(out, Lit(a), Elements(h, Lit(d), seen));
          out, cur := out + [Lit(a)], Lit(d);
        case PairRef(id) =>
          if id >= |h.pairs| || id in seen {
            return None;
          }
          assert id in Unseen(h, seen) && Unseen(h, seen + {id}) <= Unseen(h, seen) && id !in Unseen(h, seen + {id});
          PrependStep(out, h.pairs[id].0, Elements(h, h.pairs[id].1, seen + {id}));
          out, cur, seen := out + [h.pairs[id].0], h.pairs[id].1, seen + {id};
        case ArgList(vs) =>
          return Some(out + vs);
        case _ =>
          return None;
      }
    }
    assert out + [] == out;
    return Some(out);
  }

  predicate IsEnd(v: Value) {
    v == Lit(Nil)
  }

  function Prepend(out: seq<Value>, r: Option<seq<Value>>): Option<seq<Value>> {
    match r
    case None => None
    case Some(vs) => Some(out + vs)
  }

  lemma PrependNothing(r: Option<seq<Value>>)
    ensures Prepend([], r) == r
  {
    if r.Some? {
      assert [] + r.value == r.value;
    }
  }

  lemma PrependStep(out: seq<Value>, v: Value, r: Option<seq<Value>>)
    ensures Prepend(out, Prepend([v], r)) == Prepend(out + [v], r)
  {
    if r.Some? {
      assert out + ([v] + r.value) == (out + [v]) + r.value;
    }
  }

  /** A fresh list of vs, its pairs allocated from the last to the first. */
  method NewList(h: Heap, vs: seq<Value>) returns (v: Value, h': Heap)
    ensures (v, h') == AllocateList(h, vs)
    ensures IsList(h', v, vs) && Extends(h, h') && |h'.pairs| == |h.pairs| + |vs|
  {
    AllocatesList(h, vs);
    v, h' := NIL, h;
    var i := |vs|;
    assert vs[i..] == [];
    while i > 0
      invariant 0 <= i <= |vs|
      invariant (v, h') == AllocateList(h, vs[i..])
    {
      i := i - 1;
      assert vs[i..][0] == vs[i] && vs[i..][1..] == vs[i + 1..];
      h', v := h'.(pairs := h'.pairs + [(vs[i], v)]), PairRef(|h'.pairs|);
    }
    assert vs[0..] == vs;
  }

  lemma Fetched(P: Primitives, before: State, m: State)
    requires before.pc < |before.c| && m == before.(pc := before.pc + 1)
    ensures Machine.Step(P, before) == Execute(P, m, before.c[before.pc])
  {
  }

  lemma PopStep(s: seq<Value>, k: nat, vs: seq<Value>)
    requires 0 < k <= |s|
    ensures s[k - 1..] + vs == [s[..k][k - 1]] + (s[k..] + vs) && s[..k][..k - 1] == s[..k - 1]
  {
    assert s[k - 1..] == [s[k - 1]] + s[k..];
  }

  /** The values that go in front of the list on top. */
  lemma BelowTop(s: seq<Value>, n: nat)
    requires 0 < n <= |s|
    ensures var below := s[..|s| - 1];
            && below[..|below| - (n - 1)] == s[..|s| - n]
            && below[|below| - (n - 1)..] == s[|s| - n..|s| - 1]
  {
  }

  class VM {
    var s: seq<Value>
    var e: seq<nat>
    var c: Code
    var pc: nat
    var d: Dump
    var st: MachineStore

    /** A machine about to run code from its beginning. */
    constructor (code: Code, store: MachineStore)
      ensures Registers() == State([], [], code, 0, Empty, store)
    {
      s, e, c, pc, d, st := [], [], code, 0, Empty, store;
    }

    function Registers(): State
      reads this
    {
      State(s, e, c, pc, d, st)
    }

    /** The signal and the registers agree with an outcome of the transition function. */
    ghost predicate Shows(o: Outcome, signal: Signal)
      reads this
    {
      match o
      case Running(m) => signal == Going && Registers() == m
      case Halted(v, st') => signal == Stopped(v) && st == st'
      case Faulted(f) => signal == Raised(f)
    }

    /** Executes one instruction. */
    method Step(P: Primitives) returns (signal: Signal)
      modifies this
      ensures Shows(Machine.Step(P, old(Registers())), signal)
    {
      if pc >= |c| {
        return Raised(CodeExhausted);
      }
      var ins := c[pc];
      pc := pc + 1;
      Fetched(P, old(Registers()), Registers());
      ghost var o := Execute(P, Registers(), ins);
      signal := Dispatch(P, ins);
      assert Shows(o, signal);
    }

    method Dispatch(P: Primitives, ins: Instr) returns (signal: Signal)
      modifies this
      ensures Shows(Execute(P, old(Registers()), ins), signal)
    {
      match ins {
        case ARGS(n) =>
          signal := Pack(P, n);
        case ARGS_AP(n) =>
          signal := PackSpread(P, n);
        case APP | TAPP =>
          signal := CallTop(P, ins.TAPP?);
        case CALLCC | TCALLCC =>
          signal := CaptureAndCall(P, ins.TCALLCC?);
        case RTN =>
          signal := Return(P);
        case SEL(ct, cf) =>
          signal := Select(P, ct, cf, true);
        case SELR(ct, cf) =>
          signal := Select(P, ct, cf, false);
        case JOIN =>
          signal := Join(P);
        case STOP =>
          signal := Stop(P);
        case LD(_, _) | LDC(_) | LDG(_) | LDF(_, _, _) | POP | DEF(_) | DEFM(_) | LSET(_, _) | GSET(_) | LDCT =>
          signal := LoadOrStore(P, ins);
      }
    }

    method Stop(ghost P: Primitives) returns (signal: Signal)
      modifies this
      ensures Shows(Execute(P, old(Registers()), STOP), signal)
    {
      signal := Stopped(if s == [] then NIL else s[|s| - 1]);
    }

    method Join(ghost P: Primitives) returns (signal: Signal)
      modifies this
      ensures Shows(Execute(P, old(Registers()), JOIN), signal)
    {
      if d.Empty? {
        return Raised(JoinUnderflow);
      }
      c, pc, d := d.c, d.pc, d.next;
      signal := Going;
    }

    /** Instructions that only move values between the stack, the frames and the globals. */
    method LoadOrStore(ghost P: Primitives, ins: Instr) returns (signal: Signal)
      requires ins.LD? || ins.LDC? || ins.LDG? || ins.LDF? || ins.LDCT?
               || ins.POP? || ins.DEF? || ins.DEFM? || ins.LSET? || ins.GSET?
      modifies this
      ensures Shows(Execute(P, old(Registers()), ins), signal)
    {
      signal := Going;
      match ins {
        case LD(i, j) =>
          if i >= |e| || e[i] >= |st.frames| || j >= |st.frames[e[i]]| {
            return Raised(FrameOutOfRange);
          }
          s := s + [st.frames[e[i]][j]];
        case LDC(x) =>
          s := s + [Lit(x)];
        case LDG(x) =>
          if x !in st.globals {
            return Raised(Unbound(x));
          }
          s := s + [st.globals[x]];
        case LDF(params, rest, body) =>
          s := s + [Closure(|st.closures|)];
          st := st.(closures := st.closures + [MachineClosure(params, rest, body, e)]);
        case LDCT =>
          st := st.(conts := st.conts + [MachineCont(s, e, c, pc, d)]);
          s := s + [Continuation(|st.conts| - 1)];
        case POP | DEF(_) | DEFM(_) | LSET(_, _) | GSET(_) =>
          if s == [] {
            return Raised(StackUnderflow);
          }
          signal := Store(P, ins, s[|s| - 1]);
      }
    }

    method Store(ghost P: Primitives, ins: Instr, top: Value) returns (signal: Signal)
      requires s != [] && top == s[|s| - 1]
      requires ins.POP? || ins.DEF? || ins.DEFM? || ins.LSET? || ins.GSET?
      modifies this
      ensures Shows(Execute(P, old(Registers()), ins), signal)
    {
      signal := Going;
      match ins {
        case POP =>
          s := s[..|s| - 1];
        case DEF(x) =>
          st := st.(globals := st.globals[x := top]);
          s := s[..|s| - 1] + [Lit(Sym(x))];
        case DEFM(x) =>
          st := st.(macros := st.macros[x := top],
                    globals := st.globals[x := if top.Closure? then Macro(top.id) else top]);
          s := s[..|s| - 1] + [Lit(Sym(x))];
        case LSET(i, j) =>
          if i >= |e| || e[i] >= |st.frames| || j >= |st.frames[e[i]]| {
            return Raised(FrameOutOfRange);
          }
          st := st.(frames := st.frames[e[i] := st.frames[e[i]][j := top]]);
        case GSET(x) =>
          st := st.(globals := st.globals[x := top]);
      }
    }

    /** ARGS: pops n values, which come off last first. */
    method Pack(ghost P: Primitives, n: nat) returns (signal: Signal)
      modifies this
      ensures Shows(Execute(P, old(Registers()), ARGS(n)), signal)
    {
      if n > |s| {
        return Raised(StackUnderflow);
      }
      var vs := PopOnto([], n);
      assert vs == old(s)[|old(s)| - n..];
      s := s + [ArgList(vs)];
      signal := Going;
    }

    /** Pops n values in front of vs. */
    method PopOnto(vs: seq<Value>, n: nat) returns (all: seq<Value>)
      requires n <= |s|
      modifies this`s
      ensures s == old(s)[..|old(s)| - n] && all == old(s)[|old(s)| - n..] + vs
    {
      all := vs;
      var i := 0;
      assert s[..|s|] == s && s[|s|..] + vs == vs;
      while i < n
        invariant 0 <= i <= n && |s| == |old(s)| - i
        invariant s == old(s)[..|old(s)| - i] && all == old(s)[|old(s)| - i..] + vs
      {
        PopStep(old(s), |s|, vs);
        all := [s[|s| - 1]] + all;
        s := s[..|s| - 1];
        i := i + 1;
      }
    }

    /** ARGS-AP: pops the list to spread, then the values that go in front of it. */
    method PackSpread(ghost P: Primitives, n: nat) returns (signal: Signal)
      modifies this
      ensures Shows(Execute(P, old(Registers()), ARGS_AP(n)), signal)
    {
      if n == 0 {
        return Raised(BadCount);
      } else if n > |s| {
        return Raised(StackUnderflow);
      }
      var tail := ListElements(st.heap, s[|s| - 1]);
      if tail.None? {
        return Raised(NotAList);
      }
      s := s[..|s| - 1];
      var vs := PopOnto(tail.value, n - 1);
      BelowTop(old(s), n);
      s := s + [ArgList(vs)];
      signal := Going;
    }

    method Return(ghost P: Primitives) returns (signal: Signal)
      modifies this
      ensures Shows(Execute(P, old(Registers()), RTN), signal)
    {
      var r := if s == [] then NIL else s[|s| - 1];
      if d.Empty? {
        return Stopped(r);
      }
      s, e, c, pc, d := d.s + [r], d.e, d.c, d.pc, d.next;
      signal := Going;
    }

    method Select(ghost P: Primitives, ct: Code, cf: Code, save: bool) returns (signal: Signal)
      modifies this
      ensures Shows(Execute(P, old(Registers()), if save then SEL(ct, cf) else SELR(ct, cf)), signal)
    {
      if s == [] {
        return Raised(StackUnderflow);
      }
      var next := if IsFalse(s[|s| - 1]) then cf else ct;
      s := s[..|s| - 1];
      if save {
        d := Saved(s, e, c, pc, d);
      }
      c, pc := next, 0;
      signal := Going;
    }

    method CallTop(P: Primitives, tail: bool) returns (signal: Signal)
      modifies this
      ensures Shows(Execute(P, old(Registers()), if tail then TAPP else APP), signal)
    {
      if |s| < 2 {
        return Raised(StackUnderflow);
      }
      var callee, list := s[|s| - 1], s[|s| - 2];
      if !IsProcedure(callee) {
        return Raised(NotCallable);
      }
      var args := ListElements(st.heap, list);
      if args.None? {
        return Raised(NotAList);
      }
      s := s[..|s| - 2];
      signal := Invoke(P, callee, args.value, tail);
    }

    method CaptureAndCall(P: Primitives, tail: bool) returns (signal: Signal)
      modifies this
      ensures Shows(Execute(P, old(Registers()), if tail then TCALLCC else CALLCC), signal)
    {
      if s == [] {
        return Raised(StackUnderflow);
      }
      var receiver := s[|s| - 1];
      s := s[..|s| - 1];
      var k := Continuation(|st.conts|);
      st := st.(conts := st.conts + [MachineCont(s, e, c, pc, d)]);
      signal := Invoke(P, receiver, [k], tail);
    }

    /** Calls a primitive, resumes a continuation, or enters a closure. */
    method Invoke(P: Primitives, callee: Value, args: seq<Value>, tail: bool) returns (signal: Signal)
      modifies this
      ensures Shows(Machine.Apply(P, old(Registers()), callee, args, tail), signal)
    {
      signal := Going;
      match callee {
        case Primitive(name) =>
          var out := P(name, args, st.heap);
          if out.None? {
            return Raised(PrimitiveFailed);
          }
          s, st := s + [out.value.0], st.(heap := out.value.1);
        case Continuation(id) =>
          if id >= |st.conts| {
            return Raised(NotCallable);
          }
          var k := st.conts[id];
          s, e, c, pc, d := k.s + [if args == [] then NIL else args[0]], k.e, k.c, k.pc, k.d;
        case Closure(id) =>
          if id >= |st.closures| {
            return Raised(NotCallable);
          }
          signal := Enter(P, id, args, tail);
        case _ =>
          return Raised(NotCallable);
      }
    }

    method Enter(P: Primitives, id: nat, args: seq<Value>, tail: bool) returns (signal: Signal)
      requires id < |st.closures|
      modifies this
      ensures Shows(Machine.Apply(P, old(Registers()), Closure(id), args, tail), signal)
      ensures var clo := old(st).closures[id];
              if Fits(clo.params, clo.rest, args)
              then signal == Going && Entered(old(Registers()), Registers(), clo, args, tail)
              else signal == Raised(ArityMismatch)
    {
      var clo := st.closures[id];
      ClosureEntered(P, Registers(), id, args, tail);
      var frame, heap := args, st.heap;
      if clo.rest.None? {
        if |args| != |clo.params| {
          return Raised(ArityMismatch);
        }
      } else {
        if |args| < |clo.params| {
          return Raised(ArityMismatch);
        }
        var list;
        list, heap := NewList(st.heap, args[|clo.params|..]);
        frame := args[..|clo.params|] + [list];
      }
      if !tail {
        d := Saved(s, e, c, pc, d);
      }
      s := [];
      e := [|st.frames|] + clo.env;
      st := st.(frames := st.frames + [frame], heap := heap);
      c, pc := clo.body, 0;
      signal := Going;
    }

    /** Runs until the program stops or raises an error, or fuel instructions have been executed. */
    method Run(P: Primitives, fuel: nat) returns (signal: Signal)
      modifies this
      ensures Shows(Machine.Run(P, old(Registers()), fuel), signal)
    {
      signal := Going;
      var left: nat := fuel;
      ghost var o := Running(Registers());
      while left > 0 && signal == Going
        invariant left <= fuel && Shows(o, signal)
        invariant Iterate(Advance(P), o, left) == Machine.Run(P, old(Registers()), fuel)
      {
        o := Advance(P)(o);
        signal := Step(P);
        left := left - 1;
      }
      if !o.Running? {
        IterateFixed(Advance(P), o, left);
      }
    }
  }
}
