/** The SECD machine: instructions, values, store, the transition function, and the machine as an object. */
module Machine {
  import opened Wrappers
  import opened Datums
  import opened Symbols
  import opened Iteration

  // ---- Code ----

  type Code = seq<Instr>

  datatype Instr =
    | LD(frame: nat, index: nat)
    | LDC(x: Datum)
    | LDG(name: Symbol)
    | LDF(params: seq<Symbol>, rest: Option<Symbol>, body: Code)
    | ARGS(n: nat)
    | ARGS_AP(n: nat)
    | APP
    | TAPP
    | RTN
    | SEL(ct: Code, cf: Code)
    | SELR(ct: Code, cf: Code)
    | JOIN
    | POP
    | DEF(name: Symbol)
    | DEFM(name: Symbol)
    | LSET(frame: nat, index: nat)
    | GSET(name: Symbol)
    | LDCT
    | CALLCC
    | TCALLCC
    | STOP

  // ---- Values ----

  /** A value. Literals are immutable data; everything allocated is named by its place in the store. */
  datatype Value =
    | Lit(x: Datum)
    | PairRef(id: nat)
    | VecRef(id: nat)
    | Closure(id: nat)
    | Continuation(id: nat)
    | Primitive(name: string)
    | Macro(id: nat)
    | ArgList(vs: seq<Value>)

  const NIL: Value := Lit(Nil)

  /** `is_false`. */
  predicate IsFalse(v: Value) {
    v.Lit? && v.x.Bool? && !v.x.b
  }

  /** Mutable pairs and vectors, which only primitives and rest parameters allocate. */
  datatype Heap = Heap(pairs: seq<(Value, Value)>, vecs: seq<seq<Value>>)

  /** Everything allocated: C and K are the representations of closures and continuations. */
  datatype Store<C, K> = Store(
    frames: seq<seq<Value>>,
    globals: map<Symbol, Value>,
    macros: map<Symbol, Value>,
    heap: Heap,
    closures: seq<C>,
    conts: seq<K>)

  // ---- Errors ----

  datatype Fault =
    // mistakes of the program being run
    | Unbound(name: Symbol)
    | NotCallable
    | ArityMismatch
    | NotAList
    | PrimitiveFailed
    // states that compiled code should never reach
    | StackUnderflow
    | FrameOutOfRange
    | JoinUnderflow
    | BadCount
    | CodeExhausted
  {
    /** A fault of the machine itself, as opposed to the program. */
    predicate Internal() {
      StackUnderflow? || FrameOutOfRange? || JoinUnderflow? || BadCount? || CodeExhausted?
    }
  }

  /** What primitives do: any function of the name, the arguments and the heap. */
  type Primitives = (string, seq<Value>, Heap) -> Option<(Value, Heap)>

  // ---- Lists ----

  /** `vector_from_list`: the elements of a proper list; `seen` holds the pairs already passed. */
  function Elements(h: Heap, v: Value, seen: set<nat>): Option<seq<Value>>
    decreases Unseen(h, seen), if v.Lit? then v.x else Nil
  {
    match v
    case Lit(Nil) => Some([])
    case Lit(Pair(a, d)) =>
      (match Elements(h, Lit(d), seen)
       case Some(vs) => Some([Lit(a)] + vs)
       case None => None)
    case PairRef(id) =>
      if id >= |h.pairs| || id in seen then None
      else
        assert id in Unseen(h, seen) && Unseen(h, seen + {id}) <= Unseen(h, seen) && id !in Unseen(h, seen + {id});
        (match Elements(h, h.pairs[id].1, seen + {id})
         case Some(vs) => Some([h.pairs[id].0] + vs)
         case None => None)
    case ArgList(vs) => Some(vs)
    case _ => None
  }

  function Unseen(h: Heap, seen: set<nat>): set<nat> {
    set i: nat | i < |h.pairs| && i !in seen
  }

  /** `list_from_vector`: a fresh list of vs. */
  function AllocateList(h: Heap, vs: seq<Value>): (Value, Heap) {
    if vs == [] then (NIL, h)
    else
      var (tail, h') := AllocateList(h, vs[1..]);
      (PairRef(|h'.pairs|), h'.(pairs := h'.pairs + [(vs[0], tail)]))
  }

  /** The frame a procedure's parameters make of its arguments. */
  function BindArguments(h: Heap, params: seq<Symbol>, rest: Option<Symbol>, args: seq<Value>)
    : (r: Option<(seq<Value>, Heap)>)
    ensures r.Some? ==> |r.value.0| == |FrameNames(params, rest)|
  {
    if rest.None? then
      if |args| != |params| then None else Some((args, h))
    else if |args| < |params| then None
    else
      var (list, h') := AllocateList(h, args[|params|..]);
      Some((args[..|params|] + [list], h'))
  }

  /** The variables of a procedure's frame. */
  function FrameNames(params: seq<Symbol>, rest: Option<Symbol>): seq<Symbol> {
    if rest.Some? then params + [rest.value] else params
  }

  // ---- Machine states ----

  /** The dump: an immutable chain of saved registers. */
  datatype Dump = Empty | Saved(s: seq<Value>, e: seq<nat>, c: Code, pc: nat, next: Dump)

  datatype MachineClosure = MachineClosure(params: seq<Symbol>, rest: Option<Symbol>, body: Code, env: seq<nat>)

  datatype MachineCont = MachineCont(s: seq<Value>, e: seq<nat>, c: Code, pc: nat, d: Dump)

  type MachineStore = Store<MachineClosure, MachineCont>

  datatype State = State(s: seq<Value>, e: seq<nat>, c: Code, pc: nat, d: Dump, st: MachineStore) {
    function Push(v: Value): State {
      this.(s := s + [v])
    }

    function Top(): Value
      requires s != []
    {
      s[|s| - 1]
    }

    /** All but the top of the stack. */
    function Below(): seq<Value>
      requires s != []
    {
      s[..|s| - 1]
    }
  }

  datatype Outcome = Running(m: State) | Halted(v: Value, st: MachineStore) | Faulted(f: Fault)

  function Save(m: State): Dump {
    Saved(m.s, m.e, m.c, m.pc, m.d)
  }

  function Resume(m: State, k: MachineCont, v: Value): State {
    State(k.s + [v], k.e, k.c, k.pc, k.d, m.st)
  }

  /** Applying a procedure to arguments already taken off the stack. */
  function Apply(P: Primitives, m: State, callee: Value, args: seq<Value>, tail: bool): Outcome {
    match callee
    case Primitive(name) =>
      (match P(name, args, m.st.heap)
       case None => Faulted(PrimitiveFailed)
       case Some((v, h)) => Running(m.(st := m.st.(heap := h)).Push(v)))
    case Continuation(id) =>
      if id >= |m.st.conts| then Faulted(NotCallable)
      else Running(Resume(m, m.st.conts[id], if args == [] then NIL else args[0]))
    case Closure(id) =>
      if id >= |m.st.closures| then Faulted(NotCallable)
      else
        var clo := m.st.closures[id];
        (match BindArguments(m.st.heap, clo.params, clo.rest, args)
         case None => Faulted(ArityMismatch)
         case Some((frame, h)) =>
           var d := if tail then m.d else Save(m);
           var st := m.st.(frames := m.st.frames + [frame], heap := h);
           Running(State([], [|m.st.frames|] + clo.env, clo.body, 0, d, st)))
    case _ => Faulted(NotCallable)
  }

  predicate IsProcedure(v: Value) {
    v.Primitive? || v.Continuation? || v.Closure?
  }

  predicate FrameInRange(m: State, frame: nat, index: nat) {
    frame < |m.e| && m.e[frame] < |m.st.frames| && index < |m.st.frames[m.e[frame]]|
  }

  /** One instruction. */
  function Step(P: Primitives, m: State): Outcome {
    if m.pc >= |m.c| then Faulted(CodeExhausted) else Execute(P, m.(pc := m.pc + 1), m.c[m.pc])
  }

  /** Executing ins, with the program counter already past it. */
  function Execute(P: Primitives, m: State, ins: Instr): Outcome {
    match ins
    case LD(i, j) =>
      if !FrameInRange(m, i, j) then Faulted(FrameOutOfRange) else Running(m.Push(m.st.frames[m.e[i]][j]))
    case LDC(x) => Running(m.Push(Lit(x)))
    case LDG(x) => if x !in m.st.globals then Faulted(Unbound(x)) else Running(m.Push(m.st.globals[x]))
    case LDF(params, rest, body) =>
      var st := m.st.(closures := m.st.closures + [MachineClosure(params, rest, body, m.e)]);
      Running(m.(st := st).Push(Closure(|m.st.closures|)))
    case ARGS(n) =>
      if n > |m.s| then Faulted(StackUnderflow)
      else Running(m.(s := m.s[..|m.s| - n]).Push(ArgList(m.s[|m.s| - n..])))
    case ARGS_AP(n) =>
      if n == 0 then Faulted(BadCount)
      else if n > |m.s| then Faulted(StackUnderflow)
      else
        (match Elements(m.st.heap, m.Top(), {})
         case None => Faulted(NotAList)
         case Some(vs) => Running(m.(s := m.s[..|m.s| - n]).Push(ArgList(m.s[|m.s| - n..|m.s| - 1] + vs))))
    case APP | TAPP =>
      if |m.s| < 2 then Faulted(StackUnderflow)
      else if !IsProcedure(m.Top()) then Faulted(NotCallable)
      else
        (match Elements(m.st.heap, m.s[|m.s| - 2], {})
         case None => Faulted(NotAList)
         case Some(args) => Apply(P, m.(s := m.s[..|m.s| - 2]), m.Top(), args, ins.TAPP?))
    case RTN =>
      var r := if m.s == [] then NIL else m.Top();
      if m.d.Empty? then Halted(r, m.st) else Running(State(m.d.s + [r], m.d.e, m.d.c, m.d.pc, m.d.next, m.st))
    case SEL(ct, cf) =>
      if m.s == [] then Faulted(StackUnderflow)
      else
        var m' := m.(s := m.Below());
        Running(m'.(c := if IsFalse(m.Top()) then cf else ct, pc := 0, d := Save(m')))
    case SELR(ct, cf) =>
      if m.s == [] then Faulted(StackUnderflow)
      else Running(m.(s := m.Below(), c := if IsFalse(m.Top()) then cf else ct, pc := 0))
    case JOIN =>
      if m.d.Empty? then Faulted(JoinUnderflow) else Running(m.(c := m.d.c, pc := m.d.pc, d := m.d.next))
    case POP => if m.s == [] then Faulted(StackUnderflow) else Running(m.(s := m.Below()))
    case DEF(x) =>
      if m.s == [] then Faulted(StackUnderflow)
      else
        var st := m.st.(globals := m.st.globals[x := m.Top()]);
        Running(m.(s := m.Below(), st := st).Push(Lit(Sym(x))))
    case DEFM(x) =>
      if m.s == [] then Faulted(StackUnderflow)
      else
        var v := if m.Top().Closure? then Macro(m.Top().id) else m.Top();
        var st := m.st.(macros := m.st.macros[x := m.Top()], globals := m.st.globals[x := v]);
        Running(m.(s := m.Below(), st := st).Push(Lit(Sym(x))))
    case LSET(i, j) =>
      if m.s == [] then Faulted(StackUnderflow)
      else if !FrameInRange(m, i, j) then Faulted(FrameOutOfRange)
      else
        var a := m.e[i];
        Running(m.(st := m.st.(frames := m.st.frames[a := m.st.frames[a][j := m.Top()]])))
    case GSET(x) =>
      if m.s == [] then Faulted(StackUnderflow)
      else Running(m.(st := m.st.(globals := m.st.globals[x := m.Top()])))
    case LDCT => Running(Capture(m).Push(Continuation(|m.st.conts|)))
    case CALLCC | TCALLCC =>
      if m.s == [] then Faulted(StackUnderflow)
      else
        var m' := Capture(m.(s := m.Below()));
        Apply(P, m', m.Top(), [Continuation(|m.st.conts|)], ins.TCALLCC?)
    case STOP => Halted(if m.s == [] then NIL else m.Top(), m.st)
  }

  /** `make_cont`: the current registers, as a new continuation in the store. */
  function Capture(m: State): State {
    m.(st := m.st.(conts := m.st.conts + [MachineCont(m.s, m.e, m.c, m.pc, m.d)]))
  }

  /** One instruction of a running machine; a stopped one stays as it is. */
  function Advance(P: Primitives): Outcome -> Outcome {
    (o: Outcome) => if o.Running? then Step(P, o.m) else o
  }

  /** At most n instructions. */
  function Run(P: Primitives, m: State, n: nat): Outcome {
    Iterate(Advance(P), Running(m), n)
  }

  /** How many sets of registers the dump holds. */
  function Depth(d: Dump): nat {
    if d.Empty? then 0 else 1 + Depth(d.next)
  }
}
