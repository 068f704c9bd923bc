/** The parallel marker as a transition system: helpers steal work from a shared stack and agree on when it is done. */
module ParallelMarker {
  import opened Wrappers

  // ---- States ----

  /** Where a helper is in its loop. */
  datatype Pc =
    | Out          // not taking part
    | Loading      // about to read first
    | Adjusting    // has read first into seen
    | Peeking      // about to read the stack top
    | Confirming   // found no entries; about to take the lock and look again
    | Waiting      // counted inactive, waiting to be notified
    | Stealing     // looking at stack slots from mine up to limit
    | Zeroing      // has read a nonzero slot into held
    | Marking      // marking from its local stack
    | Left         // has returned

  /** A helper's registers. `mine` is its own idea of the first nonempty slot. `scanning` is the object being scanned,
      and `at` the index of its next word. */
  datatype Helper = Helper(pc: Pc, mine: nat, seen: nat, limit: nat, held: nat, local: seq<nat>,
                           scanning: Option<nat>, at: nat)

  /** Shared memory. A slot whose descriptor is zero is None; a stack entry is an object to be scanned. */
  datatype State = State(slots: seq<Option<nat>>, first: nat, active: nat, helpers: nat, invalid: bool,
                         marked: set<nat>, team: seq<Helper>)

  /** The heap, the capacities of the shared and the local stacks, and the entries an overflow drops. */
  datatype Config = Config(objects: seq<seq<Option<nat>>>, capacity: nat, localCapacity: nat, discards: nat) {
    function Words(o: nat): seq<Option<nat>> {
      if o < |objects| then objects[o] else []
    }
  }

  /** What helper t does next; where the code leaves something open, the action fixes it. */
  datatype Action =
    | Enter(t: nat)
    | Load(t: nat)
    | Adjust(t: nat)
    | Peek(t: nat)
    | Confirm(t: nat)
    | Recheck(t: nat)
    | ReadSlot(t: nat)
    | EndSteal(t: nat)
    | Zero(t: nat)
    | Take(t: nat)
    | Scan(t: nat)
    | EndScan(t: nat)
    | Race(t: nat)
    | Share(t: nat, k: nat)
    | EndMark(t: nat)

  /** Counted in `active`. */
  predicate IsActive(h: Helper) {
    !h.pc.Out? && !h.pc.Waiting? && !h.pc.Left?
  }

  /** Counted in `helpers`. */
  predicate IsHelper(h: Helper) {
    !h.pc.Out? && !h.pc.Left?
  }

  // ---- Steps ----

  function Update(s: State, t: nat, h: Helper): State
    requires t < |s.team|
  {
    s.(team := s.team[t := h])
  }

  predicate Enabled(c: Config, s: State, a: Action) {
    a.t < |s.team| &&
    var h := s.team[a.t];
    match a
    case Enter(_) => h.pc.Out?
    case Load(_) => h.pc.Loading?
    case Adjust(_) => h.pc.Adjusting?
    case Peek(_) => h.pc.Peeking?
    case Confirm(_) => h.pc.Confirming?
    case Recheck(_) => h.pc.Waiting?
    case ReadSlot(_) => h.pc.Stealing? && h.mine < h.limit
    case EndSteal(_) => h.pc.Stealing?
    case Zero(_) => h.pc.Zeroing?
    case Take(_) => h.pc.Marking? && h.scanning.None? && h.local != []
    case Scan(_) => h.pc.Marking? && h.scanning.Some? && h.at < |c.Words(h.scanning.value)|
    case EndScan(_) => h.pc.Marking? && h.scanning.Some? && h.at >= |c.Words(h.scanning.value)|
    case Race(_) => h.pc.Marking? && h.scanning.Some? && h.at < |c.Words(h.scanning.value)|
                    && c.Words(h.scanning.value)[h.at].Some?
    case Share(_, k) => h.pc.Marking? && h.scanning.None? && 0 < k <= |h.local|
    case EndMark(_) => h.pc.Marking? && h.scanning.None? && h.local == []
  }

  /** A helper that may leave: nobody is active and the shared stack is used up. */
  predicate MayLeave(s: State) {
    s.active == 0 && s.first >= |s.slots|
  }

  function Do(c: Config, s: State, a: Action): State
    requires Enabled(c, s, a)
  {
    var h := s.team[a.t];
    match a
    case Enter(t) =>
      Update(s.(active := s.active + 1, helpers := s.helpers + 1), t, h.(pc := Loading, mine := s.first))
    case Load(t) => Update(s, t, h.(pc := Adjusting, seen := s.first))
    case Adjust(t) =>
      if h.mine < h.seen then Update(s, t, h.(pc := Peeking, mine := h.seen))
      else if h.seen < h.mine && s.first == h.seen then Update(s.(first := h.mine), t, h.(pc := Peeking))
      else Update(s, t, h.(pc := Peeking))
    case Peek(t) =>
      if |s.slots| <= h.mine then Update(s, t, h.(pc := Confirming))
      else Update(s, t, h.(pc := Stealing, limit := |s.slots|))
    case Confirm(t) =>
      if |s.slots| == h.mine then Update(s.(active := if s.active > 0 then s.active - 1 else 0), t, h.(pc := Waiting))
      else Update(s, t, h.(pc := Stealing, limit := |s.slots|))
    case Recheck(t) =>
      if s.active > 0 && s.first >= |s.slots| then s
      else if MayLeave(s) then Update(s.(helpers := if s.helpers > 0 then s.helpers - 1 else 0), t, h.(pc := Left))
      else Update(s.(active := s.active + 1), t, h.(pc := Loading))
    case ReadSlot(t) =>
      if h.mine < |s.slots| && s.slots[h.mine].Some? then Update(s, t, h.(pc := Zeroing, held := s.slots[h.mine].value))
      else Update(s, t, h.(mine := h.mine + 1))
    case EndSteal(t) => Update(s, t, h.(pc := Marking))
    case Zero(t) =>
      var slots := if h.mine < |s.slots| then s.slots[h.mine := None] else s.slots;
      Update(s.(slots := slots), t, h.(pc := Stealing, mine := h.mine + 1, local := h.local + [h.held]))
    case Take(t) =>
      var top := h.local[|h.local| - 1];
      Update(s, t, h.(local := h.local[..|h.local| - 1], scanning := Some(top), at := 0))
    case Scan(t) =>
      var w := c.Words(h.scanning.value)[h.at];
      if w.None? || w.value in s.marked then Update(s, t, h.(at := h.at + 1)) else MarkChild(c, s, t, w.value)
    case EndScan(t) => Update(s, t, h.(scanning := None))
    case Race(t) => MarkChild(c, s, t, c.Words(h.scanning.value)[h.at].value)
    case Share(t, k) =>
      var rest := Update(s, t, h.(local := h.local[k..]));
      if |s.slots| + k > c.capacity then rest.(invalid := true)
      else rest.(slots := s.slots + seq(k, i requires 0 <= i < k => Some(h.local[i])))
    case EndMark(t) => Update(s, t, h.(pc := Loading))
  }

  /** Marks object o, and pushes it on the local stack, which if full loses its top entries. Two helpers may do this
      for the same object when both read its mark before either sets it. */
  function MarkChild(c: Config, s: State, t: nat, o: nat): State
    requires t < |s.team|
  {
    var h := s.team[t];
    var full := |h.local| >= c.localCapacity;
    var kept := if full then h.local[..(if c.discards <= |h.local| then |h.local| - c.discards else 0)] else h.local;
    Update(s.(marked := s.marked + {o}, invalid := s.invalid || full), t, h.(local := kept + [o], at := h.at + 1))
  }

  ghost predicate Next(c: Config, s: State, s': State) {
    exists a :: Enabled(c, s, a) && s' == Do(c, s, a)
  }

  // ---- The invariant ----

  function Count(team: seq<Helper>, p: Helper -> bool): nat {
    if team == [] then 0 else (if p(team[0]) then 1 else 0) + Count(team[1..], p)
  }

  lemma {:induction false} CountUpdate(team: seq<Helper>, p: Helper -> bool, t: nat, h: Helper)
    requires t < |team|
    ensures Count(team[t := h], p) == Count(team, p) + (if p(h) then 1 else 0) - (if p(team[t]) then 1 else 0)
  {
    if t == 0 {
      assert team[0 := h][1..] == team[1..];
    } else {
      CountUpdate(team[1..], p, t - 1, h);
      assert team[t := h][1..] == team[1..][t - 1 := h];
    }
  }

  lemma {:induction false} CountZero(team: seq<Helper>, p: Helper -> bool, t: nat)
    requires t < |team| && Count(team, p) == 0
    ensures !p(team[t])
  {
    if t > 0 {
      CountZero(team[1..], p, t - 1);
    }
  }

  /** Slots below i have been taken. */
  predicate TakenBelow(slots: seq<Option<nat>>, i: nat) {
    i <= |slots| && forall p :: 0 <= p < i ==> slots[p].None?
  }

  /** A helper's registers make sense: everything below its own first slot is taken, and only an active one has work. */
  predicate HelperOk(s: State, h: Helper) {
    && (IsHelper(h) ==> TakenBelow(s.slots, h.mine))
    && (h.pc.Adjusting? ==> h.seen <= s.first)
    && (h.pc.Stealing? ==> h.limit <= |s.slots|)
    && (h.pc.Zeroing? ==> h.mine < h.limit <= |s.slots| && (s.slots[h.mine].None? || s.slots[h.mine] == Some(h.held)))
    && (h.local != [] ==> h.pc.Stealing? || h.pc.Zeroing? || h.pc.Marking?)
    && (h.scanning.Some? ==> h.pc.Marking?)
  }

  /** Object o is on the shared stack, on a local stack, or being scanned with word j still to come. */
  predicate Pending(s: State, o: nat, j: nat) {
    || Some(o) in s.slots
    || exists t :: 0 <= t < |s.team| && HasWork(s.team[t], o, j)
  }

  predicate HasWork(h: Helper, o: nat, j: nat) {
    o in h.local || (h.scanning == Some(o) && h.at <= j)
  }

  /** Every word of a marked object points to a marked object or is still to be scanned. */
  ghost predicate Covered(c: Config, s: State) {
    forall o, j :: o in s.marked && 0 <= j < |c.Words(o)| && c.Words(o)[j].Some? ==>
      c.Words(o)[j].value in s.marked || Pending(s, o, j)
  }

  /** Nothing is left to do anywhere. */
  predicate Quiet(s: State) {
    && s.first >= |s.slots|
    && (forall p :: 0 <= p < |s.slots| ==> s.slots[p].None?)
    && (forall t :: 0 <= t < |s.team| ==> s.team[t].local == [] && s.team[t].scanning.None? && !s.team[t].pc.Zeroing?)
  }

  ghost predicate ClosedUnderPointers(c: Config, marked: set<nat>) {
    forall o, j :: o in marked && 0 <= j < |c.Words(o)| && c.Words(o)[j].Some? ==> c.Words(o)[j].value in marked
  }

  ghost predicate Inv(c: Config, s: State) {
    && s.active == Count(s.team, h => IsActive(h))
    && s.helpers == Count(s.team, h => IsHelper(h))
    && TakenBelow(s.slots, s.first)
    && (forall t :: 0 <= t < |s.team| ==> HelperOk(s, s.team[t]))
    && (s.invalid || Covered(c, s))
    && ((exists t :: 0 <= t < |s.team| && s.team[t].pc.Left?) ==> Quiet(s))
  }

  /** Marking as it starts: the stack covers what is marked, and no helper has entered. */
  ghost predicate Init(c: Config, s: State) {
    && s.first == 0 && s.active == 0 && s.helpers == 0
    && (forall t :: 0 <= t < |s.team| ==> s.team[t].pc.Out? && s.team[t].local == [] && s.team[t].scanning.None?)
    && (s.invalid || forall o, j :: o in s.marked && 0 <= j < |c.Words(o)| && c.Words(o)[j].Some? ==>
          c.Words(o)[j].value in s.marked || Some(o) in s.slots)
  }

  /** A run: a sequence of states, each following from the one before. */
  ghost predicate Run(c: Config, ss: seq<State>) {
    && ss != [] && Init(c, ss[0])
    && forall i :: 0 <= i < |ss| - 1 ==> Next(c, ss[i], ss[i + 1])
  }

  lemma {:induction false} CountNone(team: seq<Helper>, p: Helper -> bool)
    requires forall t :: 0 <= t < |team| ==> !p(team[t])
    ensures Count(team, p) == 0
  {
    if team != [] {
      CountNone(team[1..], p);
    }
  }

  lemma InitInv(c: Config, s: State)
    requires Init(c, s)
    ensures Inv(c, s)
  {
    CountNone(s.team, h => IsActive(h));
    CountNone(s.team, h => IsHelper(h));
  }

  /** Nobody is active and the stack is used up: there is no work anywhere. */
  lemma LeavingIsSafe(c: Config, s: State)
    requires Inv(c, s) && MayLeave(s)
    ensures Quiet(s)
  {
    forall t | 0 <= t < |s.team|
      ensures s.team[t].local == [] && s.team[t].scanning.None? && !s.team[t].pc.Zeroing?
    {
      CountZero(s.team, h => IsActive(h), t);
      assert HelperOk(s, s.team[t]);
    }
  }

  lemma QuietIsClosed(c: Config, s: State)
    requires Inv(c, s) && Quiet(s) && !s.invalid
    ensures ClosedUnderPointers(c, s.marked)
  {
    forall o, j | o in s.marked && 0 <= j < |c.Words(o)| && c.Words(o)[j].Some?
      ensures c.Words(o)[j].value in s.marked
    {
      assert !Pending(s, o, j);
    }
  }

  // ---- Preservation ----

  function One(b: bool): nat {
    if b then 1 else 0
  }

  /** A step moves the counters as it moves the helper that takes it. */
  lemma CountersFollow(c: Config, s: State, a: Action)
    requires Enabled(c, s, a)
    requires IsActive(s.team[a.t]) ==> s.active > 0
    requires IsHelper(s.team[a.t]) ==> s.helpers > 0
    ensures |Do(c, s, a).team| == |s.team| && Do(c, s, a).team == s.team[a.t := Do(c, s, a).team[a.t]]
    ensures Do(c, s, a).active == s.active + One(IsActive(Do(c, s, a).team[a.t])) - One(IsActive(s.team[a.t]))
    ensures Do(c, s, a).helpers == s.helpers + One(IsHelper(Do(c, s, a).team[a.t])) - One(IsHelper(s.team[a.t]))
  {
  }

  lemma CountsKept(c: Config, s: State, a: Action)
    requires Inv(c, s) && Enabled(c, s, a)
    ensures Do(c, s, a).active == Count(Do(c, s, a).team, h => IsActive(h))
    ensures Do(c, s, a).helpers == Count(Do(c, s, a).team, h => IsHelper(h))
  {
    var active, helper := h => IsActive(h), h => IsHelper(h);
    if Count(s.team, active) == 0 { CountZero(s.team, active, a.t); }
    if Count(s.team, helper) == 0 { CountZero(s.team, helper, a.t); }
    CountersFollow(c, s, a);
    var h' := Do(c, s, a).team[a.t];
    CountUpdate(s.team, active, a.t, h');
    CountUpdate(s.team, helper, a.t, h');
  }

  /** Slots are only emptied or added, and the taken part only grows. */
  lemma TakenKept(c: Config, s: State, a: Action)
    requires Inv(c, s) && Enabled(c, s, a)
    ensures |s.slots| <= |Do(c, s, a).slots| && s.first <= Do(c, s, a).first
    ensures forall i :: TakenBelow(s.slots, i) ==> TakenBelow(Do(c, s, a).slots, i)
    ensures TakenBelow(Do(c, s, a).slots, Do(c, s, a).first)
  {
    assert HelperOk(s, s.team[a.t]);
  }

  /** A slot is only ever emptied. */
  lemma SlotsKept(c: Config, s: State, a: Action)
    requires Enabled(c, s, a)
    ensures forall p :: 0 <= p < |s.slots| && p < |Do(c, s, a).slots| ==>
              Do(c, s, a).slots[p].None? || Do(c, s, a).slots[p] == s.slots[p]
  {
  }

  /** A step is one helper's. */
  lemma OthersSame(c: Config, s: State, a: Action, t: nat)
    requires Enabled(c, s, a) && t < |s.team| && t != a.t
    ensures |Do(c, s, a).team| == |s.team| && Do(c, s, a).team[t] == s.team[t]
  {
  }

  lemma OthersKept(c: Config, s: State, a: Action, t: nat)
    requires Inv(c, s) && Enabled(c, s, a) && t < |s.team| && t != a.t
    ensures HelperOk(Do(c, s, a), Do(c, s, a).team[t])
  {
    TakenKept(c, s, a);
    SlotsKept(c, s, a);
    OthersSame(c, s, a, t);
    assert HelperOk(s, s.team[t]);
  }

  /** The helper that moves, when it is not taking a slot. */
  lemma MoverKept(c: Config, s: State, a: Action)
    requires Inv(c, s) && Enabled(c, s, a) && !a.Zero? && !a.ReadSlot?
    ensures HelperOk(Do(c, s, a), Do(c, s, a).team[a.t])
  {
    TakenKept(c, s, a);
    assert HelperOk(s, s.team[a.t]);
  }

  lemma TakerKept(c: Config, s: State, a: Action)
    requires Inv(c, s) && Enabled(c, s, a) && (a.Zero? || a.ReadSlot?)
    ensures HelperOk(Do(c, s, a), Do(c, s, a).team[a.t])
  {
    TakenKept(c, s, a);
    assert HelperOk(s, s.team[a.t]);
    var h, s' := s.team[a.t], Do(c, s, a);
    assert TakenBelow(s'.slots, h.mine);
    if a.Zero? {
      assert s'.slots[h.mine].None?;
    }
  }

  lemma HelpersKept(c: Config, s: State, a: Action)
    requires Inv(c, s) && Enabled(c, s, a)
    ensures forall t :: 0 <= t < |Do(c, s, a).team| ==> HelperOk(Do(c, s, a), Do(c, s, a).team[t])
  {
    forall t | 0 <= t < |Do(c, s, a).team| ensures HelperOk(Do(c, s, a), Do(c, s, a).team[t]) {
      if t != a.t {
        OthersKept(c, s, a, t);
      } else if a.Zero? || a.ReadSlot? {
        TakerKept(c, s, a);
      } else {
        MoverKept(c, s, a);
      }
    }
  }

  /** The word that an action scans. */
  predicate Scans(s: State, a: Action, o: nat, j: nat) {
    (a.Scan? || a.Race?) && a.t < |s.team| && s.team[a.t].scanning == Some(o) && s.team[a.t].at == j
  }

  lemma SlotPendingKept(c: Config, s: State, a: Action, o: nat, j: nat)
    requires Inv(c, s) && Enabled(c, s, a) && Some(o) in s.slots
    ensures Pending(Do(c, s, a), o, j)
  {
    var s', h := Do(c, s, a), s.team[a.t];
    var p :| 0 <= p < |s.slots| && s.slots[p] == Some(o);
    assert HelperOk(s, h);
    if a.Zero? && p == h.mine {
      assert HasWork(s'.team[a.t], o, j);
    } else {
      assert s'.slots[p] == Some(o);
    }
  }

  /** The work a helper has in hand stays in hand or is shared, unless it is the word it scans. */
  lemma OwnWorkKept(c: Config, s: State, a: Action, o: nat, j: nat)
    requires Inv(c, s) && Enabled(c, s, a) && HasWork(s.team[a.t], o, j) && j < |c.Words(o)|
    ensures Do(c, s, a).invalid || Pending(Do(c, s, a), o, j) || Scans(s, a, o, j)
  {
    var s', h := Do(c, s, a), s.team[a.t];
    var h' := s'.team[a.t];
    assert HelperOk(s, h);
    if a.Take? {
      TopOrBelow(h.local, o);
      assert HasWork(h', o, j);
    } else if a.Share? {
      ShareKept(c, s, a.t, a.k, o, j);
    } else if a.Scan? || a.Race? {
      if !s'.invalid && !Scans(s, a, o, j) {
        assert HasWork(h', o, j);
      }
    } else {
      assert HasWork(h', o, j);
    }
  }

  lemma TopOrBelow(local: seq<nat>, o: nat)
    requires local != []
    ensures o in local ==> o in local[..|local| - 1] || o == local[|local| - 1]
  {
    assert local == local[..|local| - 1] + [local[|local| - 1]];
  }

  lemma ShareKept(c: Config, s: State, t: nat, k: nat, o: nat, j: nat)
    requires Enabled(c, s, Share(t, k)) && o in s.team[t].local
    ensures Do(c, s, Share(t, k)).invalid || Pending(Do(c, s, Share(t, k)), o, j)
  {
    var s', local := Do(c, s, Share(t, k)), s.team[t].local;
    var i :| 0 <= i < |local| && local[i] == o;
    if i >= k {
      assert s'.team[t].local[i - k] == o;
      assert HasWork(s'.team[t], o, j);
    } else if |s.slots| + k <= c.capacity {
      assert s'.slots[|s.slots| + i] == Some(o);
    }
  }

  /** Work that was pending still is, unless it is the word just scanned. */
  lemma PendingKept(c: Config, s: State, a: Action, o: nat, j: nat)
    requires Inv(c, s) && Enabled(c, s, a) && Pending(s, o, j) && j < |c.Words(o)|
    ensures Do(c, s, a).invalid || Pending(Do(c, s, a), o, j) || Scans(s, a, o, j)
  {
    if Some(o) in s.slots {
      SlotPendingKept(c, s, a, o, j);
    } else {
      var t :| 0 <= t < |s.team| && HasWork(s.team[t], o, j);
      if t == a.t {
        OwnWorkKept(c, s, a, o, j);
      } else {
        OthersSame(c, s, a, t);
      }
    }
  }

  /** Marks are only set, and whatever is newly marked is on the local stack of the helper that marked it. */
  lemma MarksKept(c: Config, s: State, a: Action)
    requires Enabled(c, s, a)
    ensures s.marked <= Do(c, s, a).marked && (s.invalid ==> Do(c, s, a).invalid)
    ensures forall o :: o in Do(c, s, a).marked && o !in s.marked ==> o in Do(c, s, a).team[a.t].local
    ensures forall o: nat, j: nat :: Scans(s, a, o, j) && j < |c.Words(o)| && c.Words(o)[j].Some? ==>
      c.Words(o)[j].value in Do(c, s, a).marked
  {
  }

  lemma CoverageKept(c: Config, s: State, a: Action)
    requires Inv(c, s) && Enabled(c, s, a)
    ensures Do(c, s, a).invalid || Covered(c, Do(c, s, a))
  {
    var s' := Do(c, s, a);
    MarksKept(c, s, a);
    if !s'.invalid {
      forall o, j | o in s'.marked && 0 <= j < |c.Words(o)| && c.Words(o)[j].Some?
        ensures c.Words(o)[j].value in s'.marked || Pending(s', o, j)
      {
        if o !in s.marked {
          assert HasWork(s'.team[a.t], o, j);
        } else if c.Words(o)[j].value !in s.marked {
          PendingKept(c, s, a, o, j);
        }
      }
    }
  }

  /** Only a helper that found nobody active and the stack used up leaves. */
  lemma LeavesByRecheck(c: Config, s: State, a: Action)
    requires Enabled(c, s, a) && Do(c, s, a).team[a.t].pc.Left? && !s.team[a.t].pc.Left?
    ensures a.Recheck? && MayLeave(s)
  {
  }

  /** Once somebody has left, there is no work, and there never will be. */
  lemma QuietKept(c: Config, s: State, a: Action, t: nat)
    requires Inv(c, s) && Enabled(c, s, a) && t < |Do(c, s, a).team| && Do(c, s, a).team[t].pc.Left?
    ensures Quiet(Do(c, s, a))
  {
    if !s.team[t].pc.Left? {
      assert t == a.t;
      LeavesByRecheck(c, s, a);
      LeavingIsSafe(c, s);
    }
    QuietStays(c, s, a);
  }

  lemma QuietStays(c: Config, s: State, a: Action)
    requires Inv(c, s) && Enabled(c, s, a) && Quiet(s)
    ensures Quiet(Do(c, s, a))
  {
    assert HelperOk(s, s.team[a.t]);
  }

  lemma NextInv(c: Config, s: State, s': State)
    requires Inv(c, s) && Next(c, s, s')
    ensures Inv(c, s')
  {
    var a :| Enabled(c, s, a) && s' == Do(c, s, a);
    CountsKept(c, s, a);
    TakenKept(c, s, a);
    HelpersKept(c, s, a);
    CoverageKept(c, s, a);
    if exists t :: 0 <= t < |s'.team| && s'.team[t].pc.Left? {
      var t :| 0 <= t < |s'.team| && s'.team[t].pc.Left?;
      QuietKept(c, s, a, t);
    }
  }

  // ---- Whole runs ----

  lemma {:induction false} RunInv(c: Config, ss: seq<State>, i: nat)
    requires Run(c, ss) && i < |ss|
    ensures Inv(c, ss[i])
  {
    if i == 0 {
      InitInv(c, ss[0]);
    } else {
      RunInv(c, ss, i - 1);
      NextInv(c, ss[i - 1], ss[i]);
    }
  }

  /** Termination detection is safe. In every run, from the moment a helper returns there is nothing on the shared
      stack and nobody holds work; and if no entry was dropped, every object a marked object points to is marked. */
  lemma TerminationIsSafe(c: Config, ss: seq<State>, i: nat, t: nat)
    requires Run(c, ss) && i < |ss| && t < |ss[i].team| && ss[i].team[t].pc.Left?
    ensures Quiet(ss[i])
    ensures !ss[i].invalid ==> ClosedUnderPointers(c, ss[i].marked)
  {
    RunInv(c, ss, i);
    if !ss[i].invalid {
      QuietIsClosed(c, ss[i]);
    }
  }

  /** At every moment of every run, work is lost only by an overflow, which leaves the marking invalid. */
  lemma NoWorkIsLost(c: Config, ss: seq<State>, i: nat)
    requires Run(c, ss) && i < |ss| && !ss[i].invalid
    ensures Covered(c, ss[i])
  {
    RunInv(c, ss, i);
  }

  /** The counters are exact: `active` is the number of helpers that may hold or find work, at most `helpers`. */
  lemma CountersAreExact(c: Config, ss: seq<State>, i: nat)
    requires Run(c, ss) && i < |ss|
    ensures ss[i].active == Count(ss[i].team, h => IsActive(h)) <= Count(ss[i].team, h => IsHelper(h)) == ss[i].helpers
  {
    RunInv(c, ss, i);
    CountLe(ss[i].team);
  }

  lemma {:induction false} CountLe(team: seq<Helper>)
    ensures Count(team, h => IsActive(h)) <= Count(team, h => IsHelper(h))
  {
    if team != [] {
      CountLe(team[1..]);
    }
  }

  // ---- Nothing else is marked ----

  /** Whatever a helper holds, or is about to mark, is in r. */
  predicate HoldsWithin(h: Helper, r: set<nat>) {
    && (forall o :: o in h.local ==> o in r)
    && (h.scanning.Some? ==> h.scanning.value in r)
    && (h.pc.Zeroing? ==> h.held in r)
  }

  /** Nothing outside r is marked, or is work for anyone. */
  ghost predicate Within(s: State, r: set<nat>) {
    && s.marked <= r
    && (forall o :: Some(o) in s.slots ==> o in r)
    && (forall t :: 0 <= t < |s.team| ==> HoldsWithin(s.team[t], r))
  }

  lemma MarkChildWithin(c: Config, s: State, t: nat, o: nat, r: set<nat>)
    requires t < |s.team| && Within(s, r) && o in r
    ensures Within(MarkChild(c, s, t, o), r)
  {
    assert HoldsWithin(s.team[t], r);
    forall u | 0 <= u < |s.team| ensures HoldsWithin(MarkChild(c, s, t, o).team[u], r) {
      assert HoldsWithin(s.team[u], r);
    }
  }

  lemma ScanWithin(c: Config, s: State, a: Action, r: set<nat>)
    requires Enabled(c, s, a) && (a.Scan? || a.Race?) && Within(s, r) && ClosedUnderPointers(c, r)
    ensures Within(Do(c, s, a), r)
  {
    var h := s.team[a.t];
    assert HoldsWithin(h, r);
    var w := c.Words(h.scanning.value)[h.at];
    if w.Some? {
      MarkChildWithin(c, s, a.t, w.value, r);
    }
    forall u | 0 <= u < |s.team| && u != a.t ensures HoldsWithin(Do(c, s, a).team[u], r) {
      OthersSame(c, s, a, u);
    }
  }

  /** The stack after a step has no entries but those of before, and those the helper shares. */
  lemma SlotsWithin(c: Config, s: State, a: Action, r: set<nat>)
    requires Enabled(c, s, a) && Within(s, r)
    ensures forall o :: Some(o) in Do(c, s, a).slots ==> o in r
  {
    assert HoldsWithin(s.team[a.t], r);
    var s' := Do(c, s, a);
    forall p | 0 <= p < |s'.slots| && s'.slots[p].Some? ensures s'.slots[p].value in r {
      if p < |s.slots| {
        SlotsKept(c, s, a);
        assert s.slots[p] == s'.slots[p] && Some(s.slots[p].value) in s.slots;
      }
    }
  }

  lemma NextWithin(c: Config, s: State, a: Action, r: set<nat>)
    requires Enabled(c, s, a) && Within(s, r) && ClosedUnderPointers(c, r)
    ensures Within(Do(c, s, a), r)
  {
    if a.Scan? || a.Race? {
      ScanWithin(c, s, a, r);
    } else {
      var s' := Do(c, s, a);
      SlotsWithin(c, s, a, r);
      MoverWithin(c, s, a, r);
      forall u | 0 <= u < |s'.team| ensures HoldsWithin(s'.team[u], r) {
        if u != a.t {
          OthersSame(c, s, a, u);
        }
      }
    }
  }

  lemma MoverWithin(c: Config, s: State, a: Action, r: set<nat>)
    requires Enabled(c, s, a) && Within(s, r) && !a.Scan? && !a.Race?
    ensures HoldsWithin(Do(c, s, a).team[a.t], r) && Do(c, s, a).marked == s.marked
  {
    var h := s.team[a.t];
    assert HoldsWithin(h, r);
    if a.ReadSlot? && h.mine < |s.slots| && s.slots[h.mine].Some? {
      assert Some(s.slots[h.mine].value) in s.slots;
    }
  }

  /** Nothing unreachable is marked: in every run, however many helpers race and whatever overflows, the marks stay
      inside every set that has what was marked and on the stack at first, and is closed under pointers. */
  lemma {:induction false} MarksAreReachable(c: Config, ss: seq<State>, i: nat, r: set<nat>)
    requires Run(c, ss) && i < |ss| && ClosedUnderPointers(c, r)
    requires ss[0].marked <= r && forall o :: Some(o) in ss[0].slots ==> o in r
    ensures Within(ss[i], r)
  {
    if i > 0 {
      MarksAreReachable(c, ss, i - 1, r);
      assert Next(c, ss[i - 1], ss[i]);
      var a :| Enabled(c, ss[i - 1], a) && ss[i] == Do(c, ss[i - 1], a);
      NextWithin(c, ss[i - 1], a, r);
    }
  }

  lemma {:induction false} MarksGrow(c: Config, ss: seq<State>, i: nat)
    requires Run(c, ss) && i < |ss|
    ensures ss[0].marked <= ss[i].marked
  {
    if i > 0 {
      MarksGrow(c, ss, i - 1);
      assert Next(c, ss[i - 1], ss[i]);
      var a :| Enabled(c, ss[i - 1], a) && ss[i] == Do(c, ss[i - 1], a);
      MarksKept(c, ss[i - 1], a);
    }
  }

  /** Parallel marking is exact: when a helper has returned and nothing was dropped, what is marked is the least set
      closed under pointers that has what was marked at first, entries on the stack being marked objects. */
  lemma MarkingIsExact(c: Config, ss: seq<State>, i: nat, t: nat, r: set<nat>)
    requires Run(c, ss) && i < |ss| && t < |ss[i].team| && ss[i].team[t].pc.Left? && !ss[i].invalid
    requires forall o :: Some(o) in ss[0].slots ==> o in ss[0].marked
    ensures ss[0].marked <= ss[i].marked && ClosedUnderPointers(c, ss[i].marked)
    ensures ss[0].marked <= r && ClosedUnderPointers(c, r) ==> ss[i].marked <= r
  {
    TerminationIsSafe(c, ss, i, t);
    MarksGrow(c, ss, i);
    if ss[0].marked <= r && ClosedUnderPointers(c, r) {
      MarksAreReachable(c, ss, i, r);
    }
  }

  // ---- Progress ----

  /** The action's entries do not fit: on the shared stack, or on the local one. */
  predicate Overflows(c: Config, s: State, a: Action)
    requires Enabled(c, s, a)
  {
    var h := s.team[a.t];
    || (a.Share? && |s.slots| + a.k > c.capacity)
    || (a.Race? && |h.local| >= c.localCapacity)
    || (a.Scan? && |h.local| >= c.localCapacity
        && c.Words(h.scanning.value)[h.at].Some? && c.Words(h.scanning.value)[h.at].value !in s.marked)
  }

  /** Only an overflow makes the marking invalid. */
  lemma OverflowInvalidates(c: Config, s: State, a: Action)
    requires Enabled(c, s, a)
    ensures Do(c, s, a).invalid <==> s.invalid || Overflows(c, s, a)
  {
  }

  /** What a helper that is not waiting does next. */
  function Busy(c: Config, s: State, t: nat): Action
    requires t < |s.team| && IsActive(s.team[t])
  {
    var h := s.team[t];
    match h.pc
    case Loading => Load(t)
    case Adjusting => Adjust(t)
    case Peeking => Peek(t)
    case Confirming => Confirm(t)
    case Stealing => EndSteal(t)
    case Zeroing => Zero(t)
    case _ =>
      if h.scanning.Some? then if h.at < |c.Words(h.scanning.value)| then Scan(t) else EndScan(t)
      else if h.local != [] then Take(t)
      else EndMark(t)
  }

  lemma BusyMoves(c: Config, s: State, t: nat)
    requires t < |s.team| && IsActive(s.team[t])
    ensures Enabled(c, s, Busy(c, s, t)) && Do(c, s, Busy(c, s, t)).team[t] != s.team[t]
  {
  }

  /** Helpers never wait for each other for ever: in every state of every run, if a helper has entered and not left,
      some helper can take a step that changes its own registers; and when all others wait or are gone, a waiting helper
      leaves if the stack is used up, and otherwise goes back to work. */
  lemma NeverDeadlocked(c: Config, ss: seq<State>, i: nat, t: nat)
    requires Run(c, ss) && i < |ss| && t < |ss[i].team| && IsHelper(ss[i].team[t])
    ensures exists a :: Enabled(c, ss[i], a) && Do(c, ss[i], a).team[a.t] != ss[i].team[a.t]
    ensures ss[i].team[t].pc.Waiting? && ss[i].active == 0 ==>
              var pc := Do(c, ss[i], Recheck(t)).team[t].pc;
              if ss[i].first >= |ss[i].slots| then pc.Left? else pc.Loading?
  {
    var s := ss[i];
    RunInv(c, ss, i);
    if s.active == 0 {
      CountZero(s.team, h => IsActive(h), t);
      assert Enabled(c, s, Recheck(t)) && Do(c, s, Recheck(t)).team[t] != s.team[t];
    } else {
      var u := SomeActive(s.team);
      BusyMoves(c, s, u);
    }
  }

  lemma {:induction false} SomeActive(team: seq<Helper>) returns (u: nat)
    requires Count(team, h => IsActive(h)) > 0
    ensures u < |team| && IsActive(team[u])
  {
    if IsActive(team[0]) {
      u := 0;
    } else {
      u := SomeActive(team[1..]);
      u := u + 1;
    }
  }
}
