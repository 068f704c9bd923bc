/** Walks over values that may be circular: is it a list, how long is it, are two values equal? */
module Walks {

  /** A value by what it is made of; other values are referred to by number. */
  datatype Node =
    | NilNode
    | Boolean(b: bool)
    | Number(n: int)
    | Text(s: string)
    | Name(name: string)
    | Cons(car: nat, cdr: nat)
    | Vector(elems: seq<nat>)
    | Opaque                     // procedures, ports, and so on

  type Heap = seq<Node>

  predicate WellFormed(h: Heap) {
    && (forall x :: 0 <= x < |h| && h[x].Cons? ==> h[x].car < |h| && h[x].cdr < |h|)
    && (forall x, i :: 0 <= x < |h| && h[x].Vector? && 0 <= i < |h[x].elems| ==> h[x].elems[i] < |h|)
  }

  // ---- Lists ----

  /** The kth cdr of v, or the first that is not a pair. */
  function Cdrs(h: Heap, v: nat, k: nat): (r: nat)
    requires WellFormed(h) && v < |h|
    ensures r < |h|
  {
    if k == 0 then v
    else
      var x := Cdrs(h, v, k - 1);
      if h[x].Cons? then h[x].cdr else x
  }

  /** Following k cdrs from v meets only pairs. */
  predicate Pairs(h: Heap, v: nat, k: nat)
    requires WellFormed(h) && v < |h|
  {
    forall i :: 0 <= i < k ==> h[Cdrs(h, v, i)].Cons?
  }

  /** v is a proper list of k elements. */
  predicate ListOf(h: Heap, v: nat, k: nat)
    requires WellFormed(h) && v < |h|
  {
    Pairs(h, v, k) && h[Cdrs(h, v, k)].NilNode?
  }

  ghost predicate Proper(h: Heap, v: nat)
    requires WellFormed(h) && v < |h|
  {
    exists k: nat :: ListOf(h, v, k)
  }

  /** From two equal places on, cdrs are equal. */
  lemma {:induction false} Periodic(h: Heap, v: nat, i: nat, j: nat, m: nat)
    requires WellFormed(h) && v < |h| && Cdrs(h, v, i) == Cdrs(h, v, j)
    ensures Cdrs(h, v, i + m) == Cdrs(h, v, j + m)
  {
    if m > 0 {
      Periodic(h, v, i, j, m - 1);
    }
  }

  lemma {:induction false} PeriodicTimes(h: Heap, v: nat, i: nat, len: nat, times: nat)
    requires WellFormed(h) && v < |h| && Cdrs(h, v, i) == Cdrs(h, v, i + len)
    ensures Cdrs(h, v, i) == Cdrs(h, v, i + times * len)
  {
    if times > 0 {
      PeriodicTimes(h, v, i, len, times - 1);
      Periodic(h, v, i, i + len, (times - 1) * len);
      assert i + len + (times - 1) * len == i + times * len;
    }
  }

  /** Among more than n numbers below n, two are equal. */
  lemma {:induction false} Pigeonhole(s: seq<nat>, n: nat) returns (i: nat, j: nat)
    requires |s| > n && forall k :: 0 <= k < |s| ==> s[k] < n
    ensures i < j < |s| && s[i] == s[j]
    decreases n
  {
    if p, q :| 0 <= p < q < |s| && s[p] == s[q] {
      i, j := p, q;
    } else {
      var last := |s| - 1;
      var t := seq(last, k requires 0 <= k < last => if s[k] == n - 1 then s[last] else s[k]);
      forall k | 0 <= k < last ensures t[k] < n - 1 {
        assert s[k] != s[last];
      }
      i, j := Pigeonhole(t, n - 1);
      assert false;
    }
  }

  /** Where the hare would have met the tortoise, if only pairs are met as far as there are values. */
  lemma Meeting(h: Heap, v: nat) returns (k: nat)
    requires WellFormed(h) && v < |h|
    ensures 0 < k <= |h| && Cdrs(h, v, k) == Cdrs(h, v, 2 * k)
  {
    var s := seq(|h| + 1, i requires 0 <= i < |h| + 1 => Cdrs(h, v, i));
    var i, j := Pigeonhole(s, |h|);
    var len := j - i;
    // a positive multiple of the cycle's length that is on the cycle
    var times := MultipleFrom(if i == 0 then 1 else i, len);
    k := times * len;
    Periodic(h, v, i, j, k - i);
    PeriodicTimes(h, v, k, len, times);
  }

  /** A multiple of len among i and the len - 1 numbers after it. */
  lemma {:induction false} MultipleFrom(i: nat, len: nat) returns (times: nat)
    requires len > 0
    ensures i <= times * len < i + len
  {
    if i == 0 {
      times := 0;
    } else {
      times := MultipleFrom(i - 1, len);
      if times * len < i {
        times := times + 1;
      }
    }
  }

  /** A cycle of cdrs is never left. */
  lemma NotProper(h: Heap, v: nat, k: nat)
    requires WellFormed(h) && v < |h| && k > 0 && Pairs(h, v, 2 * k) && Cdrs(h, v, k) == Cdrs(h, v, 2 * k)
    ensures !Proper(h, v)
  {
    forall n: nat ensures h[Cdrs(h, v, n)].Cons? {
      OnCycle(h, v, k, n);
    }
  }

  lemma {:induction false} OnCycle(h: Heap, v: nat, k: nat, n: nat)
    requires WellFormed(h) && v < |h| && k > 0 && Pairs(h, v, 2 * k) && Cdrs(h, v, k) == Cdrs(h, v, 2 * k)
    ensures h[Cdrs(h, v, n)].Cons?
    decreases n
  {
    if n >= 2 * k {
      Periodic(h, v, k, 2 * k, n - 2 * k);
      OnCycle(h, v, k, n - k);
    }
  }

  lemma PairBefore(h: Heap, v: nat, n: nat, k: nat)
    requires WellFormed(h) && v < |h| && Pairs(h, v, n)
    ensures k < n ==> h[Cdrs(h, v, k)].Cons?
  {
  }

  /** Once a cdr is not a pair, the value is a proper list if and only if that is NIL. */
  lemma EndDecides(h: Heap, v: nat, k: nat)
    requires WellFormed(h) && v < |h| && Pairs(h, v, k) && !h[Cdrs(h, v, k)].Cons?
    ensures Proper(h, v) <==> h[Cdrs(h, v, k)].NilNode?
  {
    if n: nat :| ListOf(h, v, n) {
      PairBefore(h, v, n, k);
    }
    if h[Cdrs(h, v, k)].NilNode? {
      assert ListOf(h, v, k);
    }
  }

  /** `is_proper_list`: the hare takes two cdrs for each of the tortoise. */
  method IsProperList(h: Heap, v: nat) returns (proper: bool)
    requires WellFormed(h) && v < |h|
    ensures proper <==> Proper(h, v)
  {
    if h[v].NilNode? || !h[v].Cons? {
      EndDecides(h, v, 0);
      return h[v].NilNode?;
    }
    ghost var meeting := Meeting(h, v);
    var slow, fast := v, v;
    ghost var k := 0;
    while true
      invariant k < meeting && slow == Cdrs(h, v, k) && fast == Cdrs(h, v, 2 * k) && Pairs(h, v, 2 * k)
      decreases meeting - k
    {
      if !h[fast].Cons? {
        EndDecides(h, v, 2 * k);
        return h[fast].NilNode?;
      }
      fast := h[fast].cdr;
      if !h[fast].Cons? {
        EndDecides(h, v, 2 * k + 1);
        return h[fast].NilNode?;
      }
      fast := h[fast].cdr;
      slow := h[slow].cdr;
      k := k + 1;
      assert Cdrs(h, v, 2 * k - 1) == Cdrs(h, v, 2 * (k - 1) + 1);
      if slow == fast {
        NotProper(h, v, k);
        return false;
      }
    }
  }

  /** `prim_length`: how many pairs a proper list has, or -1 for anything else. */
  method Length(h: Heap, v: nat) returns (n: int)
    requires WellFormed(h) && v < |h|
    ensures if Proper(h, v) then n >= 0 && ListOf(h, v, n) else n == -1
  {
    var proper := IsProperList(h, v);
    if !proper {
      return -1;
    }
    ghost var len: nat :| ListOf(h, v, len);
    n := 0;
    var ls := v;
    while !h[ls].NilNode?
      invariant 0 <= n <= len && ls == Cdrs(h, v, n)
      decreases len - n
    {
      n := n + 1;
      ls := h[ls].cdr;
    }
  }

  // ---- Equality ----

  type Relation = set<(nat, nat)>

  /** The first n elements of two sequences are related. */
  predicate Paired(xs: seq<nat>, ys: seq<nat>, n: nat, r: Relation) {
    n <= |xs| && n <= |ys| && forall j :: 0 <= j < n ==> (xs[j], ys[j]) in r
  }

  lemma PairedMore(xs: seq<nat>, ys: seq<nat>, n: nat, r: Relation, s: Relation, all: Relation)
    requires n < |xs| && n < |ys| && Paired(xs, ys, n, r) && (xs[n], ys[n]) in s && r <= all && s <= all
    ensures Paired(xs, ys, n + 1, all)
  {
  }

  /** Two values that are alike, if their parts are related. */
  predicate Match(h: Heap, x: nat, y: nat, r: Relation) {
    x < |h| && y < |h| && (x == y ||
      match (h[x], h[y])
      case (NilNode, NilNode) => true
      case (Boolean(b), Boolean(c)) => b == c
      case (Number(m), Number(n)) => m == n
      case (Text(s), Text(t)) => s == t
      case (Name(s), Name(t)) => s == t
      case (Cons(a, d), Cons(b, e)) => (a, b) in r && (d, e) in r
      case (Vector(xs), Vector(ys)) => |xs| == |ys| && forall i :: 0 <= i < |xs| ==> (xs[i], ys[i]) in r
      case _ => false)
  }

  /** The pairs in r are alike, if those in r and in `assumed` are. */
  predicate Supported(h: Heap, r: Relation, assumed: Relation) {
    forall p :: p in r ==> Match(h, p.0, p.1, r + assumed)
  }

  /** x and y cannot be told apart by taking parts: some relation between values that holds of them respects parts. */
  ghost predicate Bisimilar(h: Heap, x: nat, y: nat) {
    exists r: Relation :: (x, y) in r && Supported(h, r, {})
  }

  /** The parts of x are in `within`, and below it in rank. */
  predicate PartsBelow(h: Heap, rank: seq<nat>, within: set<nat>, x: nat)
    requires |rank| == |h|
  {
    x < |h| &&
    match h[x]
    case Cons(a, d) =>
      a in within && d in within && a < |h| && d < |h| && rank[a] < rank[x] && rank[d] < rank[x]
    case Vector(xs) =>
      forall i :: 0 <= i < |xs| ==> xs[i] in within && xs[i] < |h| && rank[xs[i]] < rank[x]
    case _ => true
  }

  /** The same, stated so that only `BelowOpened` unfolds it. */
  predicate Below(h: Heap, rank: seq<nat>, within: set<nat>, x: nat) {
    |rank| == |h| && forall y :: y in [x] ==> PartsBelow(h, rank, within, y)
  }

  lemma BelowOpened(h: Heap, rank: seq<nat>, within: set<nat>, x: nat)
    ensures Below(h, rank, within, x) <==> |rank| == |h| && PartsBelow(h, rank, within, x)
  {
    assert x in [x];
  }

  /** There are no cycles `within`. */
  predicate Descends(h: Heap, rank: seq<nat>, within: set<nat>) {
    |rank| == |h| && forall x :: x in within ==> x < |h| && Below(h, rank, within, x)
  }

  /** Structural equality of x, which has no cycles in it, and y. */
  ghost predicate Same(h: Heap, rank: seq<nat>, within: set<nat>, x: nat, y: nat)
    requires WellFormed(h) && Descends(h, rank, within) && x in within && y < |h|
    decreases rank[x]
  {
    BelowOpened(h, rank, within, x);
    match (h[x], h[y])
    case (NilNode, NilNode) => true
    case (Boolean(b), Boolean(c)) => b == c
    case (Number(m), Number(n)) => m == n
    case (Text(s), Text(t)) => s == t
    case (Name(s), Name(t)) => s == t
    case (Cons(a, d), Cons(b, e)) => Same(h, rank, within, a, b) && Same(h, rank, within, d, e)
    case (Vector(xs), Vector(ys)) => |xs| == |ys| && forall i :: 0 <= i < |xs| ==> Same(h, rank, within, xs[i], ys[i])
    case _ => x == y
  }

  lemma {:induction false} SameSelf(h: Heap, rank: seq<nat>, within: set<nat>, x: nat)
    requires WellFormed(h) && Descends(h, rank, within) && x in within
    ensures Same(h, rank, within, x, x)
    decreases rank[x]
  {
    BelowOpened(h, rank, within, x);
    match h[x]
    case Cons(a, d) =>
      SameSelf(h, rank, within, a);
      SameSelf(h, rank, within, d);
    case Vector(xs) =>
      forall i | 0 <= i < |xs| ensures Same(h, rank, within, xs[i], xs[i]) {
        SameSelf(h, rank, within, xs[i]);
      }
    case _ =>
  }

  /** An acyclic value: what `equal?` answers for it is exact. */
  datatype Acyclic = Acyclic(rank: seq<nat>, within: set<nat>) {
    /** x is acyclic, and none of the values being compared is part of it. */
    predicate Holds(h: Heap, x: nat, visited: map<nat, nat>) {
      Descends(h, rank, within) && x in within && x < |h| &&
      forall k :: k in visited ==> k in within && k < |h| && rank[k] > rank[x]
    }
  }

  function Pairing(visited: map<nat, nat>): Relation {
    set k | k in visited :: (k, visited[k])
  }

  function Unvisited(h: Heap, visited: map<nat, nat>): set<nat> {
    set x: nat | x < |h| && x !in visited
  }

  /** Support goes over to larger relations. */
  lemma Carried(h: Heap, r: Relation, assumed: Relation, r': Relation, assumed': Relation)
    requires Supported(h, r, assumed) && r + assumed <= r' + assumed'
    ensures forall p :: p in r ==> Match(h, p.0, p.1, r' + assumed')
  {
    forall p | p in r ensures Match(h, p.0, p.1, r' + assumed') {
      assert Match(h, p.0, p.1, r + assumed);
    }
  }

  /** Support for two relations together. */
  lemma Joined(h: Heap, r: Relation, ra: Relation, s: Relation, sa: Relation, all: Relation, assumed: Relation)
    requires Supported(h, r, ra) && Supported(h, s, sa) && r + ra <= all + assumed && s + sa <= all + assumed
    requires all == r + s
    ensures Supported(h, all, assumed)
  {
    Carried(h, r, ra, all, assumed);
    Carried(h, s, sa, all, assumed);
  }

  lemma PairingWith(visited: map<nat, nat>, a: nat, b: nat)
    requires a !in visited
    ensures Pairing(visited[a := b]) == Pairing(visited) + {(a, b)}
  {
    var after := visited[a := b];
    forall p ensures p in Pairing(after) <==> p in Pairing(visited) + {(a, b)} {
      assert a in after && after[a] == b;
      if p in Pairing(visited) { assert p.0 in after; }
    }
  }

  /** `visited` is `before` and the values on the path. */
  ghost predicate Restores(before: map<nat, nat>, visited: map<nat, nat>, path: seq<nat>) {
    && (forall i, j :: 0 <= i < j < |path| ==> path[i] != path[j])
    && (forall k :: k in path ==> k !in before) && (forall k :: k in visited <==> k in before || k in path)
    && (forall k :: k in before ==> visited[k] == before[k])
  }

  /** Part of the way along two lists, at a and b: what has been compared is alike if a and b are. */
  ghost predicate PartWay(h: Heap, before: map<nat, nat>, visited: map<nat, nat>, path: seq<nat>, r: Relation,
                           a: nat, b: nat) {
    && Restores(before, visited, path) && Supported(h, r, Pairing(before) + {(a, b)})
    && Pairing(visited) <= Pairing(before) + r
  }

  /** The same, stated so that only `AlongOpened` unfolds it. */
  ghost predicate Along(h: Heap, before: map<nat, nat>, visited: map<nat, nat>, path: seq<nat>, r: Relation,
                        a: nat, b: nat) {
    forall x :: x in [a] ==> PartWay(h, before, visited, path, r, x, b)
  }

  lemma AlongOpened(h: Heap, before: map<nat, nat>, visited: map<nat, nat>, path: seq<nat>, r: Relation,
                    a: nat, b: nat)
    ensures Along(h, before, visited, path, r, a, b) <==> PartWay(h, before, visited, path, r, a, b)
  {
    assert a in [a];
  }

  lemma Settled(h: Heap, before: map<nat, nat>, visited: map<nat, nat>, path: seq<nat>, r: Relation, a: nat, b: nat)
    requires Along(h, before, visited, path, r, a, b) && a in visited && visited[a] == b
    ensures Supported(h, r, Pairing(before)) && (path == [] ==> (a, b) in Pairing(before))
  {
    AlongOpened(h, before, visited, path, r, a, b);
    assert (a, b) in Pairing(visited);
    Carried(h, r, Pairing(before) + {(a, b)}, r, Pairing(before));
  }

  lemma PathLonger(before: map<nat, nat>, visited: map<nat, nat>, path: seq<nat>, a: nat, b: nat)
    requires path != [] && path[|path| - 1] == a && a !in visited && Restores(before, visited, path[..|path| - 1])
    ensures Restores(before, visited[a := b], path)
  {
    assert path == path[..|path| - 1] + [a];
  }

  /** A pair of each list is alike if the rest of the lists are. */
  lemma SupportLonger(h: Heap, before: Relation, r: Relation, s: Relation, a: nat, b: nat, visited: Relation)
    requires WellFormed(h) && a < |h| && b < |h| && h[a].Cons? && h[b].Cons?
    requires Supported(h, r, before + {(a, b)}) && visited <= before + r
    requires Supported(h, s, visited + {(a, b)}) && (h[a].car, h[b].car) in s + (visited + {(a, b)})
    ensures Supported(h, r + s + {(a, b)}, before + {(h[a].cdr, h[b].cdr)})
    ensures visited + {(a, b)} <= before + (r + s + {(a, b)})
  {
    var all, next := r + s + {(a, b)}, before + {(h[a].cdr, h[b].cdr)};
    Carried(h, r, before + {(a, b)}, all, next);
    Carried(h, s, visited + {(a, b)}, all, next);
  }

  lemma Stepped(h: Heap, before: map<nat, nat>, visited: map<nat, nat>, path: seq<nat>, r: Relation, s: Relation,
                a: nat, b: nat)
    requires WellFormed(h) && a < |h| && b < |h| && h[a].Cons? && h[b].Cons?
    requires path != [] && path[|path| - 1] == a && a !in visited
    requires Along(h, before, visited, path[..|path| - 1], r, a, b)
    requires Supported(h, s, Pairing(visited[a := b])) && (h[a].car, h[b].car) in s + Pairing(visited[a := b])
    ensures Along(h, before, visited[a := b], path, r + s + {(a, b)}, h[a].cdr, h[b].cdr)
  {
    AlongOpened(h, before, visited, path[..|path| - 1], r, a, b);
    PairingWith(visited, a, b);
    PathLonger(before, visited, path, a, b);
    SupportLonger(h, Pairing(before), r, s, a, b, Pairing(visited));
    AlongOpened(h, before, visited[a := b], path, r + s + {(a, b)}, h[a].cdr, h[b].cdr);
  }

  lemma Ended(h: Heap, before: map<nat, nat>, visited: map<nat, nat>, path: seq<nat>, r: Relation, a: nat, b: nat,
              s: Relation)
    requires Along(h, before, visited, path, r, a, b) && Supported(h, s, Pairing(visited))
    requires (a, b) in s + Pairing(visited)
    ensures Supported(h, r + s, Pairing(before))
  {
    AlongOpened(h, before, visited, path, r, a, b);
    Carried(h, r, Pairing(before) + {(a, b)}, r + s, Pairing(before));
    Carried(h, s, Pairing(visited), r + s, Pairing(before));
  }

  /** F maps values to values that are alike, part for part. */
  ghost predicate Folding(h: Heap, F: Relation) {
    Supported(h, F, {}) && forall p, q :: p in F && q in F && p.0 == q.0 ==> p == q
  }

  /** Some such map takes a to b, and each value being compared to what it is compared with. */
  ghost predicate SomeFolding(h: Heap, visited: map<nat, nat>, a: nat, b: nat) {
    exists F: Relation :: Folding(h, F) && Pairing(visited) <= F && (a, b) in F
  }

  /** The same, stated so that only `FoldsOpened` unfolds it. */
  ghost predicate Folds(h: Heap, visited: map<nat, nat>, a: nat, b: nat) {
    forall x :: x in [a] ==> SomeFolding(h, visited, x, b)
  }

  lemma FoldsOpened(h: Heap, visited: map<nat, nat>, a: nat, b: nat)
    ensures Folds(h, visited, a, b) <==> SomeFolding(h, visited, a, b)
  {
    assert a in [a];
  }

  lemma FoldedBefore(h: Heap, visited: map<nat, nat>, a: nat, b: nat)
    requires Folds(h, visited, a, b) && a in visited
    ensures visited[a] == b
  {
    FoldsOpened(h, visited, a, b);
    var F: Relation :| Folding(h, F) && Pairing(visited) <= F && (a, b) in F;
    assert (a, visited[a]) in Pairing(visited);
    assert (a, visited[a]).0 == (a, b).0;
  }

  /** Different values that are mapped to each other are of a kind, and so are their parts. */
  lemma FoldedParts(h: Heap, visited: map<nat, nat>, a: nat, b: nat)
    requires Folds(h, visited, a, b) && a != b && a !in visited
    ensures a < |h| && b < |h| && (h[a].Cons? <==> h[b].Cons?) && (h[a].Vector? <==> h[b].Vector?)
    ensures h[a].Cons? ==>
              Folds(h, visited[a := b], h[a].car, h[b].car) && Folds(h, visited[a := b], h[a].cdr, h[b].cdr)
    ensures h[a].Vector? ==>
              AllFold(h, visited[a := b], h[a].elems, h[b].elems)
    ensures !h[a].Cons? && !h[a].Vector? ==> !h[a].Opaque? && h[a] == h[b]
  {
    FoldsOpened(h, visited, a, b);
    var F: Relation :| Folding(h, F) && Pairing(visited) <= F && (a, b) in F;
    PairingWith(visited, a, b);
    assert Match(h, (a, b).0, (a, b).1, F + {}) && F + {} == F;
    assert Pairing(visited[a := b]) <= F;
    forall x, y | (x, y) in F ensures Folds(h, visited[a := b], x, y) {
      FoldsOpened(h, visited[a := b], x, y);
    }
  }

  /** Different values that are mapped to each other are of a kind. */
  lemma FoldedKind(h: Heap, visited: map<nat, nat>, a: nat, b: nat)
    requires Folds(h, visited, a, b) && a != b
    ensures a < |h| && b < |h| && (h[a].Cons? <==> h[b].Cons?) && (h[a].Vector? <==> h[b].Vector?)
    ensures !h[a].Cons? && !h[a].Vector? ==> !h[a].Opaque? && h[a] == h[b]
  {
    FoldsOpened(h, visited, a, b);
    var F: Relation :| Folding(h, F) && Pairing(visited) <= F && (a, b) in F;
    assert Match(h, (a, b).0, (a, b).1, F + {}) && F + {} == F;
  }

  ghost predicate AllFold(h: Heap, visited: map<nat, nat>, xs: seq<nat>, ys: seq<nat>) {
    |xs| == |ys| && forall j :: 0 <= j < |xs| ==> Folds(h, visited, xs[j], ys[j])
  }

  /** The parts of an acyclic value that is now being compared. */
  lemma PartsHold(h: Heap, t: Acyclic, a: nat, b: nat, visited: map<nat, nat>)
    requires WellFormed(h) && t.Holds(h, a, visited)
    ensures a !in visited
    ensures h[a].Cons? ==> t.Holds(h, h[a].car, visited[a := b]) && t.Holds(h, h[a].cdr, visited[a := b])
    ensures h[a].Vector? ==> forall j :: 0 <= j < |h[a].elems| ==> t.Holds(h, h[a].elems[j], visited[a := b])
  {
    BelowOpened(h, t.rank, t.within, a);
  }

  /** Both are values, the first acyclic, and they are structurally equal. */
  ghost predicate Alike(h: Heap, t: Acyclic, x: nat, y: nat) {
    && WellFormed(h) && Descends(h, t.rank, t.within) && x in t.within && y < |h|
    && Same(h, t.rank, t.within, x, y)
  }

  ghost predicate AllAlike(h: Heap, t: Acyclic, xs: seq<nat>, ys: seq<nat>, n: nat) {
    n <= |xs| && n <= |ys| && forall j :: 0 <= j < n ==> Alike(h, t, xs[j], ys[j])
  }

  lemma AlikeMore(h: Heap, t: Acyclic, xs: seq<nat>, ys: seq<nat>, n: nat)
    requires AllAlike(h, t, xs, ys, n) && n < |xs| && n < |ys| && Alike(h, t, xs[n], ys[n])
    ensures AllAlike(h, t, xs, ys, n + 1)
  {
  }

  lemma SamePairs(h: Heap, t: Acyclic, a: nat, b: nat)
    requires WellFormed(h) && Descends(h, t.rank, t.within) && a in t.within && b < |h| && h[a].Cons? && h[b].Cons?
    ensures Same(h, t.rank, t.within, a, b) <==> Alike(h, t, h[a].car, h[b].car) && Alike(h, t, h[a].cdr, h[b].cdr)
  {
    BelowOpened(h, t.rank, t.within, a);
  }

  predicate AllHold(h: Heap, t: Acyclic, xs: seq<nat>, visited: map<nat, nat>) {
    forall j :: 0 <= j < |xs| ==> t.Holds(h, xs[j], visited)
  }

  lemma VectorSupported(h: Heap, r: Relation, a: nat, b: nat, before: map<nat, nat>)
    requires a < |h| && b < |h| && h[a].Vector? && h[b].Vector? && |h[a].elems| == |h[b].elems|
    requires Supported(h, r, Pairing(before) + {(a, b)})
    requires Paired(h[a].elems, h[b].elems, |h[a].elems|, r + (Pairing(before) + {(a, b)}))
    ensures Supported(h, r + {(a, b)}, Pairing(before))
  {
    Carried(h, r, Pairing(before) + {(a, b)}, r + {(a, b)}, Pairing(before));
  }

  class Comparer {
    var visited: map<nat, nat>    // the values of the first argument being compared, with what each is compared with

    ghost predicate Valid(h: Heap)
      reads this
    {
      WellFormed(h) && forall k :: k in visited ==> k < |h| && visited[k] < |h|
    }

    constructor ()
      ensures visited == map[]
    {
      visited := map[];
    }

    /** `value_equal_with_visited`. If the answer is true, r shows why: its pairs, which may rely on those being
        compared, are alike. For an acyclic value the answer is exact. */
    method Equal(h: Heap, a: nat, b: nat, ghost t: Acyclic) returns (same: bool, ghost r: Relation)
      requires Valid(h) && a < |h| && b < |h|
      modifies this
      ensures visited == old(visited)
      ensures same ==> (a, b) in r + Pairing(visited) && Supported(h, r, Pairing(visited))
      ensures t.Holds(h, a, visited) ==> (same <==> Same(h, t.rank, t.within, a, b))
      ensures Folds(h, visited, a, b) ==> same
      decreases Unvisited(h, visited), 2
    {
      r := {(a, b)};
      if a == b {
        if t.Holds(h, a, visited) {
          SameSelf(h, t.rank, t.within, a);
        }
        return true, r;
      }
      if Folds(h, visited, a, b) {
        FoldedKind(h, visited, a, b);
      }
      match h[a]
      case Vector(_) =>
        if h[b].Vector? {
          same, r := EqualVectors(h, a, b, t);
        } else {
          same := false;
        }
      case Cons(_, _) =>
        if h[b].Cons? {
          same, r := EqualPairs(h, a, b, t);
        } else {
          same := false;
        }
      case Opaque => same := false;
      case _ => same := h[a] == h[b];
    }

    /** Vectors. */
    method EqualVectors(h: Heap, a: nat, b: nat, ghost t: Acyclic) returns (same: bool, ghost r: Relation)
      requires Valid(h) && a < |h| && b < |h| && h[a].Vector? && h[b].Vector? && a != b
      modifies this
      ensures visited == old(visited)
      ensures same ==> (a, b) in r + Pairing(visited) && Supported(h, r, Pairing(visited))
      ensures t.Holds(h, a, visited) ==> (same <==> Same(h, t.rank, t.within, a, b))
      ensures Folds(h, visited, a, b) ==> same
      decreases Unvisited(h, visited), 1
    {
      r := {};
      if a in visited {
        if Folds(h, visited, a, b) {
          FoldedBefore(h, visited, a, b);
        }
        return visited[a] == b, r;
      }
      if Folds(h, visited, a, b) {
        FoldedParts(h, visited, a, b);
      }
      if |h[a].elems| != |h[b].elems| {
        return false, r;
      }
      same, r := EqualContents(h, a, b, t);
    }

    /** Vectors of a length. */
    method EqualContents(h: Heap, a: nat, b: nat, ghost t: Acyclic) returns (same: bool, ghost r: Relation)
      requires Valid(h) && a < |h| && b < |h| && h[a].Vector? && h[b].Vector? && a !in visited
      requires |h[a].elems| == |h[b].elems|
      modifies this
      ensures visited == old(visited)
      ensures same ==> (a, b) in r + Pairing(visited) && Supported(h, r, Pairing(visited))
      ensures t.Holds(h, a, visited) ==> (same <==> Same(h, t.rank, t.within, a, b))
      ensures AllFold(h, visited[a := b], h[a].elems, h[b].elems) ==> same
      decreases Unvisited(h, visited), 0
    {
      ghost var before := visited;
      PairingWith(before, a, b);
      if t.Holds(h, a, visited) {
        PartsHold(h, t, a, b, visited);
      }
      assert a in Unvisited(h, visited) && a !in Unvisited(h, visited[a := b]);
      visited := visited[a := b];
      same, r := EqualElements(h, h[a].elems, h[b].elems, t);
      visited := visited - {a};
      assert visited == before;
      if same {
        VectorSupported(h, r, a, b, before);
        r := r + {(a, b)};
      }
    }

    /** The elements of two vectors of a length, which have been marked as visited. */
    method EqualElements(h: Heap, xs: seq<nat>, ys: seq<nat>, ghost t: Acyclic) returns (same: bool, ghost r: Relation)
      requires Valid(h) && |xs| == |ys| && forall i :: 0 <= i < |xs| ==> xs[i] < |h| && ys[i] < |h|
      modifies this
      ensures visited == old(visited)
      ensures same ==> Supported(h, r, Pairing(visited)) && Paired(xs, ys, |xs|, r + Pairing(visited))
      ensures AllHold(h, t, xs, visited) ==> (same <==> AllAlike(h, t, xs, ys, |xs|))
      ensures AllFold(h, visited, xs, ys) ==> same
      decreases Unvisited(h, visited), 3
    {
      r := {};
      var i := 0;
      while i < |xs|
        invariant 0 <= i <= |xs| && visited == old(visited) && Supported(h, r, Pairing(visited))
        invariant Paired(xs, ys, i, r + Pairing(visited))
        invariant AllHold(h, t, xs, visited) ==> AllAlike(h, t, xs, ys, i)
      {
        ghost var s;
        same, s := Equal(h, xs[i], ys[i], t);
        assert t.Holds(h, xs[i], visited) ==> (same <==> Alike(h, t, xs[i], ys[i]));
        if !same {
          return;
        }
        Joined(h, r, Pairing(visited), s, Pairing(visited), r + s, Pairing(visited));
        PairedMore(xs, ys, i, r + Pairing(visited), s + Pairing(visited), (r + s) + Pairing(visited));
        r := r + s;
        if AllHold(h, t, xs, visited) {
          AlikeMore(h, t, xs, ys, i);
        }
        i := i + 1;
      }
      same := true;
    }

    /** Pairs: the cars are compared one after the other along the cdrs. */
    method EqualPairs(h: Heap, a0: nat, b0: nat, ghost t: Acyclic) returns (same: bool, ghost r: Relation)
      requires Valid(h) && a0 < |h| && b0 < |h| && h[a0].Cons? && h[b0].Cons? && a0 != b0
      modifies this
      ensures visited == old(visited)
      ensures same ==> (a0, b0) in r + Pairing(visited) && Supported(h, r, Pairing(visited))
      ensures t.Holds(h, a0, visited) ==> (same <==> Same(h, t.rank, t.within, a0, b0))
      ensures Folds(h, visited, a0, b0) ==> same
      decreases Unvisited(h, visited), 1
    {
      ghost var before := visited;
      var a: nat, b: nat := a0, b0;
      var path: seq<nat> := [];
      r := {};
      AlongOpened(h, before, visited, path, r, a, b);
      while true
        invariant Valid(h) && a < |h| && b < |h| && h[a].Cons? && h[b].Cons? && a != b
        invariant Folds(h, before, a0, b0) ==> Folds(h, visited, a, b)
        invariant Along(h, before, visited, path, r, a, b) && (path == [] ==> (a, b) == (a0, b0))
        invariant (path != [] ==> (a0, b0) in r)
        invariant Unvisited(h, visited) <= Unvisited(h, before)
        invariant t.Holds(h, a0, before) ==>
                    t.Holds(h, a, visited) && (Same(h, t.rank, t.within, a0, b0) <==> Same(h, t.rank, t.within, a, b))
        decreases Unvisited(h, visited)
      {
        AlongOpened(h, before, visited, path, r, a, b);
        if a in visited {
          same := Met(h, a, b, before, path, r);
          break;
        }
        assert a in Unvisited(h, visited) && a !in Unvisited(h, visited[a := b]);
        same, r := EqualCars(h, a, b, t, before, path, r);
        path := path + [a];
        if !same {
          break;
        }
        a, b := h[a].cdr, h[b].cdr;
        if a == b || !h[a].Cons? || !h[b].Cons? {
          ghost var s;
          same, s := EqualEnds(h, a, b, t);
          if same {
            Ended(h, before, visited, path, r, a, b, s);
            r := r + s;
          }
          break;
        }
      }
      Erase(before, path);
    }

    /** Two lists have come back to a pair that is being compared. */
    method Met(h: Heap, a: nat, b: nat, ghost before: map<nat, nat>, ghost path: seq<nat>, ghost r: Relation)
      returns (same: bool)
      requires a in visited && Along(h, before, visited, path, r, a, b)
      ensures same ==> Supported(h, r, Pairing(before)) && (path == [] ==> (a, b) in Pairing(before))
      ensures Folds(h, visited, a, b) ==> same
    {
      if Folds(h, visited, a, b) {
        FoldedBefore(h, visited, a, b);
      }
      same := visited[a] == b;
      if same {
        Settled(h, before, visited, path, r, a, b);
      }
    }

    /** One pair of each list, which is marked as visited. */
    method EqualCars(h: Heap, a: nat, b: nat, ghost t: Acyclic, ghost before: map<nat, nat>, ghost path: seq<nat>,
                     ghost r: Relation)
      returns (same: bool, ghost r': Relation)
      requires Valid(h) && a < |h| && b < |h| && h[a].Cons? && h[b].Cons? && a !in visited && a != b
      requires Along(h, before, visited, path, r, a, b)
      modifies this
      ensures visited == old(visited)[a := b] && Restores(before, visited, path + [a])
      ensures same ==> Along(h, before, visited, path + [a], r', h[a].cdr, h[b].cdr) && (a, b) in r' && r <= r'
      ensures t.Holds(h, a, old(visited)) ==>
                && t.Holds(h, h[a].cdr, visited)
                && (Same(h, t.rank, t.within, a, b) <==> same && Same(h, t.rank, t.within, h[a].cdr, h[b].cdr))
      ensures Folds(h, old(visited), a, b) ==> same && Folds(h, visited, h[a].cdr, h[b].cdr)
      decreases Unvisited(h, visited), 0
    {
      assert a in Unvisited(h, visited) && a !in Unvisited(h, visited[a := b]);
      if Folds(h, visited, a, b) {
        FoldedParts(h, visited, a, b);
      }
      if t.Holds(h, a, visited) {
        PartsHold(h, t, a, b, visited);
        SamePairs(h, t, a, b);
      }
      AlongOpened(h, before, visited, path, r, a, b);
      assert (path + [a])[..|path|] == path;
      PathLonger(before, visited, path + [a], a, b);
      visited := visited[a := b];
      ghost var s;
      same, s := Equal(h, h[a].car, h[b].car, t);
      r' := r + s + {(a, b)};
      if same {
        Stepped(h, before, old(visited), path + [a], r, s, a, b);
      }
    }

    /** Where two lists have come together, or one of them has ended. */
    method EqualEnds(h: Heap, a: nat, b: nat, ghost t: Acyclic) returns (same: bool, ghost r: Relation)
      requires Valid(h) && a < |h| && b < |h| && (a == b || !h[a].Cons? || !h[b].Cons?)
      modifies this
      ensures visited == old(visited)
      ensures same ==> (a, b) in r + Pairing(visited) && Supported(h, r, Pairing(visited))
      ensures t.Holds(h, a, visited) ==> (same <==> Same(h, t.rank, t.within, a, b))
      ensures Folds(h, visited, a, b) ==> same
      decreases Unvisited(h, visited), 3
    {
      r := {(a, b)};
      if a == b {
        if t.Holds(h, a, visited) {
          SameSelf(h, t.rank, t.within, a);
        }
        return true, r;
      }
      if Folds(h, visited, a, b) {
        FoldedKind(h, visited, a, b);
      }
      if h[a].Cons? != h[b].Cons? {
        return false, r;
      }
      same, r := Equal(h, a, b, t);
    }

    /** The values on the path are no longer being compared. */
    method Erase(ghost before: map<nat, nat>, path: seq<nat>)
      requires Restores(before, visited, path)
      modifies this
      ensures visited == before
    {
      var i := 0;
      while i < |path|
        invariant 0 <= i <= |path| && Restores(before, visited, path[i..])
      {
        visited := visited - {path[i]};
        i := i + 1;
      }
    }
  }

  /** `value_equal`: equal values are bisimilar, and for an acyclic first value equality is structural. Circular
      values are equal too if the first can be mapped onto the second part for part: if no part of it is met twice
      beside different parts of the other. */
  method ValueEqual(h: Heap, a: nat, b: nat, ghost t: Acyclic) returns (same: bool)
    requires WellFormed(h) && a < |h| && b < |h|
    ensures same ==> Bisimilar(h, a, b)
    ensures t.Holds(h, a, map[]) ==> (same <==> Same(h, t.rank, t.within, a, b))
    ensures forall F: Relation :: Folding(h, F) && (a, b) in F ==> same
  {
    var c := new Comparer();
    ghost var r;
    same, r := c.Equal(h, a, b, t);
    assert Pairing(map[]) == {};
    forall F: Relation | Folding(h, F) && (a, b) in F ensures same {
      assert SomeFolding(h, map[], a, b);
      FoldsOpened(h, map[], a, b);
    }
  }
}
