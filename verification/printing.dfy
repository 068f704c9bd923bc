/** The printer as it runs: it walks values that share parts or are circular. */
module Printing {
  import opened Wrappers
  import opened Walks
  import D = Datums
  import Y = Symbols
  import R = ReadPrint
  import G = Grammar

  /** The tree that an acyclic value stands for; shared parts are repeated. */
  function Tree(h: Heap, t: Acyclic, x: nat): (d: D.Datum)
    requires Descends(h, t.rank, t.within) && x in t.within
    decreases t.rank[x]
  {
    BelowOpened(h, t.rank, t.within, x);
    match h[x]
    case NilNode => D.Nil
    case Boolean(b) => D.Bool(b)
    case Number(n) => D.Int(n)
    case Text(s) => D.Str(s)
    case Name(name) => D.Sym(Y.Intern(name))
    case Cons(a, r) => D.Pair(Tree(h, t, a), Tree(h, t, r))
    case Vector(xs) => D.Vec(seq(|xs|, i requires 0 <= i < |xs| => Tree(h, t, xs[i])))
    case Opaque => D.Eof
  }

  /** x is acyclic, holds data only, and none of the values being printed is part of it. */
  predicate Plain(h: Heap, t: Acyclic, x: nat, visited: set<nat>) {
    && Descends(h, t.rank, t.within) && x in t.within && x < |h|
    && (forall k :: k in t.within ==> !h[k].Opaque?)
    && (forall k :: k in visited ==> k in t.within && k < |h| && t.rank[k] > t.rank[x])
  }

  /** The parts of a plain value are plain while it is being printed. */
  lemma PartsPlain(h: Heap, t: Acyclic, x: nat, visited: set<nat>)
    requires WellFormed(h) && Plain(h, t, x, visited)
    ensures x !in visited
    ensures h[x].Cons? ==> Plain(h, t, h[x].car, visited + {x}) && Plain(h, t, h[x].cdr, visited + {x})
    ensures h[x].Vector? ==> forall i :: 0 <= i < |h[x].elems| ==> Plain(h, t, h[x].elems[i], visited + {x})
  {
    BelowOpened(h, t.rank, t.within, x);
  }

  function Unprinted(h: Heap, visited: set<nat>): set<nat> {
    set x: nat | x < |h| && x !in visited
  }

  lemma FewerUnprinted(h: Heap, visited: set<nat>, x: nat)
    requires x < |h| && x !in visited
    ensures Unprinted(h, visited + {x}) < Unprinted(h, visited)
  {
    assert x in Unprinted(h, visited) && x !in Unprinted(h, visited + {x});
  }

  /** The text so far, which goes on with c, is that of a whole list. */
  predicate Going(text: string, c: D.Datum, first: bool, whole: D.Datum) {
    text + R.Rest(c, first) == "(" + R.Rest(whole, true)
  }

  lemma Regroup(text: string, space: string, x: string, more: string)
    ensures text + (x + more) == text + x + more
    ensures text + (space + x + more) == text + space + x + more
  {
    assert space + x + more == space + (x + more);
  }

  lemma GoesOn(text: string, c: D.Datum, first: bool, whole: D.Datum)
    requires Going(text, c, first, whole) && c.Pair?
    ensures Going((if first then text else text + " ") + R.Print(c.car), c.cdr, false, whole)
  {
    var x, more := R.Print(c.car), R.After(c.cdr);
    R.RestOfPair(c, first);
    Regroup(text, " ", x, more);
    assert R.Rest(c.cdr, false) == more;
    assert text + R.Rest(c, first) == (if first then text else text + " ") + x + more;
  }

  lemma Ends(text: string, c: D.Datum, first: bool, whole: D.Datum)
    requires Going(text, c, first, whole) && !c.Pair? && whole.Pair?
    ensures text + (if c.Nil? then "" else " . " + R.Print(c)) + ")" == R.Print(whole)
  {
    assert R.Rest(c, first) == if c.Nil? then "" else " . " + R.Print(c);
    WholeList(whole);
  }

  lemma WholeList(d: D.Datum)
    requires d.Pair?
    ensures R.Print(d) == "(" + R.Rest(d, true) + ")"
  {
    var x, more := R.Print(d.car), R.After(d.cdr);
    InParens(x, more);
    assert R.Rest(d, true) == x + more;
  }

  lemma InParens(x: string, more: string)
    ensures "(" + x + more + ")" == "(" + (x + more) + ")"
  {
    assert "(" + x + more == "(" + (x + more);
  }

  /** Part of the way along a list v that is plain: at c, with the text so far. */
  ghost predicate Underway(h: Heap, t: Acyclic, v: nat, c: nat, visited: set<nat>, first: bool, text: string) {
    Plain(h, t, v, {}) && Plain(h, t, c, visited) && Going(text, Tree(h, t, c), first, Tree(h, t, v))
  }

  lemma UnderwayNext(h: Heap, t: Acyclic, v: nat, c: nat, visited: set<nat>, first: bool, text: string)
    requires WellFormed(h) && Underway(h, t, v, c, visited, first, text) && h[c].Cons?
    ensures Plain(h, t, h[c].car, visited + {c})
    ensures Underway(h, t, v, h[c].cdr, visited + {c}, false,
              (if first then text else text + " ") + R.Print(Tree(h, t, h[c].car)))
  {
    PartsPlain(h, t, c, visited);
    GoesOn(text, Tree(h, t, c), first, Tree(h, t, v));
  }

  lemma UnderwayEnds(h: Heap, t: Acyclic, v: nat, c: nat, visited: set<nat>, first: bool, text: string)
    requires WellFormed(h) && Underway(h, t, v, c, visited, first, text) && !h[c].Cons? && v < |h| && h[v].Cons?
    ensures text + (if h[c].NilNode? then "" else " . " + R.Print(Tree(h, t, c))) + ")" == R.Print(Tree(h, t, v))
    ensures Plain(h, t, c, visited)
  {
    Ends(text, Tree(h, t, c), first, Tree(h, t, v));
  }

  class Printer {
    const h: Heap
    const others: nat -> string      // how procedures, ports and the like print
    var visited: set<nat>            // the values on the way to the one being printed

    constructor (h: Heap, others: nat -> string)
      ensures this.h == h && this.others == others && visited == {}
    {
      this.h, this.others, visited := h, others, {};
    }

    /** `to_string_with_visited`: it ends for every value, and an acyclic one prints as its tree. */
    method ToString(v: nat, ghost t: Acyclic) returns (text: string)
      requires WellFormed(h) && v < |h|
      modifies this
      ensures visited == old(visited)
      ensures Plain(h, t, v, visited) ==> text == R.Print(Tree(h, t, v))
      decreases Unprinted(h, visited), 2
    {
      match h[v]
      case NilNode => text := "NIL";
      case Boolean(b) => text := if b then "TRUE" else "FALSE";
      case Number(n) => text := R.IntText(n);
      case Text(s) => text := "\"" + s + "\"";
      case Name(name) => text := name;
      case Cons(_, _) => text := ListToString(v, t);
      case Vector(_) => text := VectorToString(v, t);
      case Opaque => text := others(v);
    }

    /** `list_to_string_with_visited`. */
    method ListToString(v: nat, ghost t: Acyclic) returns (text: string)
      requires WellFormed(h) && v < |h| && h[v].Cons?
      modifies this
      ensures visited == old(visited)
      ensures Plain(h, t, v, visited) ==> text == R.Print(Tree(h, t, v))
      decreases Unprinted(h, visited), 1
    {
      ghost var before := visited;
      ghost var plain := Plain(h, t, v, before);
      text := "(";
      var first, ls: nat, path: seq<nat> := true, v, [];
      PathIs(visited, visited, path);
      while !h[ls].NilNode?
        invariant ls < |h| && (first ==> ls == v && path == [])
        invariant !first ==> Unprinted(h, visited) < Unprinted(h, before)
        invariant OnPath(visited, before, path)
        invariant plain ==> Underway(h, t, v, ls, visited, first, text)
        decreases Unprinted(h, visited)
      {
        if !h[ls].Cons? {
          if plain { UnderwayEnds(h, t, v, ls, visited, first, text); }
          var tail := ToString(ls, t);
          text := text + " . " + tail;
          break;
        }
        if ls in visited {
          text := text + " . #<circular>";
          break;
        }
        if plain { UnderwayNext(h, t, v, ls, visited, first, text); }
        PathMore(visited, before, path, ls);
        path := path + [ls];
        if !first {
          text := text + " ";
        }
        first := false;
        var element := CarToString(ls, t);
        text := text + element;
        ls := h[ls].cdr;
      }
      if plain && h[ls].NilNode? { UnderwayEnds(h, t, v, ls, visited, first, text); }
      text := text + ")";
      PathIs(visited, before, path);
      Erase(path, before);
    }

    /** A pair of a list is reached and its car printed. */
    method CarToString(ls: nat, ghost t: Acyclic) returns (text: string)
      requires WellFormed(h) && ls < |h| && h[ls].Cons? && ls !in visited
      modifies this
      ensures visited == old(visited) + {ls} && Unprinted(h, visited) < Unprinted(h, old(visited))
      ensures Plain(h, t, ls, old(visited)) ==>
                Plain(h, t, h[ls].car, visited) && Plain(h, t, h[ls].cdr, visited) && text ==
                  R.Print(Tree(h, t, h[ls].car))
      decreases Unprinted(h, visited), 0
    {
      if Plain(h, t, ls, visited) {
        PartsPlain(h, t, ls, visited);
      }
      FewerUnprinted(h, visited, ls);
      visited := visited + {ls};
      text := ToString(h[ls].car, t);
    }

    /** The values on the path are no longer being printed. */
    method Erase(path: seq<nat>, ghost before: set<nat>)
      requires visited == before + Elements(path) && Apart(path, before)
      modifies this
      ensures visited == before
    {
      for i := 0 to |path|
        invariant visited == before + Elements(path[i..])
      {
        ApartFirst(path, before, i);
        visited := visited - {path[i]};
      }
    }

    /** `vector_to_string_with_visited`. */
    method VectorToString(v: nat, ghost t: Acyclic) returns (text: string)
      requires WellFormed(h) && v < |h| && h[v].Vector?
      modifies this
      ensures visited == old(visited)
      ensures Plain(h, t, v, visited) ==> text == R.Print(Tree(h, t, v))
      decreases Unprinted(h, visited), 1
    {
      if v in visited {
        return "#<circular-vector>";
      }
      ghost var plain := Plain(h, t, v, visited);
      if plain {
        PartsPlain(h, t, v, visited);
      }
      FewerUnprinted(h, visited, v);
      visited := visited + {v};
      text := ElementsToString(h[v].elems, if plain then Tree(h, t, v).elems else [], t);
      text := "#(" + text + ")";
      visited := visited - {v};
    }

    /** The elements of a vector. */
    method ElementsToString(xs: seq<nat>, ghost es: seq<D.Datum>, ghost t: Acyclic) returns (text: string)
      requires WellFormed(h) && forall i :: 0 <= i < |xs| ==> xs[i] < |h|
      modifies this
      ensures visited == old(visited)
      ensures Trees(h, t, xs, es, visited) ==> text == R.Elements(es)
      decreases Unprinted(h, visited), 3
    {
      ghost var plain := Trees(h, t, xs, es, visited);
      text := "";
      for i := 0 to |xs|
        invariant visited == old(visited)
        invariant plain ==> Printed(es, i, text)
      {
        if plain {
          PrintedNext(es, i, text);
        }
        if i > 0 {
          text := text + " ";
        }
        var element := ToString(xs[i], t);
        text := text + element;
      }
      if plain {
        R.FromEnd(es);
      }
    }
  }

  /** The text has the first i elements of a vector. */
  predicate Printed(es: seq<D.Datum>, i: nat, text: string) {
    i <= |es| && text + R.From(es, i) == R.Elements(es)
  }

  lemma PrintedNext(es: seq<D.Datum>, i: nat, text: string)
    requires Printed(es, i, text) && i < |es|
    ensures Printed(es, i + 1, (if i > 0 then text + " " else text) + R.Print(es[i]))
  {
    R.FromNext(es, i);
    Regroup(text, " ", R.Print(es[i]), R.From(es, i + 1));
  }

  /** The elements of a vector are plain, and stand for the trees es. */
  ghost predicate Trees(h: Heap, t: Acyclic, xs: seq<nat>, es: seq<D.Datum>, visited: set<nat>) {
    |xs| == |es| && forall i :: 0 <= i < |xs| ==> Plain(h, t, xs[i], visited) && es[i] == Tree(h, t, xs[i])
  }

  function Elements(path: seq<nat>): set<nat> {
    set x | x in path
  }

  /** The path has no value twice, and none of `before`. */
  predicate Apart(path: seq<nat>, before: set<nat>) {
    && (forall i, j :: 0 <= i < j < |path| ==> path[i] != path[j])
    && (forall x :: x in path ==> x !in before)
  }

  /** The values being printed are those `before`, and those on the path. Only the next two lemmas unfold it. */
  ghost predicate OnPath(visited: set<nat>, before: set<nat>, path: seq<nat>) {
    forall p :: p in [path] ==> visited == before + Elements(p) && Apart(p, before)
  }

  lemma PathIs(visited: set<nat>, before: set<nat>, path: seq<nat>)
    ensures OnPath(visited, before, path) <==> visited == before + Elements(path) && Apart(path, before)
  {
    assert path in [path];
  }

  lemma PathMore(visited: set<nat>, before: set<nat>, path: seq<nat>, x: nat)
    requires OnPath(visited, before, path) && x !in visited
    ensures OnPath(visited + {x}, before, path + [x])
  {
    PathIs(visited, before, path);
    PathIs(visited + {x}, before, path + [x]);
    assert Elements(path + [x]) == Elements(path) + {x};
  }

  lemma ApartFirst(path: seq<nat>, before: set<nat>, i: nat)
    requires Apart(path, before) && i < |path|
    ensures before + Elements(path[i..]) - {path[i]} == before + Elements(path[i + 1..])
  {
    assert path[i..] == [path[i]] + path[i + 1..];
  }

  /** What is printed for an acyclic value, shared parts or not, is read back as its tree, but for truth values and
      empty lists as elements, which are read as symbols; and no further text is read. */
  method PrintAndRead(h: Heap, v: nat, others: nat -> string, rest: string, ghost t: Acyclic)
    returns (r: R.Report, left: nat)
    requires WellFormed(h) && v < |h|
    ensures Plain(h, t, v, {}) && R.Echoes(Tree(h, t, v)) && G.Delimited(rest) ==>
              r == Result.Ok(Some(R.Reread(Tree(h, t, v)))) && left == |rest|
    ensures Plain(h, t, v, {}) && R.Readable(Tree(h, t, v)) && G.Delimited(rest) ==>
              r == Result.Ok(Some(Tree(h, t, v))) && left == |rest|
  {
    var printer := new Printer(h, others);
    var text := printer.ToString(v, t);
    var reader := new R.Reader(text + rest);
    assert reader.Ahead() == text + rest;
    r := reader.ReadExpr();
    left := |reader.s| - reader.p;
    if Plain(h, t, v, {}) {
      var d := Tree(h, t, v);
      if R.Readable(d) {
        R.ReadableEchoes(d);
      }
      if R.Echoes(d) && G.Delimited(rest) {
        R.PrintedIsRead(d, rest);
      }
    }
  }
}
