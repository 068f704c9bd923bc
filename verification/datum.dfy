/** S-expressions as the reader hands them to the compiler: finite cons trees. */
module Datums {
  import opened Symbols
  import opened Wrappers

  datatype Datum =
    | Nil
    | Bool(b: bool)
    | Int(n: int)
    | Str(text: string)
    | Sym(name: Symbol)
    | Pair(car: Datum, cdr: Datum)
    | Vec(elems: seq<Datum>)
    | Eof

  /** Why `comp` or an expander refuses a form. */
  datatype SyntaxError =
    | BadForm(form: Keyword)
    | ImproperList
    | ExpectedPair
    | BadUnquote
    | BadSplice
    | BadInternalDefine
    | NotCompilable
    | MacroForm

  /** The proper list holding xs. */
  function ListOf(xs: seq<Datum>): (x: Datum)
    ensures x.Nil? <==> xs == []
    ensures x.Nil? || x.Pair?
  {
    if xs == [] then Nil else Pair(xs[0], ListOf(xs[1..]))
  }

  /** The elements of a proper list, or None for any other datum. */
  function ToSeq(x: Datum): (r: Option<seq<Datum>>)
    ensures r.Some? ==> ListOf(r.value) == x
  {
    match x
    case Nil => Some([])
    case Pair(a, d) =>
      (match ToSeq(d)
       case Some(xs) =>
         assert ([a] + xs)[1..] == xs;
         Some([a] + xs)
       case None => None)
    case _ => None
  }

  lemma {:induction false} ToSeqListOf(xs: seq<Datum>)
    ensures ToSeq(ListOf(xs)) == Some(xs)
  {
    if xs != [] {
      ToSeqListOf(xs[1..]);
      assert xs == [xs[0]] + xs[1..];
    }
  }

  /** A size in which a vector literal is larger than the list of its elements. */
  function Size(x: Datum): (n: nat)
    ensures n >= 1
    decreases x
  {
    match x
    case Pair(a, d) => 1 + Size(a) + Size(d)
    case Vec(es) => 1 + SizeSeq(es)
    case _ => 1
  }

  /** The size of the list of xs. */
  function SizeSeq(xs: seq<Datum>): (n: nat)
    ensures n >= 1
    decreases xs
  {
    if xs == [] then 1 else 1 + Size(xs[0]) + SizeSeq(xs[1..])
  }

  lemma {:induction false} SizeListOf(xs: seq<Datum>)
    ensures Size(ListOf(xs)) == SizeSeq(xs)
  {
    if xs != [] {
      SizeListOf(xs[1..]);
    }
  }

  lemma {:induction false} SizeElement(xs: seq<Datum>, i: nat)
    requires i < |xs|
    ensures Size(xs[i]) < SizeSeq(xs)
  {
    if i > 0 {
      SizeElement(xs[1..], i - 1);
    }
  }
}
