/** The printer and the reader: what is printed is read back. */
module ReadPrint {
  import opened Wrappers
  import opened Datums
  import opened Symbols
  import opened Grammar
  import opened Reading

  // ---- Printing ----

  /** `BigInt::to_string`. */
  function IntText(n: int): string {
    if n < 0 then "-" + Decimal(-n) else Decimal(n)
  }

  /** `to_string` of an acyclic value. */
  function Print(d: Datum): string
    decreases d, 0
  {
    match d
    case Nil => "NIL"
    case Bool(b) => if b then "TRUE" else "FALSE"
    case Int(n) => IntText(n)
    case Str(s) => "\"" + s + "\""
    case Sym(y) => Text(y)
    case Pair(a, rest) => "(" + Print(a) + After(rest) + ")"
    case Vec(es) => "#(" + Elements(es) + ")"
    case Eof => "#<eof>"
  }

  /** The rest of a list, after an element. */
  function After(d: Datum): string
    decreases d, 1
  {
    match d
    case Nil => ""
    case Pair(a, rest) => " " + Print(a) + After(rest)
    case _ => " . " + Print(d)
  }

  function Elements(es: seq<Datum>): string
    decreases es, 1
  {
    if es == [] then "" else Print(es[0]) + MoreElements(es[1..])
  }

  function MoreElements(es: seq<Datum>): string
    decreases es, 0
  {
    if es == [] then "" else " " + Print(es[0]) + MoreElements(es[1..])
  }

  /** What is left of a list: all of it, or what follows an element. */
  function Rest(c: Datum, first: bool): string {
    if first && c.Pair? then Print(c.car) + After(c.cdr) else After(c)
  }

  /** A vector's elements from the ith on, after those before it. */
  function From(es: seq<Datum>, i: nat): string
    requires i <= |es|
  {
    if i == 0 then Elements(es) else MoreElements(es[i..])
  }

  lemma RestOfPair(c: Datum, first: bool)
    requires c.Pair?
    ensures Rest(c, first) == (if first then Print(c.car) else " " + Print(c.car)) + After(c.cdr)
    ensures After(c.cdr) == "" || After(c.cdr)[0] == ' '
  {
  }

  lemma FromEnd(es: seq<Datum>)
    ensures From(es, |es|) == ""
  {
    assert es[|es|..] == [];
  }

  lemma FromNext(es: seq<Datum>, i: nat)
    requires i < |es|
    ensures From(es, i) == (if i == 0 then Print(es[i]) else " " + Print(es[i])) + From(es, i + 1)
    ensures From(es, i + 1) == "" || From(es, i + 1)[0] == ' '
  {
    assert es[i..][1..] == es[i + 1..] && es[i..][0] == es[i];
  }

  // ---- What can be read back ----

  /** A symbol whose name the reader takes for that symbol, in a list too. */
  predicate PlainSymbol(y: Symbol) {
    && var s := Text(y);
    && s != [] && s[0] != '#' && s[0] != '.' && (forall i :: 0 <= i < |s| ==> !EndsAtom(s[i]))
    && !Numeric(s) && s != "nil" && s != "true" && s != "false" && IsInterned(y)
  }

  /** Values that are read back as they were. */
  predicate Readable(d: Datum)
    decreases d
  {
    match d
    case Int(_) => true
    case Str(s) => forall i :: 0 <= i < |s| ==> s[i] != '"' && s[i] != '\\'
    case Sym(y) => PlainSymbol(y)
    case Pair(a, rest) => Readable(a) && (rest.Nil? || Readable(rest))
    case Vec(es) => forall i :: 0 <= i < |es| ==> Readable(es[i])
    case _ => false
  }

  lemma {:induction false} DecimalDigits(n: nat)
    ensures AllDigits(Decimal(n)) && DigitsValue(Decimal(n)) == n
  {
    var s := Decimal(n);
    if n < 10 {
      assert s[..0] == [];
    } else {
      DecimalDigits(n / 10);
      assert s[..|s| - 1] == Decimal(n / 10);
    }
  }

  lemma DigitsPlain(s: string)
    requires AllDigits(s)
    ensures forall i :: 0 <= i < |s| ==> !EndsAtom(s[i]) && s[i] != '#' && s[i] != '.' && s[i] != '-' && s[i] != '+'
  {
  }

  lemma NaturalReads(n: nat)
    ensures var s := Decimal(n);
            && s != [] && Numeric(s) && NumberValue(s) == n && s[0] != '#' && s[0] != '.'
            && forall i :: 0 <= i < |s| ==> !EndsAtom(s[i])
  {
    DecimalDigits(n);
    DigitsPlain(Decimal(n));
  }

  lemma NegativeReads(n: nat)
    ensures var s := "-" + Decimal(n);
            && Numeric(s) && NumberValue(s) + n == 0 && s[0] != '#' && s[0] != '.'
            && forall i :: 0 <= i < |s| ==> !EndsAtom(s[i])
  {
    var s := "-" + Decimal(n);
    DecimalDigits(n);
    DigitsPlain(Decimal(n));
    assert s[1..] == Decimal(n) && s[0] == '-';
  }

  lemma IntReads(n: int)
    ensures Numeric(IntText(n)) && NumberValue(IntText(n)) == n
    ensures forall i :: 0 <= i < |IntText(n)| ==> !EndsAtom(IntText(n)[i])
    ensures IntText(n)[0] != '#' && IntText(n)[0] != '.'
  {
    if n < 0 {
      NegativeReads(-n);
    } else {
      NaturalReads(n);
    }
  }

  lemma NotWords(tok: string)
    requires Numeric(tok)
    ensures tok != "nil" && tok != "true" && tok != "false"
  {
  }

  /** Values that are read back, but for truth values and empty lists, whose texts are read as symbols. */
  predicate Echoes(d: Datum)
    decreases d
  {
    match d
    case Str(s) => forall i :: 0 <= i < |s| ==> s[i] != '"' && s[i] != '\\'
    case Sym(y) => PlainSymbol(y)
    case Pair(a, rest) => Echoes(a) && Echoes(rest)
    case Vec(es) => forall i :: 0 <= i < |es| ==> Echoes(es[i])
    case Eof => false
    case _ => true
  }

  /** What the text of a value is read as. */
  function Reread(d: Datum): Datum
    decreases d, 0
  {
    match d
    case Nil => Sym(Intern(Print(d)))
    case Bool(_) => Sym(Intern(Print(d)))
    case Pair(a, rest) => Pair(Reread(a), if rest.Nil? then Nil else Reread(rest))
    case Vec(es) => Vec(RereadAll(es))
    case _ => d
  }

  function RereadAll(es: seq<Datum>): seq<Datum>
    decreases es, 1
  {
    if es == [] then [] else [Reread(es[0])] + RereadAll(es[1..])
  }

  lemma {:induction false} ReadableEchoes(d: Datum)
    requires Readable(d)
    ensures Echoes(d) && Reread(d) == d
    decreases d
  {
    match d
    case Pair(a, rest) =>
      ReadableEchoes(a);
      if !rest.Nil? { ReadableEchoes(rest); }
    case Vec(es) =>
      forall i | 0 <= i < |es| ensures Echoes(es[i]) && Reread(es[i]) == es[i] {
        ReadableEchoes(es[i]);
      }
      RereadSame(es);
    case _ =>
  }

  lemma {:induction false} RereadSame(es: seq<Datum>)
    requires forall i :: 0 <= i < |es| ==> Reread(es[i]) == es[i]
    ensures RereadAll(es) == es
  {
    if es != [] {
      RereadSame(es[1..]);
    }
  }

  // ---- What is printed is written ----

  function SyntaxOf(d: Datum): Syntax
    decreases d, 0
  {
    match d
    case Str(s) => Literal(PlainParts(s), Closed)
    case Pair(a, rest) => Parens(Item("", SyntaxOf(a), ItemsAfter(rest)))
    case Vec(es) => HashParens("", ItemsFrom(es, true))
    case _ => Word(Print(d))
  }

  function ItemsAfter(d: Datum): Items
    decreases d, 1
  {
    match d
    case Nil => End("")
    case Pair(a, rest) => Item(" ", SyntaxOf(a), ItemsAfter(rest))
    case _ => Dot(" ", " ", SyntaxOf(d), "")
  }

  function ItemsFrom(es: seq<Datum>, first: bool): Items
    decreases es, 1
  {
    if es == [] then End("") else Item(if first then "" else " ", SyntaxOf(es[0]), ItemsFrom(es[1..], false))
  }

  function PlainParts(s: string): seq<Part> {
    if s == [] then [] else [Plain(s[0])] + PlainParts(s[1..])
  }

  /** y is written as the text and denotes d, and may stand before anything that ends a word, and in lists. */
  predicate Prints(y: Syntax, text: string, d: Datum) {
    && WellWritten(y) && Written(y) == text && Value(y) == d && MayPrecede(y, ")") && MayPrecede(y, " ")
    && MayPrecede(y, []) && !Begins(text, ')') && !Begins(text, '.')
  }

  lemma WordPrints(tok: string)
    requires tok != [] && tok[0] != '#' && tok[0] != '.' && forall i :: 0 <= i < |tok| ==> !EndsAtom(tok[i])
    ensures Prints(Word(tok), tok, WordValue(tok))
  {
  }

  /** The texts of truth values and of the empty list are those of symbols. */
  lemma NamePrints(tok: string)
    requires tok == "NIL" || tok == "TRUE" || tok == "FALSE"
    ensures Prints(Word(tok), tok, Sym(Intern(tok)))
  {
    assert !IsDigit(tok[0]) && !Signed(tok);
    assert tok[0] == 'N' || tok[0] == 'T' || tok[0] == 'F';
    WordPrints(tok);
  }

  lemma {:induction false} PrintedIsWritten(d: Datum)
    requires Echoes(d)
    ensures Prints(SyntaxOf(d), Print(d), Reread(d))
    decreases d, 0
  {
    match d
    case Nil => NamePrints(Print(d));
    case Bool(_) => NamePrints(Print(d));
    case Int(n) =>
      IntReads(n);
      NotWords(IntText(n));
      WordPrints(Print(d));
    case Sym(y) =>
      InternText(y);
      WordPrints(Print(d));
    case Str(s) =>
      PlainIsWritten(s);
      LiteralPrints(s);
    case Pair(a, rest) =>
      PrintedIsWritten(a);
      RestIsWritten(rest);
      ItemPrints("", SyntaxOf(a), Print(a), Reread(a), ItemsAfter(rest), After(rest) + ")", true);
      ParensPrint(Item("", SyntaxOf(a), ItemsAfter(rest)), Print(a), After(rest), Reread(d));
    case Vec(es) =>
      ElementsAreWritten(es, true);
      HashParensPrint(ItemsFrom(es, true), Elements(es), Reread(d));
  }

  lemma LiteralPrints(s: string)
    requires WellWritten(Literal(PlainParts(s), Closed))
    requires PartsWritten(PlainParts(s)) == s == PartsValue(PlainParts(s))
    ensures Prints(Literal(PlainParts(s), Closed), "\"" + s + "\"", Str(s))
  {
    assert s + "" == s;
  }

  lemma ParensPrint(i: Items, text: string, after: string, d: Datum)
    requires ItemsWell(i, true) && ItemsWritten(i) == "" + text + (after + ")") && ListValue(i) == d
    ensures Prints(Parens(i), "(" + text + after + ")", d)
  {
    assert "(" + ("" + text + (after + ")")) == "(" + text + after + ")";
  }

  lemma HashParensPrint(i: Items, text: string, d: Datum)
    requires ItemsWell(i, false) && ItemsWritten(i) == text + ")" && Vec(ElementsOf(i)) == d
    ensures Prints(HashParens("", i), "#(" + text + ")", d)
  {
    assert "#" + "" + "(" + (text + ")") == "#(" + text + ")";
  }

  lemma {:induction false} PlainIsWritten(s: string)
    requires forall i :: 0 <= i < |s| ==> s[i] != '"' && s[i] != '\\'
    ensures WellWritten(Literal(PlainParts(s), Closed)) && PartsWritten(PlainParts(s)) == s == PartsValue(PlainParts(s))
  {
    if s != [] {
      PlainIsWritten(s[1..]);
      assert PlainParts(s)[1..] == PlainParts(s[1..]) && s == [s[0]] + s[1..];
    }
  }

  /** A printed item and what follows it. */
  lemma ItemPrints(gap: string, y: Syntax, text: string, d: Datum, more: Items, later: string, dots: bool)
    requires Prints(y, text, d) && (gap == "" || gap == " ")
    requires ItemsWell(more, dots) && ItemsWritten(more) == later && (Begins(later, ')') || Begins(later, ' '))
    ensures ItemsWell(Item(gap, y, more), dots) && ItemsWritten(Item(gap, y, more)) == gap + text + later
  {
    assert gap == " " ==> gap[1..] == "";
    PrecedesLonger(y, [later[0]], later[1..]);
    assert [later[0]] + later[1..] == later;
  }

  lemma {:induction false} RestIsWritten(d: Datum)
    requires Echoes(d)
    ensures var i := ItemsAfter(d);
            && ItemsWell(i, true) && ItemsWritten(i) == After(d) + ")"
            && ListValue(i) == (if d.Nil? then Nil else Reread(d))
    ensures Begins(After(d) + ")", ')') || Begins(After(d) + ")", ' ')
    decreases d, 1
  {
    if d.Pair? {
      var a, rest := d.car, d.cdr;
      PrintedIsWritten(a);
      RestIsWritten(rest);
      ItemPrints(" ", SyntaxOf(a), Print(a), Reread(a), ItemsAfter(rest), After(rest) + ")", true);
      Grouped(" ", Print(a), After(rest));
    } else if !d.Nil? {
      PrintedIsWritten(d);
      DotPrints(SyntaxOf(d), Print(d), Reread(d));
    }
  }

  lemma DotPrints(y: Syntax, text: string, d: Datum)
    requires Prints(y, text, d)
    ensures var i := Dot(" ", " ", y, "");
            ItemsWell(i, true) && ItemsWritten(i) == " . " + text + ")" && ListValue(i) == d
  {
    assert (" ")[1..] == "" && "" + ")" == ")";
    assert " " + "." + " " + text + "" + ")" == " . " + text + ")";
  }

  lemma {:induction false} ElementsAreWritten(es: seq<Datum>, first: bool)
    requires forall i :: 0 <= i < |es| ==> Echoes(es[i])
    ensures var i := ItemsFrom(es, first);
            && ItemsWell(i, false) && ElementsOf(i) == RereadAll(es)
            && ItemsWritten(i) == (if first then Elements(es) else MoreElements(es)) + ")"
    ensures !first ==> Begins(MoreElements(es) + ")", ')') || Begins(MoreElements(es) + ")", ' ')
    decreases es, 1
  {
    if es != [] {
      PrintedIsWritten(es[0]);
      ElementsAreWritten(es[1..], false);
      var gap, more := if first then "" else " ", MoreElements(es[1..]);
      ItemPrints(gap, SyntaxOf(es[0]), Print(es[0]), Reread(es[0]), ItemsFrom(es[1..], false), more + ")", false);
      Grouped(gap, Print(es[0]), more);
    }
  }

  lemma Grouped(gap: string, text: string, more: string)
    ensures gap + text + (more + ")") == gap + text + more + ")"
    ensures gap == "" ==> gap + text + more == text + more
  {
    assert gap == "" ==> gap + text == text;
  }

  lemma {:induction false} PrecedesAny(y: Syntax, rest: string)
    requires MayPrecede(y, ")") && MayPrecede(y, " ") && MayPrecede(y, []) && Delimited(rest)
    ensures MayPrecede(y, rest)
    decreases y
  {
    match y
    case Quotation(_, _, inner) => PrecedesAny(inner, rest);
    case Splicing(_, _, inner) => PrecedesAny(inner, rest);
    case _ =>
  }

  /** What is printed, alone or before something that ends a word, is read as `Reread` says. */
  lemma PrintedIsRead(d: Datum, rest: string)
    requires Echoes(d) && Delimited(rest)
    ensures Expr(Print(d) + rest) == Read(Reread(d), rest)
    ensures Readable(d) ==> Reread(d) == d
  {
    PrintedIsWritten(d);
    WrittenIsRead(SyntaxOf(d), Print(d), Reread(d), rest);
    if Readable(d) {
      ReadableEchoes(d);
    }
  }

  lemma WrittenIsRead(y: Syntax, text: string, d: Datum, rest: string)
    requires Prints(y, text, d) && Delimited(rest)
    ensures Expr(text + rest) == Read(d, rest)
  {
    PrecedesAny(y, rest);
    assert "" + text + rest == text + rest;
    ReadingIsExact(text + rest);
    assert StartsWith(text + rest, "", y, rest);
  }

  // ---- The reader ----

  /** What reading reports. */
  type Report = Result<Option<Datum>, ReadError>

  predicate Tells(o: Outcome, r: Report, left: string) {
    match o
    case Read(d, rest) => r == Ok(Some(d)) && left == rest
    case AtEnd => r == Ok(None) && left == []
    case Failed(e) => r == Err(e)
  }

  /** The report is right: any datum written at the start of the text has been read, up to its end; a datum read is
      written there; and there is none exactly where there is only layout. */
  ghost predicate Right(text: string, r: Report, left: string) {
    && (forall gap, y, rest :: StartsWith(text, gap, y, rest) ==> r == Ok(Some(Value(y))) && left == rest)
    && (r.Ok? && r.value.Some? ==> exists gap, y :: StartsWith(text, gap, y, left) && Value(y) == r.value.value)
    && (r == Ok(None) <==> Trailing(text))
  }

  lemma TellsRight(text: string, r: Report, left: string)
    requires Tells(Expr(text), r, left)
    ensures Right(text, r, left)
  {
    ReadingIsExact(text);
  }

  class Reader {
    const s: string
    var p: nat

    constructor (text: string)
      ensures s == text && p == 0
    {
      s, p := text, 0;
    }

    ghost predicate Valid()
      reads this
    {
      p <= |s|
    }

    ghost function Ahead(): string
      requires Valid()
      reads this
    {
      s[p..]
    }

    /** `skip_ws`: past space and comments. */
    method SkipSpace()
      requires Valid()
      modifies this`p
      ensures Valid() && old(p) <= p && Ahead() == Skip(old(Ahead()))
    {
      while p < |s| && (IsSpace(s[p]) || s[p] == ';')
        invariant Valid() && old(p) <= p && Skip(Ahead()) == Skip(old(Ahead()))
        decreases |s| - p
      {
        assert s[p..][1..] == s[p + 1..];
        if IsSpace(s[p]) {
          p := p + 1;
        } else {
          ghost var comment := s[p + 1..];
          p := p + 1;
          while p < |s| && s[p] != '\n'
            invariant Valid() && old(p) < p && LineEnd(Ahead()) == LineEnd(comment)
            decreases |s| - p
          {
            assert s[p..][1..] == s[p + 1..];
            p := p + 1;
          }
        }
      }
    }

    /** `peek` and `get`: the next character, or a null character at the end. */
    method Peek() returns (c: char)
      requires Valid()
      modifies this`p
      ensures Valid() && old(p) <= p && Ahead() == Skip(old(Ahead()))
      ensures c == if Ahead() == [] then 0 as char else Ahead()[0]
    {
      SkipSpace();
      c := if p < |s| then s[p] else 0 as char;
    }

    method Get() returns (c: char)
      requires Valid()
      modifies this`p
      ensures Valid() && old(p) <= p
      ensures if old(Ahead()) == [] then c == 0 as char && Ahead() == [] && p == old(p)
              else c == old(Ahead())[0] && Ahead() == old(Ahead())[1..] && p == old(p) + 1
    {
      c := 0 as char;
      if p < |s| {
        c := s[p];
        p := p + 1;
      }
    }

    /** The end of `read_atom`: what a word stands for. */
    method WordMeans(tok: string) returns (x: Datum)
      requires tok != []
      ensures x == WordValue(tok)
    {
      if tok == "nil" {
        return Nil;
      }
      if tok == "true" {
        return Bool(true);
      }
      if tok == "false" {
        return Bool(false);
      }
      var signed := tok[0] == '-' || tok[0] == '+';
      if IsDigit(tok[0]) || (signed && |tok| > 1) {
        var first, i, all := if signed then 1 else 0, if signed then 1 else 0, true;
        while i < |tok| && all
          invariant first <= i <= |tok|
          invariant all ==> forall j :: first <= j < i ==> IsDigit(tok[j])
          invariant !all ==> i < |tok| && !IsDigit(tok[i])
          decreases |tok| - i, all
        {
          if IsDigit(tok[i]) {
            i := i + 1;
          } else {
            all := false;
          }
        }
        NumericFrom(tok, first, all, i);
        if all {
          return Int(NumberValue(tok));
        }
      } else {
        NotNumeric(tok);
      }
      return Sym(Intern(tok));
    }

    /** `read_atom`, its first character read. */
    method ReadAtom(first: char) returns (x: Datum)
      requires Valid()
      modifies this`p
      ensures Valid() && old(p) <= p
      ensures var tok := Token(old(Ahead()));
              x == WordValue([first] + tok) && Ahead() == old(Ahead())[|tok|..]
    {
      var tok := [first];
      assert Token(Ahead()) == Token(Ahead());
      while p < |s| && !EndsAtom(s[p])
        invariant Valid() && old(p) <= p && [first] + Token(old(Ahead())) == tok + Token(Ahead())
        invariant |tok| == 1 + p - old(p)
        decreases |s| - p
      {
        assert s[p..][1..] == s[p + 1..];
        assert tok + ([s[p]] + Token(s[p + 1..])) == tok + [s[p]] + Token(s[p + 1..]);
        tok := tok + [s[p]];
        p := p + 1;
      }
      assert tok + Token(Ahead()) == tok;
      assert |Token(old(Ahead()))| == p - old(p);
      x := WordMeans(tok);
    }

    /** `read_string`, its opening quote read. */
    method ReadString() returns (x: Datum)
      requires Valid()
      modifies this`p
      ensures Valid() && old(p) <= p
      ensures x == Str(Characters(old(Ahead()), []).0) && Ahead() == Characters(old(Ahead()), []).1
    {
      var out := "";
      while p < |s|
        invariant Valid() && old(p) <= p && Characters(old(Ahead()), []) == Characters(Ahead(), out)
        decreases |s| - p
      {
        ghost var t := Ahead();
        var c := Get();
        if c == '"' {
          return Str(out);
        }
        if c == '\\' && p < |s| {
          var n := Get();
          assert Ahead() == t[2..];
          out := out + [if n == 'n' then '\n' else n];
        } else {
          out := out + [c];
        }
      }
      x := Str(out);
    }

    /** `read_expr`: the next expression, or none at the end of the text. */
    method ReadExpr() returns (r: Report)
      requires Valid()
      modifies this`p
      ensures Valid() && old(p) <= p && (r.Ok? && r.value.Some? ==> p > old(p))
      ensures Tells(Expr(old(Ahead())), r, Ahead()) && Right(old(Ahead()), r, Ahead())
      decreases |s| - p, 1
    {
      ghost var text := Ahead();
      SkipSpace();
      if p >= |s| {
        TellsRight(text, Ok(None), Ahead());
        return Ok(None);
      }
      ghost var u := Ahead();
      var c := Get();
      if c == '#' {
        r := ReadHash();
      } else if c == '(' {
        r := ReadList();
      } else if c == '\'' || c == '`' || c == ',' {
        r := ReadQuoted(c);
      } else if c == '"' {
        var x := ReadString();
        r := Ok(Some(x));
      } else {
        var x := ReadAtom(c);
        r := Ok(Some(x));
      }
      FormTells(u, c, r, Ahead());
      TellsRight(text, r, Ahead());
    }

    /** A quotation, its first character read. */
    method ReadQuoted(c: char) returns (r: Report)
      requires Valid() && (c == '\'' || c == '`' || c == ',')
      modifies this`p
      ensures Valid() && old(p) <= p && Tells(Form([c] + old(Ahead())), r, Ahead())
      decreases |s| - p, 2
    {
      ghost var v := Ahead();
      assert ([c] + v)[1..] == v;
      var k := if c == '\'' then Keyword.Quote else if c == '`' then Keyword.Quasiquote else Keyword.Unquote;
      if c == ',' {
        var next := Peek();
        if next == '@' {
          var _ := Get();
          k := Keyword.Splice;
        }
      }
      var x :- ReadExpr();
      match x
      case None => return Err(UnexpectedEof);
      case Some(y) => return Ok(Some(ListOf([Sym(Known(k)), y])));
    }

    /** What starts with `#`, which is read. */
    method ReadHash() returns (r: Report)
      requires Valid()
      modifies this`p
      ensures Valid() && old(p) <= p && Tells(Hash(old(Ahead())), r, Ahead())
      decreases |s| - p, 3
    {
      var next := Peek();
      if next == '(' {
        var _ := Get();
        r := ReadVector();
      } else if next == 't' || next == 'T' {
        var _ := Get();
        r := Ok(Some(Bool(true)));
      } else if next == 'f' || next == 'F' {
        var _ := Get();
        r := Ok(Some(Bool(false)));
      } else {
        var x := ReadAtom('#');
        r := Ok(Some(x));
      }
    }

    /** `read_vector`. */
    method ReadVector() returns (r: Report)
      requires Valid()
      modifies this`p
      ensures Valid() && old(p) <= p && Tells(Sequence(old(Ahead()), [], false), r, Ahead())
      decreases |s| - p, 3
    {
      var items: seq<Datum> := [];
      while true
        invariant Valid() && old(p) <= p
        invariant Sequence(old(Ahead()), [], false) == Sequence(Ahead(), items, false)
        decreases |s| - p
      {
        ghost var t := Ahead();
        SkipSpace();
        if p >= |s| {
          return Err(UnexpectedEof);
        }
        SkipTwice(t);
        var c := Peek();
        if c == ')' {
          var _ := Get();
          return Ok(Some(Vec(items)));
        }
        var x :- ReadExpr();
        match x
        case None => return Err(UnexpectedEof);
        case Some(y) =>
          items := items + [y];
      }
    }

    /** `read_list`. */
    method ReadList() returns (r: Report)
      requires Valid()
      modifies this`p
      ensures Valid() && old(p) <= p && Tells(Sequence(old(Ahead()), [], true), r, Ahead())
      decreases |s| - p, 3
    {
      var items: seq<Datum> := [];
      while true
        invariant Valid() && old(p) <= p
        invariant Sequence(old(Ahead()), [], true) == Sequence(Ahead(), items, true)
        decreases |s| - p
      {
        ghost var t := Ahead();
        SkipSpace();
        if p >= |s| {
          return Err(UnexpectedEof);
        }
        SkipTwice(t);
        var c := Peek();
        if c == ')' {
          var _ := Get();
          return Ok(Some(Attach(items, Nil)));
        }
        if c == '.' {
          var _ := Get();
          r := ReadTail(items);
          return r;
        }
        var x :- ReadExpr();
        match x
        case None => return Err(UnexpectedEof);
        case Some(y) =>
          items := items + [y];
      }
    }

    /** What follows the dot of a list, which is read. */
    method ReadTail(items: seq<Datum>) returns (r: Report)
      requires Valid()
      modifies this`p
      ensures Valid() && old(p) <= p && Tells(Tail(old(Ahead()), items), r, Ahead())
      decreases |s| - p, 2
    {
      var x :- ReadExpr();
      match x
      case None => return Err(UnexpectedEof);
      case Some(tail) =>
        SkipSpace();
        var close := Get();
        if close != ')' {
          return Err(ExpectedParen);
        }
        var out := PairUp(items, tail);
        return Ok(Some(out));
    }
  }

  /** The pairs that a dotted list makes, from the last. */
  method PairUp(items: seq<Datum>, tail: Datum) returns (out: Datum)
    ensures out == Attach(items, tail)
  {
    out := tail;
    var i := |items|;
    assert items[..i] == items;
    while i > 0
      invariant 0 <= i <= |items| && Attach(items, tail) == Attach(items[..i], out)
    {
      AttachLast(items, i, out);
      i := i - 1;
      out := Pair(items[i], out);
    }
    assert items[..0] == [];
  }

  lemma AttachLast(items: seq<Datum>, i: nat, out: Datum)
    requires 0 < i <= |items|
    ensures Attach(items[..i], out) == Attach(items[..i - 1], Pair(items[i - 1], out))
  {
    assert items[..i] == items[..i - 1] + [items[i - 1]];
    AttachMore(items[..i - 1], items[i - 1], out);
  }

  lemma NotNumeric(tok: string)
    requires tok != [] && !IsDigit(tok[0]) && (Signed(tok) ==> |tok| == 1)
    ensures !Numeric(tok)
  {
  }

  lemma NumericFrom(tok: string, first: nat, all: bool, i: nat)
    requires tok != [] && first == (if Signed(tok) then 1 else 0) && (Signed(tok) ==> |tok| > 1)
    requires if all then i == |tok| && forall j :: first <= j < i ==> IsDigit(tok[j])
             else first <= i < |tok| && !IsDigit(tok[i])
    ensures Numeric(tok) <==> all
  {
    if Signed(tok) && !all {
      assert tok[1..][i - 1] == tok[i];
    }
  }

  /** Reading goes on as the first character says. */
  lemma FormTells(u: string, c: char, r: Report, left: string)
    requires u != [] && c == u[0]
    requires c == '#' ==> Tells(Hash(u[1..]), r, left)
    requires c == '(' ==> Tells(Sequence(u[1..], [], true), r, left)
    requires c == '\'' || c == '`' || c == ',' ==> Tells(Form([c] + u[1..]), r, left)
    requires c == '"' ==> r == Ok(Some(Str(Characters(u[1..], []).0))) && left == Characters(u[1..], []).1
    requires c !in "#('`,\"" ==> var tok := Token(u[1..]);
                                 r == Ok(Some(WordValue([c] + tok))) && left == u[1..][|tok|..]
    ensures Tells(Form(u), r, left)
  {
    assert u == [c] + u[1..];
  }
}
