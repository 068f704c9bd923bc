/** Reading, as a function of the text ahead, and its relation to the written form of data. */
module Reading {
  import opened Datums
  import opened Symbols
  import opened Grammar

  /** Why reading fails. */
  datatype ReadError = UnexpectedEof | ExpectedParen

  /** A datum and the text after it; or there is none. */
  datatype Outcome = Read(d: Datum, rest: string) | AtEnd | Failed(e: ReadError)

  // ---- The pieces ----

  /** The text after the layout that comes first. */
  function Skip(t: string): (u: string)
    ensures |u| <= |t| && (u != [] ==> !IsSpace(u[0]) && u[0] != ';')
    decreases |t|
  {
    if t == [] then []
    else if IsSpace(t[0]) then Skip(t[1..])
    else if t[0] == ';' then Skip(LineEnd(t[1..]))
    else t
  }

  function LineEnd(t: string): (u: string)
    ensures |u| <= |t|
  {
    if t == [] || t[0] == '\n' then t else LineEnd(t[1..])
  }

  /** The characters up to one that ends a word. */
  function Token(t: string): (tok: string)
    ensures |tok| <= |t|
  {
    if t == [] || EndsAtom(t[0]) then [] else [t[0]] + Token(t[1..])
  }

  /** The rest of a string literal, after `out`, and the text after it. */
  function Characters(t: string, out: string): (r: (string, string))
    ensures |r.1| <= |t|
    decreases |t|
  {
    if t == [] then (out, [])
    else if t[0] == '"' then (out, t[1..])
    else if t[0] == '\\' && |t| > 1 then Characters(t[2..], out + [if t[1] == 'n' then '\n' else t[1]])
    else Characters(t[1..], out + [t[0]])
  }

  /** A list of the items that goes on with c. */
  function Attach(items: seq<Datum>, c: Datum): Datum {
    if items == [] then c else Pair(items[0], Attach(items[1..], c))
  }

  lemma {:induction false} AttachMore(items: seq<Datum>, x: Datum, c: Datum)
    ensures Attach(items + [x], c) == Attach(items, Pair(x, c))
  {
    if items == [] {
      assert (items + [x])[1..] == [];
    } else {
      AttachMore(items[1..], x, c);
      assert (items + [x])[1..] == items[1..] + [x];
    }
  }

  // ---- Expressions ----

  function Expr(t: string): (r: Outcome)
    ensures r.Read? ==> |r.rest| < |t|
    decreases |t|, 2
  {
    var u := Skip(t);
    if u == [] then AtEnd else Form(u)
  }

  function Form(u: string): (r: Outcome)
    requires u != []
    ensures !r.AtEnd? && (r.Read? ==> |r.rest| < |u|)
    decreases |u|, 1
  {
    var v := u[1..];
    match u[0]
    case '#' => Hash(v)
    case '(' => Sequence(v, [], true)
    case '\'' => Quoted(Quote, Expr(v))
    case '`' => Quoted(Quasiquote, Expr(v))
    case ',' =>
      var w := Skip(v);
      if Begins(w, '@') then Quoted(Splice, Expr(w[1..])) else Quoted(Unquote, Expr(w))
    case '"' =>
      var (out, rest) := Characters(v, []);
      Read(Str(out), rest)
    case c => Read(WordValue([c] + Token(v)), v[|Token(v)|..])
  }

  function Quoted(k: Keyword, x: Outcome): (r: Outcome)
    ensures !r.AtEnd? && (r.Read? <==> x.Read?) && (r.Read? ==> r.rest == x.rest)
  {
    match x
    case Read(d, rest) => Read(ListOf([Sym(Known(k)), d]), rest)
    case AtEnd => Failed(UnexpectedEof)
    case Failed(e) => Failed(e)
  }

  /** After `#`. */
  function Hash(v: string): (r: Outcome)
    ensures !r.AtEnd? && (r.Read? ==> |r.rest| <= |v|)
    decreases |v|, 3
  {
    var w := Skip(v);
    if Begins(w, '(') then Sequence(w[1..], [], false)
    else if Begins(w, 't') || Begins(w, 'T') then Read(Bool(true), w[1..])
    else if Begins(w, 'f') || Begins(w, 'F') then Read(Bool(false), w[1..])
    else Read(WordValue("#" + Token(w)), w[|Token(w)|..])
  }

  /** The rest of a list, where dots mean something, or of a vector, after some items. */
  function Sequence(t: string, items: seq<Datum>, dots: bool): (r: Outcome)
    ensures !r.AtEnd? && (r.Read? ==> |r.rest| < |t|)
    decreases |t|, 3
  {
    var u := Skip(t);
    if u == [] then Failed(UnexpectedEof)
    else if u[0] == ')' then Read(if dots then Attach(items, Nil) else Vec(items), u[1..])
    else if u[0] == '.' && dots then Tail(u[1..], items)
    else
      match Form(u)
      case Read(d, rest) => Sequence(rest, items + [d], dots)
      case r => r
  }

  /** After the dot of a list. */
  function Tail(t: string, items: seq<Datum>): (r: Outcome)
    ensures !r.AtEnd? && (r.Read? ==> |r.rest| < |t|)
    decreases |t|, 3
  {
    match Expr(t)
    case Read(d, rest) =>
      var w := Skip(rest);
      if Begins(w, ')') then Read(Attach(items, d), w[1..]) else Failed(ExpectedParen)
    case AtEnd => Failed(UnexpectedEof)
    case Failed(e) => Failed(e)
  }

  // ---- One step ----

  /** An expression that comes next, without layout before it. */
  predicate ReadsAs(u: string, d: Datum, rest: string) {
    u != [] && Form(u) == Read(d, rest)
  }

  lemma WordStep(u: string)
    requires u != [] && u[0] != '#' && (EndsAtom(u[0]) ==> u[0] == ')')
    ensures Form(u) == Read(WordValue([u[0]] + Token(u[1..])), u[1..][|Token(u[1..])|..])
  {
  }

  lemma HashStep(v: string)
    ensures Form("#" + v) == Hash(v)
  {
    assert ("#" + v)[1..] == v;
  }

  /** Nothing else that starts with `#` goes on like this. */
  predicate HashWordGoesOn(w: string) {
    w == [] || (w[0] != '(' && w[0] !in "tTfF")
  }

  lemma HashWordStep(v: string, tok: string, rest: string)
    requires Skip(v) == tok + rest && HashWordGoesOn(tok + rest) && Token(tok + rest) == tok
    ensures Form("#" + v) == Read(Sym(Intern("#" + tok)), rest)
  {
    HashStep(v);
    assert (tok + rest)[|tok|..] == rest;
    HashIsName(tok);
  }

  lemma HashIsName(tok: string)
    ensures WordValue("#" + tok) == Sym(Intern("#" + tok))
  {
    assert ("#" + tok)[0] == '#' && !IsDigit(("#" + tok)[0]);
  }

  lemma LiteralStep(v: string)
    ensures Form("\"" + v) == Read(Str(Characters(v, []).0), Characters(v, []).1)
  {
    assert ("\"" + v)[1..] == v;
  }

  lemma ParensStep(v: string)
    ensures Form("(" + v) == Sequence(v, [], true)
  {
    assert ("(" + v)[1..] == v;
  }

  lemma QuoteStep(k: Keyword, v: string)
    requires k == Quote || k == Quasiquote
    ensures Form([Mark(k)] + v) == Quoted(k, Expr(v))
  {
    assert ([Mark(k)] + v)[1..] == v;
  }

  lemma CommaStep(v: string, w: string)
    requires w == Skip(v)
    ensures Form("," + v) == if Begins(w, '@') then Quoted(Splice, Expr(w[1..])) else Quoted(Unquote, Expr(w))
  {
    assert ("," + v)[1..] == v;
  }

  lemma ItemStep(t: string, u: string, items: seq<Datum>, dots: bool, d: Datum, rest: string)
    requires Skip(t) == u != [] && u[0] != ')' && !(u[0] == '.' && dots) && Form(u) == Read(d, rest)
    ensures Sequence(t, items, dots) == Sequence(rest, items + [d], dots)
  {
  }

  lemma DotStep(t: string, v: string, items: seq<Datum>)
    requires Skip(t) == "." + v
    ensures Sequence(t, items, true) == Tail(v, items)
  {
    assert ("." + v)[1..] == v;
  }

  lemma TailStep(t: string, items: seq<Datum>, d: Datum, rest: string, left: string)
    requires Expr(t) == Read(d, rest) && Skip(rest) == ")" + left
    ensures Tail(t, items) == Read(Attach(items, d), left)
  {
    assert (")" + left)[1..] == left;
  }

  lemma EndStep(t: string, items: seq<Datum>, dots: bool, rest: string)
    requires Skip(t) == ")" + rest
    ensures Sequence(t, items, dots) == Read(if dots then Attach(items, Nil) else Vec(items), rest)
  {
    assert (")" + rest)[1..] == rest;
  }

  // ---- What is written is read ----

  lemma {:induction false} LayoutSkipped(g: string, t: string)
    ensures Layout(g) ==> Skip(g + t) == Skip(t)
    ensures InComment(g) ==> Skip(LineEnd(g + t)) == Skip(t)
    decreases |g|
  {
    if g == [] {
      assert g + t == t;
    } else {
      LayoutSkipped(g[1..], t);
      assert (g + t)[1..] == g[1..] + t && (g + t)[0] == g[0];
    }
  }

  lemma {:induction false} TrailingSkipped(g: string)
    ensures Layout(g + "\n") ==> Skip(g) == []
    ensures InComment(g + "\n") ==> Skip(LineEnd(g)) == []
    decreases |g|
  {
    if g != [] {
      TrailingSkipped(g[1..]);
      assert (g + "\n")[1..] == g[1..] + "\n" && (g + "\n")[0] == g[0];
    }
  }

  lemma {:induction false} TokenRead(tok: string, rest: string)
    requires Delimited(rest) && forall i :: 0 <= i < |tok| ==> !EndsAtom(tok[i])
    ensures Token(tok + rest) == tok && (tok + rest)[|tok|..] == rest
    decreases |tok|
  {
    if tok == [] {
      assert tok + rest == rest;
    } else {
      var more := tok[1..];
      TokenRead(more, rest);
      assert tok + rest == [tok[0]] + (more + rest) && (tok + rest)[1..] == more + rest;
    }
  }

  lemma {:induction false} LiteralRead(parts: seq<Part>, ending: Ending, out: string, rest: string)
    requires WellWritten(Literal(parts, ending)) && MayPrecede(Literal(parts, ending), rest)
    ensures Characters(PartsWritten(parts) + EndingWritten(ending) + rest, out)
            == (out + PartsValue(parts) + if ending == Backslash then "\\" else "", rest)
    decreases |parts|
  {
    var t := PartsWritten(parts) + EndingWritten(ending) + rest;
    if parts == [] {
      EndingRead(ending, out, rest);
      assert t == EndingWritten(ending) + rest && out + PartsValue(parts) == out;
    } else {
      var more := PartsWritten(parts[1..]) + EndingWritten(ending) + rest;
      var out' := out + [PartValue(parts[0])];
      LiteralMore(parts[0], parts[1..], ending, out, rest);
      assert [parts[0]] + parts[1..] == parts;
      assert t[|PartWritten(parts[0])|..] == more;
      LiteralRead(parts[1..], ending, out', rest);
    }
  }

  lemma EndingRead(ending: Ending, out: string, rest: string)
    requires ending == Closed || rest == []
    ensures Characters(EndingWritten(ending) + rest, out) == (out + if ending == Backslash then "\\" else "", rest)
  {
    var t := EndingWritten(ending) + rest;
    match ending
    case Closed => assert t[1..] == rest && out + "" == out;
    case Open => assert t == [] && out + "" == out;
    case Backslash => assert t == "\\" && t[1..] == [];
  }

  lemma WrittenStarts(y: Syntax)
    requires WellWritten(y)
    ensures Written(y) != [] && !IsSpace(Written(y)[0]) && Written(y)[0] != ';'
  {
  }

  /** After layout, an expression is read as it is. */
  lemma AfterLayout(gap: string, y: Syntax, rest: string)
    requires Layout(gap) && WellWritten(y)
    ensures Skip(gap + Written(y) + rest) == Written(y) + rest != []
    ensures Expr(gap + Written(y) + rest) == Form(Written(y) + rest)
  {
    WrittenStarts(y);
    var u := Written(y) + rest;
    LayoutSkipped(gap, u);
    assert gap + Written(y) + rest == gap + u && u[0] == Written(y)[0];
  }

  /** Whatever is written is read as what it denotes. */
  lemma {:induction false} FormRead(y: Syntax, rest: string)
    requires WellWritten(y) && MayPrecede(y, rest)
    ensures ReadsAs(Written(y) + rest, Value(y), rest)
    decreases y
  {
    var u := Written(y) + rest;
    match y
    case Word(tok) => WordRead(tok, rest);
    case Truth(gap, mark) => TruthRead(gap, mark, rest);
    case HashWord(gap, tok) => HashWordRead(gap, tok, rest);
    case Literal(parts, ending) =>
      assert u == "\"" + (PartsWritten(parts) + EndingWritten(ending) + rest);
      LiteralStep(PartsWritten(parts) + EndingWritten(ending) + rest);
      LiteralRead(parts, ending, [], rest);
      assert [] + PartsValue(parts) == PartsValue(parts);
    case Quotation(k, gap, inner) =>
      FormRead(inner, rest);
      QuotationRead(k, gap, inner, rest);
    case Splicing(gap, gap', inner) =>
      FormRead(inner, rest);
      SplicingRead(gap, gap', inner, rest);
    case Parens(items) =>
      assert u == "(" + (ItemsWritten(items) + rest);
      ParensStep(ItemsWritten(items) + rest);
      SequenceRead(items, true, [], rest);
    case HashParens(gap, items) =>
      SequenceRead(items, false, [], rest);
      HashParensRead(gap, items, rest);
  }

  lemma WordRead(tok: string, rest: string)
    requires IsWord(tok) && Delimited(rest)
    ensures ReadsAs(tok + rest, WordValue(tok), rest)
  {
    var u := tok + rest;
    assert u[1..] == tok[1..] + rest && u[0] == tok[0] && [tok[0]] + tok[1..] == tok;
    TokenRead(tok[1..], rest);
    WordStep(u);
  }

  lemma TruthRead(gap: string, mark: char, rest: string)
    requires Layout(gap) && (mark == 't' || mark == 'T' || mark == 'f' || mark == 'F')
    ensures ReadsAs("#" + gap + [mark] + rest, Bool(mark == 't' || mark == 'T'), rest)
  {
    var u, w := "#" + gap + [mark] + rest, [mark] + rest;
    assert u == "#" + (gap + w) && w[1..] == rest;
    LayoutSkipped(gap, w);
    HashStep(gap + w);
  }

  lemma HashWordRead(gap: string, tok: string, rest: string)
    requires WellWritten(HashWord(gap, tok)) && MayPrecede(HashWord(gap, tok), rest)
    ensures ReadsAs("#" + gap + tok + rest, Sym(Intern("#" + tok)), rest)
  {
    var w := tok + rest;
    HashWordGrouped(gap, tok, rest);
    HashWordSkips(gap, tok, rest);
    TokenRead(tok, rest);
    HashWordStep(gap + w, tok, rest);
  }

  lemma HashWordSkips(gap: string, tok: string, rest: string)
    requires WellWritten(HashWord(gap, tok)) && MayPrecede(HashWord(gap, tok), rest)
    ensures Skip(gap + (tok + rest)) == tok + rest && Delimited(rest) && HashWordGoesOn(tok + rest)
  {
    var w := tok + rest;
    if w == [] {
      assert gap + w == gap;
      TrailingSkipped(gap);
    } else {
      assert w[0] == if tok == [] then rest[0] else tok[0];
      LayoutSkipped(gap, w);
    }
  }

  lemma QuotationRead(k: Keyword, gap: string, inner: Syntax, rest: string)
    requires WellWritten(Quotation(k, gap, inner)) && ReadsAs(Written(inner) + rest, Value(inner), rest)
    ensures ReadsAs([Mark(k)] + gap + Written(inner) + rest, Value(Quotation(k, gap, inner)), rest)
  {
    var u := [Mark(k)] + gap + Written(inner) + rest;
    var v, w := gap + Written(inner) + rest, Written(inner) + rest;
    QuotationGrouped([Mark(k)], gap, Written(inner), rest);
    AfterLayout(gap, inner, rest);
    if k == Unquote {
      WrittenStarts(inner);
      assert w[0] == Written(inner)[0] && Skip(w) == w;
      CommaStep(v, w);
    } else {
      QuoteStep(k, v);
    }
  }

  lemma SplicingRead(gap: string, gap': string, inner: Syntax, rest: string)
    requires WellWritten(Splicing(gap, gap', inner)) && ReadsAs(Written(inner) + rest, Value(inner), rest)
    ensures ReadsAs("," + gap + "@" + gap' + Written(inner) + rest, Value(Splicing(gap, gap', inner)), rest)
  {
    var v := gap' + Written(inner) + rest;
    SplicingGrouped(gap, gap', Written(inner), rest);
    SplicingStep(gap, v);
    AfterLayout(gap', inner, rest);
  }

  lemma SplicingStep(gap: string, v: string)
    requires Layout(gap)
    ensures Form("," + (gap + ("@" + v))) == Quoted(Splice, Expr(v))
  {
    LayoutSkipped(gap, "@" + v);
    CommaStep(gap + ("@" + v), "@" + v);
    assert ("@" + v)[1..] == v;
  }

  lemma HashParensRead(gap: string, items: Items, rest: string)
    requires Layout(gap) && Sequence(ItemsWritten(items) + rest, [], false) == Read(Vec([] + ElementsOf(items)), rest)
    ensures ReadsAs("#" + gap + "(" + ItemsWritten(items) + rest, Value(HashParens(gap, items)), rest)
  {
    var v := ItemsWritten(items) + rest;
    HashGrouped(gap, "(", ItemsWritten(items), rest);
    HashParensStep(gap, v);
    assert [] + ElementsOf(items) == ElementsOf(items);
  }

  lemma HashParensStep(gap: string, v: string)
    requires Layout(gap)
    ensures Form("#" + (gap + ("(" + v))) == Sequence(v, [], false)
  {
    LayoutSkipped(gap, "(" + v);
    HashStep(gap + ("(" + v));
    assert ("(" + v)[1..] == v;
  }

  /** What items make, after others. */
  function Built(items: seq<Datum>, i: Items, dots: bool): Datum {
    if dots then Attach(items, ListValue(i)) else Vec(items + ElementsOf(i))
  }

  lemma {:induction false} SequenceRead(i: Items, dots: bool, items: seq<Datum>, rest: string)
    requires ItemsWell(i, dots)
    ensures Sequence(ItemsWritten(i) + rest, items, dots) == Read(Built(items, i, dots), rest)
    decreases i
  {
    var t := ItemsWritten(i) + rest;
    match i
    case End(gap) =>
      assert t == gap + (")" + rest) && items + [] == items;
      LayoutSkipped(gap, ")" + rest);
      EndStep(t, items, dots, rest);
    case Dot(gap, gap', tail, gap'') =>
      var closing := gap'' + (")" + rest);
      DotIs(gap, gap', tail, gap'', rest);
      FormRead(tail, closing);
      AfterLayout(gap', tail, closing);
      DotRead(gap, gap' + Written(tail) + closing, gap'', items, Value(tail), rest);
    case Item(gap, y, more) =>
      var later := ItemsWritten(more) + rest;
      PrecedesLonger(y, ItemsWritten(more), rest);
      FormRead(y, later);
      SequenceRead(more, dots, items + [Value(y)], rest);
      BuiltMore(gap, y, more, dots, items);
      ItemGrouped(gap, Written(y), ItemsWritten(more), rest);
      WrittenStarts(y);
      ItemRead(gap, Written(y) + later, dots, items, Value(y), later);
  }

  lemma DotRead(gap: string, v: string, gap'': string, items: seq<Datum>, d: Datum, rest: string)
    requires Layout(gap) && Layout(gap'') && Expr(v) == Read(d, gap'' + (")" + rest))
    ensures Sequence(gap + ("." + v), items, true) == Read(Attach(items, d), rest)
  {
    LayoutSkipped(gap, "." + v);
    DotStep(gap + ("." + v), v, items);
    LayoutSkipped(gap'', ")" + rest);
    TailStep(v, items, d, gap'' + (")" + rest), rest);
  }

  lemma DotIs(gap: string, gap': string, tail: Syntax, gap'': string, left: string)
    requires Layout(gap) && Layout(gap') && Layout(gap'') && WellWritten(tail)
    ensures MayPrecede(tail, gap'' + (")" + left)) <==> ItemsWell(Dot(gap, gap', tail, gap''), true)
    ensures gap + ("." + (gap' + Written(tail) + (gap'' + (")" + left))))
            == ItemsWritten(Dot(gap, gap', tail, gap'')) + left
  {
    assert gap'' + (")" + left) == gap'' + ")" + left;
    PrecedesLonger(tail, gap'' + ")", left);
    DotGrouped(gap, gap', Written(tail), gap'', left);
  }

  lemma DotGrouped(gap: string, gap': string, w: string, gap'': string, rest: string)
    ensures gap + "." + gap' + w + gap'' + ")" + rest == gap + ("." + (gap' + w + (gap'' + ")" + rest)))
  {
    assert gap + "." + gap' + w + gap'' + ")" + rest == gap + "." + gap' + w + (gap'' + ")" + rest);
    assert gap + "." + gap' + w + (gap'' + ")" + rest) == gap + "." + (gap' + w + (gap'' + ")" + rest));
  }

  lemma ItemRead(gap: string, u: string, dots: bool, items: seq<Datum>, d: Datum, later: string)
    requires Layout(gap) && ReadsAs(u, d, later) && !IsSpace(u[0]) && u[0] != ';'
    requires u[0] != ')' && (dots ==> u[0] != '.')
    ensures Sequence(gap + u, items, dots) == Sequence(later, items + [d], dots)
  {
    LayoutSkipped(gap, u);
    ItemStep(gap + u, u, items, dots, d, later);
  }

  lemma BuiltMore(gap: string, y: Syntax, more: Items, dots: bool, items: seq<Datum>)
    ensures Built(items + [Value(y)], more, dots) == Built(items, Item(gap, y, more), dots)
  {
    if dots {
      AttachMore(items, Value(y), ListValue(more));
    } else {
      assert items + [Value(y)] + ElementsOf(more) == items + ([Value(y)] + ElementsOf(more));
    }
  }

  /** What may follow is decided by the first character. */
  lemma {:induction false} PrecedesLonger(y: Syntax, s: string, rest: string)
    requires s != []
    ensures MayPrecede(y, s) <==> MayPrecede(y, s + rest)
    decreases y
  {
    assert (s + rest)[0] == s[0];
    match y
    case Quotation(_, _, inner) => PrecedesLonger(inner, s, rest);
    case Splicing(_, _, inner) => PrecedesLonger(inner, s, rest);
    case _ =>
  }

  // ---- What is read is written ----

  /** y is written where u starts, and denotes d. */
  predicate Denotes(u: string, y: Syntax, d: Datum, rest: string) {
    WellWritten(y) && MayPrecede(y, rest) && u == Written(y) + rest && Value(y) == d
  }

  lemma {:induction false} SkipSplit(t: string) returns (gap: string)
    ensures t == gap + Skip(t)
    ensures if Skip(t) != [] then Layout(gap) else Trailing(gap)
    decreases |t|
  {
    gap := [];
    if t != [] && IsSpace(t[0]) {
      var more := SkipSplit(t[1..]);
      gap := [t[0]] + more;
      assert gap[1..] == more && (gap + "\n")[1..] == more + "\n";
    } else if t != [] && t[0] == ';' {
      var more := CommentSplit(t[1..]);
      gap := [t[0]] + more;
      assert gap[1..] == more && (gap + "\n")[1..] == more + "\n";
    }
  }

  lemma {:induction false} CommentSplit(t: string) returns (gap: string)
    ensures t == gap + Skip(LineEnd(t))
    ensures if Skip(LineEnd(t)) != [] then InComment(gap) else InComment(gap + "\n")
    decreases |t|
  {
    gap := [];
    if t == [] {
      assert ("\n")[1..] == [];
    } else {
      var more;
      if t[0] == '\n' {
        more := SkipSplit(t[1..]);
      } else {
        more := CommentSplit(t[1..]);
      }
      gap := [t[0]] + more;
      assert gap[1..] == more && (gap + "\n")[1..] == more + "\n";
    }
  }

  lemma {:induction false} TokenSplit(t: string)
    ensures var tok := Token(t);
            t == tok + t[|tok|..] && Delimited(t[|tok|..]) && forall i :: 0 <= i < |tok| ==> !EndsAtom(tok[i])
    decreases |t|
  {
    if t != [] && !EndsAtom(t[0]) {
      TokenSplit(t[1..]);
      var more := Token(t[1..]);
      assert t[1..][|more|..] == t[|more| + 1..];
    }
  }

  lemma {:induction false} LiteralFrom(t: string, out: string) returns (parts: seq<Part>, ending: Ending)
    ensures var rest := Characters(t, out).1;
            && t == PartsWritten(parts) + EndingWritten(ending) + rest && (ending == Closed || rest == [])
            && WellWritten(Literal(parts, ending))
    ensures Characters(t, out).0 == out + PartsValue(parts) + if ending == Backslash then "\\" else ""
    decreases |t|
  {
    parts, ending := [], Closed;
    if t == [] {
      ending := Open;
    } else if t[0] == '"' {
      assert t == "\"" + t[1..];
    } else if t[0] == '\\' && |t| == 1 {
      assert t == "\\" && t[1..] == [];
      ending := Backslash;
    } else {
      var part := if t[0] == '\\' then Escaped(t[1]) else Plain(t[0]);
      var more;
      var t' := t[|PartWritten(part)|..];
      more, ending := LiteralFrom(t', out + [PartValue(part)]);
      parts := [part] + more;
      LiteralMore(part, more, ending, out, Characters(t, out).1);
      assert t == PartWritten(part) + t';
    }
  }

  lemma LiteralMore(part: Part, more: seq<Part>, ending: Ending, out: string, rest: string)
    requires part.Plain? ==> part.c != '"' && part.c != '\\'
    requires WellWritten(Literal(more, ending))
    ensures WellWritten(Literal([part] + more, ending))
    ensures PartsWritten([part] + more) + EndingWritten(ending) + rest
            == PartWritten(part) + (PartsWritten(more) + EndingWritten(ending) + rest)
    ensures out + PartsValue([part] + more) == out + [PartValue(part)] + PartsValue(more)
  {
    assert ([part] + more)[1..] == more;
    var w, x := PartsWritten(more), EndingWritten(ending);
    assert PartWritten(part) + w + x + rest == PartWritten(part) + (w + x + rest);
  }

  /** Whatever is read is written where it was read, and followed by what is left. */
  lemma {:induction false} FormFrom(u: string) returns (y: Syntax)
    requires u != [] && !IsSpace(u[0]) && u[0] != ';' && Form(u).Read?
    ensures Denotes(u, y, Form(u).d, Form(u).rest)
    decreases |u|, 1
  {
    var v := u[1..];
    assert u == [u[0]] + v;
    if u[0] == '#' {
      y := HashFrom(v);
    } else if u[0] == '(' {
      y := ParensFrom(v);
    } else if u[0] == '\'' {
      y := QuotationFrom(Quote, v);
    } else if u[0] == '`' {
      y := QuotationFrom(Quasiquote, v);
    } else if u[0] == ',' {
      y := CommaFrom(v);
    } else if u[0] == '"' {
      y := LiteralIs(v);
    } else {
      y := WordFrom(u);
    }
  }

  lemma ParensFrom(v: string) returns (y: Syntax)
    requires Form("(" + v).Read?
    ensures Denotes("(" + v, y, Form("(" + v).d, Form("(" + v).rest)
    decreases |v|, 4
  {
    ParensStep(v);
    var items := SequenceFrom(v, [], true);
    y := Parens(items);
    assert "(" + (ItemsWritten(items) + Form("(" + v).rest) == "(" + ItemsWritten(items) + Form("(" + v).rest;
  }

  lemma WordFrom(u: string) returns (y: Syntax)
    requires u != [] && u[0] != '#' && (EndsAtom(u[0]) ==> u[0] == ')')
    ensures Denotes(u, y, Form(u).d, Form(u).rest)
  {
    WordStep(u);
    var v := u[1..];
    TokenSplit(v);
    var tok, rest := Token(v), v[|Token(v)|..];
    y := Word([u[0]] + tok);
    WordIs(u[0], tok);
    assert u == [u[0]] + v && [u[0]] + (tok + rest) == [u[0]] + tok + rest;
  }

  lemma WordIs(c: char, tok: string)
    requires c != '#' && (EndsAtom(c) ==> c == ')') && forall i :: 0 <= i < |tok| ==> !EndsAtom(tok[i])
    ensures IsWord([c] + tok)
  {
    assert forall i :: 1 <= i < |[c] + tok| ==> ([c] + tok)[i] == tok[i - 1];
  }

  lemma LiteralIs(v: string) returns (y: Syntax)
    ensures Denotes("\"" + v, y, Form("\"" + v).d, Form("\"" + v).rest)
  {
    LiteralStep(v);
    var parts, ending := LiteralFrom(v, []);
    y := Literal(parts, ending);
    QuotationGrouped("\"", PartsWritten(parts), EndingWritten(ending), Characters(v, []).1);
    assert [] + PartsValue(parts) == PartsValue(parts);
  }

  lemma ExprFrom(t: string) returns (gap: string, y: Syntax)
    requires Expr(t).Read?
    ensures StartsWith(t, gap, y, Expr(t).rest) && Value(y) == Expr(t).d
    decreases |t|, 2
  {
    gap := SkipSplit(t);
    y := FormFrom(Skip(t));
    assert gap + (Written(y) + Expr(t).rest) == gap + Written(y) + Expr(t).rest;
  }

  lemma QuotationFrom(k: Keyword, v: string) returns (y: Syntax)
    requires (k == Quote || k == Quasiquote) && Form([Mark(k)] + v).Read?
    ensures Denotes([Mark(k)] + v, y, Form([Mark(k)] + v).d, Form([Mark(k)] + v).rest)
    decreases |v|, 3
  {
    QuoteStep(k, v);
    var gap, inner := ExprFrom(v);
    y := Quotation(k, gap, inner);
    QuotationGrouped([Mark(k)], gap, Written(inner), Expr(v).rest);
  }

  lemma QuotationGrouped(mark: string, gap: string, w: string, rest: string)
    ensures mark + (gap + w + rest) == mark + gap + w + rest
    ensures mark + (gap + (w + rest)) == mark + gap + w + rest
  {
    assert gap + (w + rest) == gap + w + rest;
    assert mark + (gap + w + rest) == mark + (gap + w) + rest;
    assert mark + (gap + w) == mark + gap + w;
  }

  lemma CommaFrom(v: string) returns (y: Syntax)
    requires Form("," + v).Read?
    ensures Denotes("," + v, y, Form("," + v).d, Form("," + v).rest)
    decreases |v|, 3
  {
    var w := Skip(v);
    CommaStep(v, w);
    var gap := SkipSplit(v);
    if Begins(w, '@') {
      y := SplicingFrom(gap, w[1..]);
      assert w == "@" + w[1..];
    } else {
      y := UnquoteFrom(gap, w);
    }
  }

  lemma UnquoteFrom(gap: string, w: string) returns (y: Syntax)
    requires w == Skip(w) && Expr(w).Read? && Layout(gap) && !Begins(w, '@')
    ensures Denotes("," + (gap + w), y, Quoted(Unquote, Expr(w)).d, Expr(w).rest)
    decreases |w|, 2
  {
    var inner := FormFrom(w);
    WrittenStarts(inner);
    assert w[0] == Written(inner)[0];
    y := Quotation(Unquote, gap, inner);
    QuotationGrouped(",", gap, Written(inner), Form(w).rest);
  }

  lemma SplicingFrom(gap: string, v: string) returns (y: Syntax)
    requires Expr(v).Read? && Layout(gap)
    ensures Denotes("," + (gap + ("@" + v)), y, Quoted(Splice, Expr(v)).d, Expr(v).rest)
    decreases |v|, 3
  {
    var gap', inner := ExprFrom(v);
    y := Splicing(gap, gap', inner);
    SplicingGrouped(gap, gap', Written(inner), Expr(v).rest);
  }

  lemma SplicingGrouped(gap: string, gap': string, w: string, rest: string)
    ensures "," + (gap + ("@" + (gap' + w + rest))) == "," + gap + "@" + gap' + w + rest
  {
    QuotationGrouped("," + gap + "@", gap', w, rest);
    assert "," + (gap + ("@" + (gap' + w + rest))) == "," + gap + "@" + (gap' + w + rest);
  }

  lemma LayoutTrails(g: string)
    ensures Layout(g) ==> Trailing(g)
    ensures InComment(g) ==> InComment(g + "\n")
    decreases |g|
  {
    if g == [] {
      assert ("\n")[1..] == [];
    } else {
      LayoutTrails(g[1..]);
      assert (g + "\n")[1..] == g[1..] + "\n";
    }
  }

  lemma HashFrom(v: string) returns (y: Syntax)
    requires Form("#" + v).Read?
    ensures Denotes("#" + v, y, Form("#" + v).d, Form("#" + v).rest)
    decreases |v|, 4
  {
    HashStep(v);
    var w := Skip(v);
    var gap := SkipSplit(v);
    if Begins(w, '(') {
      y := HashParensFrom(gap, w[1..]);
      assert w == "(" + w[1..];
    } else if HashWordGoesOn(w) {
      y := HashWordFrom(v, gap);
    } else {
      y := TruthFrom(gap, w[0], w[1..]);
      assert w == [w[0]] + w[1..];
    }
  }

  lemma TruthFrom(gap: string, mark: char, rest: string) returns (y: Syntax)
    requires Layout(gap) && (mark == 't' || mark == 'T' || mark == 'f' || mark == 'F')
    ensures Denotes("#" + (gap + ([mark] + rest)), y, Bool(mark == 't' || mark == 'T'), rest)
  {
    y := Truth(gap, mark);
    HashWordGrouped(gap, [mark], rest);
  }

  lemma HashParensFrom(gap: string, v: string) returns (y: Syntax)
    requires Layout(gap) && Sequence(v, [], false).Read?
    ensures Denotes("#" + (gap + ("(" + v)), y, Sequence(v, [], false).d, Sequence(v, [], false).rest)
    decreases |v|, 4
  {
    var items := SequenceFrom(v, [], false);
    y := HashParens(gap, items);
    assert [] + ElementsOf(items) == ElementsOf(items);
    HashGrouped(gap, "(", ItemsWritten(items), Sequence(v, [], false).rest);
  }

  lemma HashGrouped(gap: string, c: string, w: string, rest: string)
    ensures "#" + (gap + (c + (w + rest))) == "#" + gap + c + w + rest
    ensures w == "" ==> "#" + (gap + (c + rest)) == "#" + gap + c + w + rest
  {
    assert "#" + gap + c + w + rest == "#" + gap + c + (w + rest);
    assert "#" + gap + c + (w + rest) == "#" + (gap + (c + (w + rest)));
    assert w == "" ==> w + rest == rest;
  }

  lemma HashWordFrom(v: string, gap: string) returns (y: Syntax)
    requires HashWordGoesOn(Skip(v)) && v == gap + Skip(v)
    requires if Skip(v) != [] then Layout(gap) else Trailing(gap)
    ensures Form("#" + v).Read? && Denotes("#" + v, y, Form("#" + v).d, Form("#" + v).rest)
  {
    var w := Skip(v);
    var tok, rest := Token(w), w[|Token(w)|..];
    TokenSplit(w);
    y := HashWord(gap, tok);
    HashWordStep(v, tok, rest);
    HashWordGrouped(gap, tok, rest);
    HashWordMay(gap, tok, rest);
  }

  lemma HashWordGrouped(gap: string, tok: string, rest: string)
    ensures "#" + (gap + (tok + rest)) == "#" + gap + tok + rest
  {
    HashGrouped(gap, tok, "", rest);
    assert "#" + gap + tok + "" == "#" + gap + tok;
  }

  lemma HashWordMay(gap: string, tok: string, rest: string)
    requires HashWordGoesOn(tok + rest) && Delimited(rest) && forall i :: 0 <= i < |tok| ==> !EndsAtom(tok[i])
    requires if tok + rest == [] then Trailing(gap) else Layout(gap)
    requires tok + rest != [] ==> !IsSpace((tok + rest)[0]) && (tok + rest)[0] != ';'
    ensures MayPrecede(HashWord(gap, tok), rest) && WellWritten(HashWord(gap, tok))
  {
    LayoutTrails(gap);
    if tok == [] {
      assert tok + rest == rest;
    } else {
      assert (tok + rest)[0] == tok[0];
    }
  }

  lemma {:induction false} SequenceFrom(t: string, items: seq<Datum>, dots: bool) returns (i: Items)
    requires Sequence(t, items, dots).Read?
    ensures var r := Sequence(t, items, dots);
            ItemsWell(i, dots) && t == ItemsWritten(i) + r.rest && r.d == Built(items, i, dots)
    decreases |t|, 3
  {
    var u := Skip(t);
    var gap := SkipSplit(t);
    if u[0] == ')' {
      i := End(gap);
      assert u == ")" + u[1..] && items + [] == items;
      assert gap + (")" + u[1..]) == gap + ")" + u[1..];
    } else if u[0] == '.' && dots {
      i := TailFrom(gap, u[1..], items);
      assert u == "." + u[1..];
    } else {
      var y := FormFrom(u);
      var d, rest := Form(u).d, Form(u).rest;
      var more := SequenceFrom(rest, items + [d], dots);
      i := Item(gap, y, more);
      WrittenStarts(y);
      assert u[0] == Written(y)[0];
      var left := Sequence(t, items, dots).rest;
      PrecedesLonger(y, ItemsWritten(more), left);
      BuiltMore(gap, y, more, dots, items);
      ItemGrouped(gap, Written(y), ItemsWritten(more), left);
    }
  }

  lemma ItemGrouped(gap: string, w: string, more: string, left: string)
    ensures gap + (w + (more + left)) == gap + w + more + left
  {
    assert gap + w + more + left == gap + w + (more + left);
    assert gap + w + (more + left) == gap + (w + (more + left));
  }

  lemma TailFrom(gap: string, v: string, items: seq<Datum>) returns (i: Items)
    requires Tail(v, items).Read? && Layout(gap)
    ensures var r := Tail(v, items);
            ItemsWell(i, true) && gap + ("." + v) == ItemsWritten(i) + r.rest && r.d == Built(items, i, true)
    decreases |v|, 3
  {
    var gap', tail := ExprFrom(v);
    var rest := Expr(v).rest;
    var w := Skip(rest);
    var gap'' := SkipSplit(rest);
    i := Dot(gap, gap', tail, gap'');
    var left := w[1..];
    assert w[0] == ')' && w == ")" + left;
    TailStep(v, items, Value(tail), rest, left);
    assert Tail(v, items) == Read(Attach(items, Value(tail)), left);
    DotIs(gap, gap', tail, gap'', left);
  }

  /** Nothing is left but layout exactly when there is nothing to read. */
  lemma EndIsTrailing(t: string)
    ensures Expr(t) == AtEnd <==> Trailing(t)
  {
    TrailingSkipped(t);
    var gap := SkipSplit(t);
    if Skip(t) == [] {
      assert t == gap;
    }
  }

  lemma SkipTwice(t: string)
    ensures Skip(Skip(t)) == Skip(t)
  {
  }

  /** Reading is exact: a text that starts with the written form of a datum, in whatever way, is read as that datum up
      to its end; every datum read is so written; and nothing is found exactly where there is only layout. */
  lemma ReadingIsExact(t: string)
    ensures forall gap, y, rest :: StartsWith(t, gap, y, rest) ==> Expr(t) == Read(Value(y), rest)
    ensures Expr(t).Read? ==> exists gap, y :: StartsWith(t, gap, y, Expr(t).rest) && Value(y) == Expr(t).d
    ensures Expr(t) == AtEnd <==> Trailing(t)
  {
    forall gap, y, rest | StartsWith(t, gap, y, rest) ensures Expr(t) == Read(Value(y), rest) {
      FormRead(y, rest);
      AfterLayout(gap, y, rest);
    }
    if Expr(t).Read? {
      var gap, y := ExprFrom(t);
    }
    EndIsTrailing(t);
  }
}
