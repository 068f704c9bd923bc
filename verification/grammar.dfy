/** The written form of data: which texts denote which datum. */
module Grammar {
  import opened Datums
  import opened Symbols

  // ---- Characters ----

  /** `std::isspace`. */
  predicate IsSpace(c: char) {
    c == ' ' || c == '\t' || c == '\n' || c == '\r' || c == 11 as char || c == 12 as char
  }

  predicate IsDigit(c: char) {
    '0' <= c <= '9'
  }

  /** What ends a word. */
  predicate EndsAtom(c: char) {
    IsSpace(c) || c == '(' || c == ')' || c == '\'' || c == '`' || c == ',' || c == '"' || c == ';'
  }

  /** At the end of the text, or before something that ends a word. */
  predicate Delimited(rest: string) {
    rest == [] || EndsAtom(rest[0])
  }

  predicate Begins(text: string, c: char) {
    text != [] && text[0] == c
  }

  /** White space, and comments that are ended. */
  predicate Layout(g: string) {
    g == [] || (IsSpace(g[0]) && Layout(g[1..])) || (g[0] == ';' && InComment(g[1..]))
  }

  predicate InComment(g: string) {
    g != [] && if g[0] == '\n' then Layout(g[1..]) else InComment(g[1..])
  }

  /** The same at the end of the text, where a comment needs no end. */
  predicate Trailing(g: string) {
    Layout(g + "\n")
  }

  // ---- Words ----

  predicate AllDigits(s: string) {
    forall i :: 0 <= i < |s| ==> IsDigit(s[i])
  }

  predicate Signed(tok: string) {
    tok != [] && (tok[0] == '-' || tok[0] == '+')
  }

  /** Digits, perhaps after a sign. */
  predicate Numeric(tok: string) {
    tok != [] && if Signed(tok) then |tok| > 1 && AllDigits(tok[1..]) else AllDigits(tok)
  }

  /** The number that digits stand for. */
  function DigitsValue(s: string): int {
    if s == [] then 0 else 10 * DigitsValue(s[..|s| - 1]) + (s[|s| - 1] as int - '0' as int)
  }

  function NumberValue(tok: string): int
    requires Numeric(tok)
  {
    if tok[0] == '-' then -DigitsValue(tok[1..]) else if tok[0] == '+' then DigitsValue(tok[1..]) else DigitsValue(tok)
  }

  /** What a word stands for. */
  function WordValue(tok: string): Datum {
    if tok == "nil" then Nil
    else if tok == "true" then Bool(true)
    else if tok == "false" then Bool(false)
    else if Numeric(tok) then Int(NumberValue(tok))
    else Sym(Intern(tok))
  }

  /** A word as such: a closing parenthesis may start one, where it does not close anything. */
  predicate IsWord(tok: string) {
    && tok != [] && tok[0] != '#' && (EndsAtom(tok[0]) ==> tok[0] == ')')
    && forall i :: 1 <= i < |tok| ==> !EndsAtom(tok[i])
  }

  // ---- Expressions ----

  /** A character of a string literal. */
  datatype Part = Plain(c: char) | Escaped(c: char)

  /** A string literal is ended by a quotation mark, or by the end of the text, perhaps after a lone backslash. */
  datatype Ending = Closed | Open | Backslash

  /** The written form of one datum, with all its layout. */
  datatype Syntax =
    | Word(tok: string)
    | Truth(gap: string, mark: char)                             // #t, #f
    | HashWord(gap: string, tok: string)                         // #word
    | Literal(parts: seq<Part>, ending: Ending)                  // "..."
    | Quotation(k: Keyword, gap: string, inner: Syntax)          // 'x `x ,x
    | Splicing(gap: string, gap': string, inner: Syntax)         // ,@x
    | Parens(items: Items)                                       // (...)
    | HashParens(gap: string, items: Items)                      // #(...)

  /** What a list goes on with: its end, a dot and a tail, or an item. */
  datatype Items =
    | End(gap: string)
    | Dot(gap: string, gap': string, tail: Syntax, gap'': string)
    | Item(gap: string, y: Syntax, more: Items)

  function Mark(k: Keyword): char {
    if k == Quote then '\'' else if k == Quasiquote then '`' else ','
  }

  function Written(y: Syntax): string {
    match y
    case Word(tok) => tok
    case Truth(gap, mark) => "#" + gap + [mark]
    case HashWord(gap, tok) => "#" + gap + tok
    case Literal(parts, ending) => "\"" + PartsWritten(parts) + EndingWritten(ending)
    case Quotation(k, gap, inner) => [Mark(k)] + gap + Written(inner)
    case Splicing(gap, gap', inner) => "," + gap + "@" + gap' + Written(inner)
    case Parens(items) => "(" + ItemsWritten(items)
    case HashParens(gap, items) => "#" + gap + "(" + ItemsWritten(items)
  }

  function ItemsWritten(i: Items): (s: string)
    ensures s != []
  {
    match i
    case End(gap) => gap + ")"
    case Dot(gap, gap', tail, gap'') => gap + "." + gap' + Written(tail) + gap'' + ")"
    case Item(gap, y, more) => gap + Written(y) + ItemsWritten(more)
  }

  function PartsWritten(parts: seq<Part>): string {
    if parts == [] then "" else PartWritten(parts[0]) + PartsWritten(parts[1..])
  }

  function PartWritten(part: Part): string {
    match part
    case Plain(c) => [c]
    case Escaped(c) => ['\\', c]
  }

  function EndingWritten(ending: Ending): string {
    match ending
    case Closed => "\""
    case Open => ""
    case Backslash => "\\"
  }

  /** Layout stands only where it may, and nothing is written as something else would be. */
  predicate WellWritten(y: Syntax) {
    match y
    case Word(tok) => IsWord(tok)
    case Truth(gap, mark) => Layout(gap) && (mark == 't' || mark == 'T' || mark == 'f' || mark == 'F')
    case HashWord(gap, tok) =>
      && (if tok == [] then Trailing(gap) else Layout(gap) && tok[0] !in "tTfF")
      && forall i :: 0 <= i < |tok| ==> !EndsAtom(tok[i])
    case Literal(parts, _) =>
      forall i :: 0 <= i < |parts| && parts[i].Plain? ==> parts[i].c != '"' && parts[i].c != '\\'
    case Quotation(k, gap, inner) =>
      && (k == Quote || k == Quasiquote || k == Unquote) && Layout(gap) && WellWritten(inner)
      && (k == Unquote ==> !Begins(Written(inner), '@'))
    case Splicing(gap, gap', inner) => Layout(gap) && Layout(gap') && WellWritten(inner)
    case Parens(items) => ItemsWell(items, true)
    case HashParens(gap, items) => Layout(gap) && ItemsWell(items, false)
  }

  /** Items of a list, where dots mean something, or of a vector. */
  predicate ItemsWell(i: Items, dots: bool) {
    match i
    case End(gap) => Layout(gap)
    case Dot(gap, gap', tail, gap'') =>
      && dots && Layout(gap) && Layout(gap') && Layout(gap'') && WellWritten(tail) && MayPrecede(tail, gap'' + ")")
    case Item(gap, y, more) =>
      && Layout(gap) && WellWritten(y) && ItemsWell(more, dots) && MayPrecede(y, ItemsWritten(more))
      && !Begins(Written(y), ')') && (dots ==> !Begins(Written(y), '.'))
  }

  /** May the text go on with `rest` after y? Only what has no end of its own is in doubt. */
  predicate MayPrecede(y: Syntax, rest: string) {
    match y
    case Word(_) => Delimited(rest)
    case HashWord(gap, tok) =>
      if tok == [] && rest != [] then Layout(gap) && rest[0] in ")'`,\"" else Delimited(rest)
    case Literal(_, ending) => ending == Closed || rest == []
    case Quotation(_, _, inner) => MayPrecede(inner, rest)
    case Splicing(_, _, inner) => MayPrecede(inner, rest)
    case _ => true
  }

  /** The datum that is denoted. */
  function Value(y: Syntax): Datum {
    match y
    case Word(tok) => WordValue(tok)
    case Truth(_, mark) => Bool(mark == 't' || mark == 'T')
    case HashWord(_, tok) => Sym(Intern("#" + tok))
    case Literal(parts, ending) => Str(PartsValue(parts) + if ending == Backslash then "\\" else "")
    case Quotation(k, _, inner) => ListOf([Sym(Known(k)), Value(inner)])
    case Splicing(_, _, inner) => ListOf([Sym(Known(Splice)), Value(inner)])
    case Parens(items) => ListValue(items)
    case HashParens(_, items) => Vec(ElementsOf(items))
  }

  function PartsValue(parts: seq<Part>): string {
    if parts == [] then "" else [PartValue(parts[0])] + PartsValue(parts[1..])
  }

  function PartValue(part: Part): char {
    if part == Escaped('n') then '\n' else part.c
  }

  function ListValue(i: Items): Datum {
    match i
    case End(_) => Nil
    case Dot(_, _, tail, _) => Value(tail)
    case Item(_, y, more) => Pair(Value(y), ListValue(more))
  }

  function ElementsOf(i: Items): seq<Datum> {
    match i
    case Item(_, y, more) => [Value(y)] + ElementsOf(more)
    case _ => []
  }

  /** A text starts, after layout, with the written form of a datum, and `rest` is what comes after it. */
  predicate StartsWith(text: string, gap: string, y: Syntax, rest: string) {
    Layout(gap) && WellWritten(y) && MayPrecede(y, rest) && text == gap + Written(y) + rest
  }
}
