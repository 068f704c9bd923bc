/** Interned symbols: the names the compiler and its expanders know, and all others. */
module Symbols {
  import opened Wrappers

  datatype Keyword =
    // heads of special and derived forms
    | Quote | Quasiquote | Let | LetStar | Letrec | And | Or | Cond | Case | Do | If | Begin | Lambda
    | Define | DefineMacro | Set | CallCC | CallWithCC | Apply
    | TestStart | TestEnd | TracePrint | MacroPrint | CompilePrint
    // markers inside other forms
    | Else | Unquote | Splice
    // variables the expanders mention
    | Cons | Append | Memv | ListToVector | Undef

  /** A symbol. `Intern` is the only way one is made, so a spelling has one symbol. */
  datatype Symbol = Known(k: Keyword) | Name(text: string)

  function Spelling(k: Keyword): (s: string)
    ensures |s| > 0 && !('0' <= s[|s| - 1] <= '9')
  {
    match k
    case Quote => "quote"
    case Quasiquote => "quasiquote"
    case Let => "let"
    case LetStar => "let*"
    case Letrec => "letrec"
    case And => "and"
    case Or => "or"
    case Cond => "cond"
    case Case => "case"
    case Do => "do"
    case If => "if"
    case Begin => "begin"
    case Lambda => "lambda"
    case Define => "define"
    case DefineMacro => "define-macro"
    case Set => "set!"
    case CallCC => "call/cc"
    case CallWithCC => "call-with-current-continuation"
    case Apply => "apply"
    case TestStart => "test-start"
    case TestEnd => "test-end"
    case TracePrint => "trace-print"
    case MacroPrint => "macro-print"
    case CompilePrint => "compile-print"
    case Else => "else"
    case Unquote => "unquote"
    case Splice => "splice"
    case Cons => "cons"
    case Append => "append"
    case Memv => "memv"
    case ListToVector => "list->vector"
    case Undef => ":undef"
  }

  const KEYWORDS: seq<Keyword> := [
    Quote, Quasiquote, Let, LetStar, Letrec, And, Or, Cond, Case, Do, If, Begin, Lambda,
    Define, DefineMacro, Set, CallCC, CallWithCC, Apply,
    TestStart, TestEnd, TracePrint, MacroPrint, CompilePrint,
    Else, Unquote, Splice, Cons, Append, Memv, ListToVector, Undef]

  /** The symbol spelled s, searching the known names from the ith on. */
  function InternFrom(s: string, i: nat): (y: Symbol)
    requires i <= |KEYWORDS|
    ensures Text(y) == s
    ensures y.Name? ==> forall j :: i <= j < |KEYWORDS| ==> Spelling(KEYWORDS[j]) != s
    decreases |KEYWORDS| - i
  {
    if i == |KEYWORDS| then Name(s)
    else if Spelling(KEYWORDS[i]) == s then Known(KEYWORDS[i])
    else InternFrom(s, i + 1)
  }

  function Intern(s: string): (y: Symbol)
    ensures Text(y) == s
  {
    InternFrom(s, 0)
  }

  /** How a symbol prints. */
  function Text(y: Symbol): string {
    match y
    case Known(k) => Spelling(k)
    case Name(t) => t
  }

  /** The first place of x in a list of names. */
  function IndexOf(x: Symbol, names: seq<Symbol>): (r: Option<nat>)
    ensures r.None? <==> x !in names
    ensures r.Some? ==> r.value < |names| && names[r.value] == x && x !in names[..r.value]
  {
    if names == [] then None
    else if names[0] == x then Some(0)
    else
      match IndexOf(x, names[1..])
      case None => None
      case Some(j) =>
        assert names[..j + 1] == [names[0]] + names[1..][..j];
        Some(j + 1)
  }

  /** The decimal digits of n. */
  function Decimal(n: nat): (s: string)
    ensures |s| > 0 && '0' <= s[|s| - 1] <= '9'
  {
    if n < 10 then [('0' as int + n) as char] else Decimal(n / 10) + [('0' as int + n % 10) as char]
  }

  /** The nth generated symbol. */
  function Gensym(prefix: string, n: nat): Symbol {
    Name(prefix + Decimal(n))
  }

  /** A number that tells the known spellings apart. */
  function Key(s: string): int
    requires |s| >= 2
  {
    |s| + s[0] as int + 3 * (s[1] as int) + 2 * (s[|s| - 1] as int)
  }

  /** The known name with a given key. */
  function OfKey(n: int): Keyword {
    match n
    case 671 => Quote
    case 676 => Quasiquote
    case 646 => Let
    case 499 => LetStar
    case 615 => Letrec
    case 630 => And
    case 683 => Or
    case 636 => Cond
    case 596 => Case
    case 657 => Do
    case 617 => If
    case 626 => Begin
    case 599 => Lambda
    case 611 => Define
    case 637 => DefineMacro
    case 488 => Set
    case 595 => CallCC
    case 640 => CallWithCC
    case 680 => Apply
    case 661 => TestStart
    case 627 => TestEnd
    case 701 => TracePrint
    case 643 => MacroPrint
    case 677 => CompilePrint
    case 631 => Else
    case 656 => Unquote
    case 659 => Splice
    case 666 => Cons
    case 639 => Append
    case 652 => Memv
    case 663 => ListToVector
    case 619 => Undef
    case _ => Undef
  }

  lemma OfKeyOfSpelling(k: Keyword)
    ensures |Spelling(k)| >= 2 && OfKey(Key(Spelling(k))) == k
  {
    if Evaluated(k) {
      OfKeyOfEvaluated(k);
    } else {
      OfKeyOfOther(k);
    }
  }

  /** The heads of the basic and the derived forms. */
  predicate Evaluated(k: Keyword) {
    || k.Quote? || k.Quasiquote? || k.Let? || k.LetStar? || k.Letrec? || k.And? || k.Or? || k.Cond? || k.Case?
    || k.Do? || k.If? || k.Begin? || k.Lambda? || k.Define? || k.DefineMacro? || k.Set?
  }

  lemma OfKeyOfEvaluated(k: Keyword)
    requires Evaluated(k)
    ensures |Spelling(k)| >= 2 && OfKey(Key(Spelling(k))) == k
  {
  }

  lemma OfKeyOfOther(k: Keyword)
    requires !Evaluated(k)
    ensures |Spelling(k)| >= 2 && OfKey(Key(Spelling(k))) == k
  {
  }

  lemma SpellingInjective(a: Keyword, b: Keyword)
    requires Spelling(a) == Spelling(b)
    ensures a == b
  {
    OfKeyOfSpelling(a);
    OfKeyOfSpelling(b);
  }

  lemma KeywordListed(k: Keyword)
    ensures k in KEYWORDS
  {
    match k {
      case Quote => assert KEYWORDS[0] == Quote;
      case Quasiquote => assert KEYWORDS[1] == Quasiquote;
      case Let => assert KEYWORDS[2] == Let;
      case LetStar => assert KEYWORDS[3] == LetStar;
      case Letrec => assert KEYWORDS[4] == Letrec;
      case And => assert KEYWORDS[5] == And;
      case Or => assert KEYWORDS[6] == Or;
      case Cond => assert KEYWORDS[7] == Cond;
      case Case => assert KEYWORDS[8] == Case;
      case Do => assert KEYWORDS[9] == Do;
      case If => assert KEYWORDS[10] == If;
      case Begin => assert KEYWORDS[11] == Begin;
      case Lambda => assert KEYWORDS[12] == Lambda;
      case Define => assert KEYWORDS[13] == Define;
      case DefineMacro => assert KEYWORDS[14] == DefineMacro;
      case Set => assert KEYWORDS[15] == Set;
      case CallCC => assert KEYWORDS[16] == CallCC;
      case CallWithCC => assert KEYWORDS[17] == CallWithCC;
      case Apply => assert KEYWORDS[18] == Apply;
      case TestStart => assert KEYWORDS[19] == TestStart;
      case TestEnd => assert KEYWORDS[20] == TestEnd;
      case TracePrint => assert KEYWORDS[21] == TracePrint;
      case MacroPrint => assert KEYWORDS[22] == MacroPrint;
      case CompilePrint => assert KEYWORDS[23] == CompilePrint;
      case Else => assert KEYWORDS[24] == Else;
      case Unquote => assert KEYWORDS[25] == Unquote;
      case Splice => assert KEYWORDS[26] == Splice;
      case Cons => assert KEYWORDS[27] == Cons;
      case Append => assert KEYWORDS[28] == Append;
      case Memv => assert KEYWORDS[29] == Memv;
      case ListToVector => assert KEYWORDS[30] == ListToVector;
      case Undef => assert KEYWORDS[31] == Undef;
    }
  }

  /** y is a symbol that interning makes: a known name is not spelled out as another one. */
  predicate IsInterned(y: Symbol) {
    y.Name? ==> forall k :: Spelling(k) != y.text
  }

  /** Interning undoes spelling, so interned symbols are equal exactly when they are spelled alike. */
  lemma InternText(y: Symbol)
    requires IsInterned(y)
    ensures Intern(Text(y)) == y
  {
    match y
    case Known(k) =>
      KeywordListed(k);
      if Intern(Spelling(k)).Known? {
        SpellingInjective(Intern(Spelling(k)).k, k);
      }
    case Name(t) =>
      assert Text(Intern(t)) == t;
  }
}
