/** The reader as functions of the text still to come: reader.c and the reader macros of system_inherents.c. */
module Reader {
  import opened Forms

  datatype Readcase = Upcase | Downcase | Preserve | Invert

  /** The system readtable's case, the current package and its interned symbols. */
  datatype Context = Context(readcase: Readcase, package: string, interned: map<string, Symbol>)

  datatype ReadResult =
    | Got(form: Form, rest: string)
    | Crash     // an assertion, or a call through a null function
    | Hang      // end of file inside a list or a string is never noticed

  // ---- characters

  datatype Traits =
    | Constituent
    | Invalid
    | TerminatingMacro
    | NonTerminatingMacro
    | MultipleEscape
    | SingleEscape
    | Whitespace

  const CONSTITUENTS: string := "\U{08}!$%&*+-./:<=>?@[]^_{}~"

  predicate IsDigit(c: char) {
    '0' <= c <= '9'
  }

  predicate IsLower(c: char) {
    'a' <= c <= 'z'
  }

  predicate IsUpper(c: char) {
    'A' <= c <= 'Z'
  }

  /** The macro characters come first, so that the quote is one of them and never an escape. */
  function TraitsOf(c: char): Traits {
    if c == '#' then NonTerminatingMacro
    else if c == '(' || c == ')' || c == '"' || c == '\'' then TerminatingMacro
    else if c == '\t' || c == '\n' || c == '\U{0c}' || c == '\r' || c == ' ' then Whitespace
    else if c == '\'' then SingleEscape
    else if c == '|' then MultipleEscape
    else if c in CONSTITUENTS || IsDigit(c) || IsLower(c) || IsUpper(c) then Constituent
    else Invalid
  }

  /** The letter z is not taken for a cased one. */
  predicate CasedChar(c: char) {
    'a' <= c < 'z' || IsUpper(c)
  }

  function ToUpper(c: char): char {
    if IsLower(c) then c - 'a' + 'A' else c
  }

  function ToLower(c: char): char {
    if IsUpper(c) then c - 'A' + 'a' else c
  }

  function ConvertCase(readcase: Readcase, c: char): char {
    if !CasedChar(c) then c
    else
      match readcase
      case Upcase => ToUpper(c)
      case Downcase => ToLower(c)
      case Preserve => c
      case Invert => if IsUpper(c) then ToLower(c) else ToUpper(c)
  }

  /** isspace of the C library, which also takes the vertical tab. */
  predicate IsSpace(c: char) {
    c == ' ' || '\t' <= c <= '\r'
  }

  predicate AllSpace(s: string) {
    s == "" || (IsSpace(s[0]) && AllSpace(s[1..]))
  }

  // ---- tokens

  datatype Token = Token(chars: string, escaped: bool, rest: string) | BadToken

  /** Step 8 of the reader algorithm: inside a token, outside of multiple escapes. */
  function InToken(readcase: Readcase, s: string, chars: string, escaped: bool): (t: Token)
    ensures t.Token? ==> |t.rest| <= |s|
    decreases |s|
  {
    if s == "" then Token(chars, escaped, s)
    else
      match TraitsOf(s[0])
      case Constituent => InToken(readcase, s[1..], chars + [ConvertCase(readcase, s[0])], escaped)
      case NonTerminatingMacro => InToken(readcase, s[1..], chars + [ConvertCase(readcase, s[0])], escaped)
      case SingleEscape => if |s| == 1 then BadToken else InToken(readcase, s[2..], chars + [ConvertCase(readcase, s[1])], true)
      case MultipleEscape => InEscape(readcase, s[1..], chars)
      case Invalid => BadToken
      case TerminatingMacro => Token(chars, escaped, s)
      case Whitespace => Token(chars, escaped, s)
  }

  /** Step 9: between bars. The case is converted here as well. */
  function InEscape(readcase: Readcase, s: string, chars: string): (t: Token)
    ensures t.Token? ==> |t.rest| <= |s|
    decreases |s|
  {
    if s == "" then BadToken
    else
      match TraitsOf(s[0])
      case SingleEscape => if |s| == 1 then BadToken else InEscape(readcase, s[2..], chars + [ConvertCase(readcase, s[1])])
      case MultipleEscape => InToken(readcase, s[1..], chars, true)
      case Invalid => BadToken
      case _ => InEscape(readcase, s[1..], chars + [ConvertCase(readcase, s[0])])
  }

  predicate AllDigits(s: string) {
    s == "" || (IsDigit(s[0]) && AllDigits(s[1..]))
  }

  function Decimal(s: string): nat {
    if s == "" then 0
    else 10 * Decimal(s[..|s| - 1]) + (if IsDigit(s[|s| - 1]) then s[|s| - 1] as nat - '0' as nat else 0)
  }

  function Intern(ctx: Context, name: string): Symbol {
    if name in ctx.interned then ctx.interned[name] else Symbol(name, ctx.package, 0)
  }

  /** strtol saturates; the fixnum keeps the low 32 bits. */
  function ParsedFixnum(value: nat): Word {
    if value < 0x8000_0000_0000_0000 then value % 0x1_0000_0000 else 0xffff_ffff
  }

  function TokenForm(ctx: Context, chars: string, escaped: bool): Form {
    if !escaped && AllDigits(chars) then Fixnum(ParsedFixnum(Decimal(chars))) else Sym(Intern(ctx, chars))
  }

  function Finish(ctx: Context, t: Token): ReadResult {
    match t
    case Token(chars, escaped, rest) => Got(TokenForm(ctx, chars, escaped), rest)
    case BadToken => Crash
  }

  // ---- strings

  function EscapeChar(c: char): char {
    match c
    case 'a' => '\U{07}'
    case 'b' => '\U{08}'
    case 'f' => '\U{0c}'
    case 'n' => '\n'
    case 'r' => '\r'
    case 't' => '\t'
    case 'v' => '\U{0b}'
    case _ => if '0' <= c <= '7' then c - '0' else c
  }

  /** The text up to the closing quote; a zero character cuts it short. */
  function StringText(s: string, chars: string, escapedNext: bool): (r: Option<(string, string)>)
    ensures r.Some? ==> |r.value.1| < |s|
    decreases |s|
  {
    if s == "" then None
    else if s[0] == '"' && !escapedNext then Some((chars, s[1..]))
    else if s[0] == '\\' && !escapedNext then StringText(s[1..], chars, true)
    else StringText(s[1..], chars + [if escapedNext then EscapeChar(s[0]) else s[0]], false)
  }

  function UpToZero(s: string): string {
    if s == "" || s[0] == '\0' then "" else [s[0]] + UpToZero(s[1..])
  }

  // ---- lists

  /** Counts parentheses, and nothing else, to the one that closes the list: the text before it and behind it. */
  function Extract(s: string, depth: nat): (r: Option<(string, string)>)
    ensures r.Some? ==> |r.value.0| + |r.value.1| < |s|
    decreases |s|
  {
    if s == "" then None
    else if s[0] == ')' && depth <= 1 then Some(("", s[1..]))
    else
      var depth' := if s[0] == '(' then depth + 1 else if s[0] == ')' then depth - 1 else depth;
      match Extract(s[1..], depth')
      case None => None
      case Some((inner, rest)) => Some(([s[0]] + inner, rest))
  }

  const QUOTE: Form := Sym(Symbol("QUOTE", "COMMON-LISP", 0))

  /** Reads one form: what it is, and the text behind it. */
  function Read(ctx: Context, s: string): (r: ReadResult)
    ensures r.Got? ==> |r.rest| < |s|
    decreases |s|, 0
  {
    if s == "" then Crash
    else
      match TraitsOf(s[0])
      case Whitespace => Read(ctx, s[1..])
      case Invalid => Crash
      case NonTerminatingMacro => Crash
      case SingleEscape => Finish(ctx, InToken(ctx.readcase, s[1..], "", true))
      case MultipleEscape => Finish(ctx, InEscape(ctx.readcase, s[1..], ""))
      case Constituent => Finish(ctx, InToken(ctx.readcase, s[1..], [ConvertCase(ctx.readcase, s[0])], false))
      case TerminatingMacro =>
        if s[0] == '(' then
          match Extract(s[1..], 1)
          case None => Hang
          case Some((inner, rest)) =>
            match ReadElements(ctx, inner)
            case Got(list, _) => Got(list, rest)
            case Crash => Crash
            case Hang => Hang
        else if s[0] == '"' then
          match StringText(s[1..], "", false)
          case None => Hang
          case Some((chars, rest)) => Got(Str(UpToZero(chars)), rest)
        else if s[0] == '\'' then
          match Read(ctx, s[1..])
          case Got(form, rest) => Got(Cons(QUOTE, Cons(form, Nil)), rest)
          case Crash => Crash
          case Hang => Hang
        else Crash
  }

  /** Reads a list's extracted text again, form by form, until only space is left. */
  function ReadElements(ctx: Context, s: string): (r: ReadResult)
    decreases |s|, 1
  {
    if AllSpace(s) then Got(Nil, "")
    else
      match Read(ctx, s)
      case Crash => Crash
      case Hang => Hang
      case Got(first, rest) =>
        match ReadElements(ctx, rest)
        case Got(others, end) => Got(Cons(first, others), end)
        case Crash => Crash
        case Hang => Hang
  }

  // ---- printing

  /** Leaves are symbols, strings, NIL and T: the forms whose printed text could read back. */
  predicate Textual(f: Form) {
    match f
    case Cons(car, cdr) => Textual(car) && Textual(cdr)
    case Sym(_) => true
    case Str(_) => true
    case Nil => true
    case T => true
    case _ => false
  }

  function Digits(n: nat): string {
    if n < 10 then ['0' + n as char] else Digits(n / 10) + ['0' + (n % 10) as char]
  }

  function Print(f: Form): string
    requires Textual(f)
    decreases f, 1
  {
    match f
    case Nil => "NIL"
    case T => "T"
    case Str(text) => "\"" + text + "\""
    case Sym(s) => if s.id > 0 then "#" + s.lexeme + ":" + Digits(s.id) else s.lexeme
    case Cons(_, _) => "(" + PrintCons(f) + ")"
  }

  function PrintCons(f: Form): string
    requires f.Cons? && Textual(f)
    decreases f, 0
  {
    Print(f.car) + PrintTail(f.cdr)
  }

  function PrintTail(d: Form): string
    requires Textual(d)
    decreases d, 2
  {
    if d.Nil? then "" else if d.Cons? then " " + PrintCons(d) else " . " + Print(d)
  }
}
