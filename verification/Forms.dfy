/** Lisp data as the runtime passes it around (LishpForm and the objects behind it). */
module Forms {

  datatype Option<+A> = None | Some(value: A)

  /** An interned symbol. Interning returns one object per name, so a symbol is its record. */
  datatype Symbol = Symbol(lexeme: string, package: string, id: nat)

  /** A uint32_t. */
  type Word = n: nat | n < 0x1_0000_0000 witness 0

  datatype Form =
    | Nil
    | T
    | Fixnum(n: Word)
    | Char(c: char)
    | Sym(sym: Symbol)
    | Str(text: string)
    | Fn(fn: nat)          // an inherent function object
    | Object(obj: nat)     // a stream or a readtable
    | Cons(car: Form, cdr: Form)

  datatype Special = NotSpecial | Go | LetStar | Progn | Quote | Tagbody

  function SpecialOf(lexeme: string): Special {
    if lexeme == "GO" then Go
    else if lexeme == "LET*" then LetStar
    else if lexeme == "PROGN" then Progn
    else if lexeme == "QUOTE" then Quote
    else if lexeme == "TAGBODY" then Tagbody
    else NotSpecial
  }

  function Get<K, V>(m: map<K, V>, k: K): Option<V> {
    if k in m then Some(m[k]) else None
  }

  ghost function Size(f: Form): (n: nat)
    ensures n >= 1
  {
    if f.Cons? then 1 + Size(f.car) + Size(f.cdr) else 1
  }

  predicate ProperList(f: Form) {
    f.Nil? || (f.Cons? && ProperList(f.cdr))
  }

  function Elements(f: Form): seq<Form> {
    if f.Cons? then [f.car] + Elements(f.cdr) else []
  }

  function ListOf(s: seq<Form>): Form {
    if s == [] then Nil else Cons(s[0], ListOf(s[1..]))
  }

  /** The destructive append of the list builders: the final NIL becomes a one-cell list. */
  function Snoc(list: Form, x: Form): Form {
    if list.Cons? then Cons(list.car, Snoc(list.cdr, x)) else Cons(x, Nil)
  }

  lemma {:induction false} SnocListOf(s: seq<Form>, x: Form)
    ensures Snoc(ListOf(s), x) == ListOf(s + [x])
  {
    if s != [] {
      SnocListOf(s[1..], x);
      assert (s + [x])[1..] == s[1..] + [x];
    }
  }
}
