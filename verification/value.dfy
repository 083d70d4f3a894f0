/** The dynamic values and lists of kernel/value.hpp and kernel/list.hpp. */
module Values {

  /** A value; numbers are exact here. */
  datatype Value =
    | Nil
    | Symbol(str: string)
    | Str(str: string)
    | Num(num: real)
    | Boolean(boo: bool)
    | Lst(items: List)

  datatype List = Null | Cons(car: Value, cdr: List)

  /** A value, or a failure with its code. */
  datatype Outcome = Content(val: Value) | Failure(code: int)

  predicate IsText(v: Value) { v.Symbol? || v.Str? }

  /** operator== on values: a symbol and a string with the same characters are equal. */
  predicate Same(a: Value, b: Value) {
    match a
    case Nil => b.Nil?
    case Lst(l) => b.Lst? && SameList(l, b.items)
    case Num(n) => b.Num? && n == b.num
    case Boolean(t) => b.Boolean? && t == b.boo
    case _ => IsText(b) && a.str == b.str
  }

  predicate SameList(l: List, m: List) {
    match l
    case Null => m.Null?
    case Cons(a, r) => m.Cons? && Same(a, m.car) && SameList(r, m.cdr)
  }

  /** The conversion of a value to a list: anything but a list becomes the empty list. */
  function AsList(v: Value): List { if v.Lst? then v.items else Null }

  /** A list headed by a symbol. */
  predicate IsAssocList(l: List) { l.Cons? && l.car.Symbol? }

  predicate IsAssoc(v: Value) { v.Lst? && IsAssocList(v.items) }

  function SizeOf(v: Value): nat { if v.Lst? then 1 + SizeOfList(v.items) else 1 }

  function SizeOfList(l: List): nat { if l.Null? then 0 else 1 + SizeOf(l.car) + SizeOfList(l.cdr) }

  // --- Lists --------------------------------------------------------------------------------

  function MkList(v: Value): List { Cons(v, Null) }

  function Pair(a: Value, b: Value): Value { Lst(Cons(a, Cons(b, Null))) }

  function Length(l: List): nat { if l.Null? then 0 else 1 + Length(l.cdr) }

  function Append(l: List, m: List): List { if l.Null? then m else Cons(l.car, Append(l.cdr, m)) }

  /** The list of n copies of a value. */
  function Copies(v: Value, n: nat): List { if n == 0 then Null else Cons(v, Copies(v, n - 1)) }

  function ReverseOnto(acc: List, l: List): List
    decreases l
  {
    if l.Null? then acc else ReverseOnto(Cons(l.car, acc), l.cdr)
  }

  function Reverse(l: List): List { ReverseOnto(Null, l) }

  function Last(l: List): Value
    requires l.Cons?
  {
    if l.cdr.Null? then l.car else Last(l.cdr)
  }

  lemma {:induction false} ReverseOntoCar(acc: List, l: List)
    requires l.Cons?
    ensures ReverseOnto(acc, l).Cons? && ReverseOnto(acc, l).car == Last(l)
    decreases l
  {
    if l.cdr.Cons? { ReverseOntoCar(Cons(l.car, acc), l.cdr); }
  }

  lemma {:induction false} LengthAppend(l: List, m: List)
    ensures Length(Append(l, m)) == Length(l) + Length(m)
  {
    if l.Cons? { LengthAppend(l.cdr, m); }
  }

  lemma {:induction false} CopiesAppend(v: Value, m: nat, n: nat)
    ensures Append(Copies(v, m), Copies(v, n)) == Copies(v, m + n)
  {
    if m > 0 { CopiesAppend(v, m - 1, n); }
  }

  // --- Lists as sequences -------------------------------------------------------------------

  function Elements(l: List): seq<Value> { if l.Null? then [] else [l.car] + Elements(l.cdr) }

  function FromElements(s: seq<Value>): (l: List)
    ensures Elements(l) == s
  {
    if s == [] then Null else Cons(s[0], FromElements(s[1..]))
  }

  lemma {:induction false} ElementsAppend(l: List, m: List)
    ensures Elements(Append(l, m)) == Elements(l) + Elements(m)
  {
    if l.Cons? { ElementsAppend(l.cdr, m); }
  }
}
