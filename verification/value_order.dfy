/** The order on values of kernel/value.hpp and kernel/list.hpp, and which values it really orders. */
module ValueOrder {
  import opened Options
  import opened Values
  import opened BinaryTree

  /** operator< on strings: the bytes, and a proper prefix comes first. */
  predicate TextLess(s: string, t: string) {
    t != [] && (s == [] || s[0] < t[0] || (s[0] == t[0] && TextLess(s[1..], t[1..])))
  }

  /** operator< on values: false between values of different types. */
  predicate Less(a: Value, b: Value) {
    match a
    case Lst(l) => b.Lst? && ListLess(l, b.items)
    case Symbol(s) => IsText(b) && TextLess(s, b.str)
    case Str(s) => IsText(b) && TextLess(s, b.str)
    case Boolean(t) => b.Boolean? && !t && b.boo
    case Num(n) => b.Num? && n < b.num
    case Nil => false
  }

  predicate ListLess(l: List, m: List) {
    if l.Null? then m.Cons?
    else m.Cons? && (Less(l.car, m.car) || (Same(l.car, m.car) && ListLess(l.cdr, m.cdr)))
  }

  /** The default comparator of the trees. */
  function RbtreeComp(a: Value, b: Value): int { if Same(a, b) then 0 else if Less(a, b) then -1 else 1 }

  /** The values have one type where it matters: lists do so up to their first difference. */
  predicate Comparable(a: Value, b: Value) {
    match a
    case Lst(l) => b.Lst? && ListComparable(l, b.items)
    case Symbol(_) => IsText(b)
    case Str(_) => IsText(b)
    case Boolean(_) => b.Boolean?
    case Num(_) => b.Num?
    case Nil => b.Nil?
  }

  predicate ListComparable(l: List, m: List) {
    l.Null? || m.Null? || (if Same(l.car, m.car) then ListComparable(l.cdr, m.cdr) else Comparable(l.car, m.car))
  }

  // --- Strings ------------------------------------------------------------------------------

  lemma {:induction false} TextTrichotomy(s: string, t: string)
    ensures TextLess(s, t) || s == t || TextLess(t, s)
    ensures !(TextLess(s, t) && TextLess(t, s))
    decreases |s| + |t|
  {
    if s != [] && t != [] {
      TextTrichotomy(s[1..], t[1..]);
      assert s == [s[0]] + s[1..] && t == [t[0]] + t[1..];
    }
  }

  lemma {:induction false} TextTransitive(s: string, t: string, u: string)
    requires TextLess(s, t) && TextLess(t, u)
    ensures TextLess(s, u)
  {
    if s != [] && s[0] == t[0] == u[0] { TextTransitive(s[1..], t[1..], u[1..]); }
  }

  // --- Sameness is an equivalence that the order respects -----------------------------------

  lemma {:induction false} SameLaws(a: Value, b: Value, c: Value)
    ensures Same(a, a) && (Same(a, b) <==> Same(b, a))
    ensures Same(a, b) && Same(b, c) ==> Same(a, c)
    decreases a, b, c
  {
    if a.Lst? { SameListLaws(a.items, if b.Lst? then b.items else Null, if c.Lst? then c.items else Null); }
    if b.Lst? && a.Lst? { SameListLaws(a.items, b.items, Null); }
  }

  lemma {:induction false} SameListLaws(l: List, m: List, n: List)
    ensures SameList(l, l) && (SameList(l, m) <==> SameList(m, l))
    ensures SameList(l, m) && SameList(m, n) ==> SameList(l, n)
    decreases l, m, n
  {
    if l.Cons? {
      SameLaws(l.car, if m.Cons? then m.car else Nil, if n.Cons? then n.car else Nil);
      SameListLaws(l.cdr, if m.Cons? then m.cdr else Null, if n.Cons? then n.cdr else Null);
    }
  }

  lemma {:induction false} OrderRespectsSame(a: Value, b: Value, c: Value)
    requires Same(a, b)
    ensures Less(a, c) == Less(b, c) && Less(c, a) == Less(c, b)
    ensures Comparable(a, c) == Comparable(b, c) && Comparable(c, a) == Comparable(c, b)
    decreases a
  {
    if a.Lst? && c.Lst? { ListOrderRespectsSame(a.items, b.items, c.items); }
  }

  lemma {:induction false} ListOrderRespectsSame(l: List, m: List, n: List)
    requires SameList(l, m)
    ensures ListLess(l, n) == ListLess(m, n) && ListLess(n, l) == ListLess(n, m)
    ensures ListComparable(l, n) == ListComparable(m, n) && ListComparable(n, l) == ListComparable(n, m)
    decreases l
  {
    if l.Cons? && n.Cons? {
      OrderRespectsSame(l.car, m.car, n.car);
      ListOrderRespectsSame(l.cdr, m.cdr, n.cdr);
      SameLaws(l.car, m.car, n.car);
      SameLaws(m.car, l.car, n.car);
      SameLaws(n.car, l.car, m.car);
      SameLaws(n.car, m.car, l.car);
    }
  }

  // --- The order ----------------------------------------------------------------------------

  /** Comparable values are below, the same, or above; others are none of these. */
  lemma {:induction false} Trichotomy(a: Value, b: Value)
    ensures Comparable(a, b) <==> Less(a, b) || Same(a, b) || Less(b, a)
    ensures !(Less(a, b) && Less(b, a)) && !(Same(a, b) && (Less(a, b) || Less(b, a)))
    ensures Comparable(a, b) <==> Comparable(b, a)
    decreases a
  {
    SameLaws(a, b, a);
    if IsText(a) && IsText(b) { TextTrichotomy(a.str, b.str); TextTrichotomy(a.str, a.str); }
    if a.Lst? && b.Lst? { ListTrichotomy(a.items, b.items); }
  }

  lemma {:induction false} ListTrichotomy(l: List, m: List)
    ensures ListComparable(l, m) <==> ListLess(l, m) || SameList(l, m) || ListLess(m, l)
    ensures !(ListLess(l, m) && ListLess(m, l)) && !(SameList(l, m) && (ListLess(l, m) || ListLess(m, l)))
    ensures ListComparable(l, m) <==> ListComparable(m, l)
    decreases l
  {
    if l.Cons? && m.Cons? {
      SameLaws(l.car, m.car, l.car);
      Trichotomy(l.car, m.car);
      ListTrichotomy(l.cdr, m.cdr);
    }
  }

  lemma {:induction false} LessTransitive(a: Value, b: Value, c: Value)
    requires Less(a, b) && Less(b, c)
    ensures Less(a, c)
    decreases a
  {
    if IsText(a) { TextTransitive(a.str, b.str, c.str); }
    if a.Lst? { ListLessTransitive(a.items, b.items, c.items); }
  }

  lemma {:induction false} ListLessTransitive(l: List, m: List, n: List)
    requires ListLess(l, m) && ListLess(m, n)
    ensures ListLess(l, n)
    decreases l
  {
    if l.Cons? {
      SameLaws(l.car, m.car, n.car);
      if Less(l.car, m.car) {
        if Less(m.car, n.car) { LessTransitive(l.car, m.car, n.car); } else { OrderRespectsSame(m.car, n.car, l.car); }
      } else {
        OrderRespectsSame(l.car, m.car, n.car);
        if !Less(m.car, n.car) { ListLessTransitive(l.cdr, m.cdr, n.cdr); }
      }
    }
  }

  lemma CompIsOpposite(a: Value, b: Value)
    ensures Opposite(RbtreeComp, a, b) <==> Comparable(a, b)
  {
    Trichotomy(a, b);
    SameLaws(a, b, a);
  }

  lemma CompIsChained(a: Value, b: Value, c: Value)
    ensures Chained(RbtreeComp, a, b, c)
  {
    SameLaws(a, b, c);
    if Same(a, b) { OrderRespectsSame(a, b, c); }
    if Same(b, c) { OrderRespectsSame(b, c, a); }
    if Less(a, b) && Less(b, c) { LessTransitive(a, b, c); }
  }

  /** The default comparator orders a list exactly when its values are pairwise comparable. */
  lemma CompOrdersIff(l: seq<Value>)
    ensures OrdersOn(RbtreeComp, l) <==> forall a, b | a in l && b in l :: Comparable(a, b)
  {
    forall a, b | a in l && b in l ensures Opposite(RbtreeComp, a, b) <==> Comparable(a, b) { CompIsOpposite(a, b); }
    forall a, b, c | a in l && b in l && c in l ensures Chained(RbtreeComp, a, b, c) { CompIsChained(a, b, c); }
  }

  /** Sorting values of different types depends on their order: each sort reverses the other. */
  lemma MixedTypesDoNotSort(n: real, s: string)
    ensures var a, b := Num(n), Str(s); Sort([a, b], RbtreeComp) == [b, a] && Sort([b, a], RbtreeComp) == [a, b]
  {
    var a, b := Num(n), Str(s);
    assert forall x: Value, y: Value ::
      RbtreeCons(x, Node(y, Empty, Empty), RbtreeComp)
      == if Same(x, y) then Node(y, Empty, Empty)
         else if Less(x, y) then Node(y, Node(x, Empty, Empty), Empty)
         else Node(y, Empty, Node(x, Empty, Empty));
    forall x: Value, y: Value
      ensures MkRbtree([x, y], RbtreeComp) == RbtreeCons(x, Node(y, Empty, Empty), RbtreeComp)
    {
      assert [x, y][1..] == [y] && [y][1..] == [];
      assert MkRbtree([y], RbtreeComp) == Node(y, Empty, Empty);
    }
    assert Flatten<Value>(Empty) == [];
    assert Flatten(Node(a, Empty, Empty)) == [a] && Flatten(Node(b, Empty, Empty)) == [b];
  }

  lemma {:induction false} LastLikeOfSame(l: seq<Value>, x: Value, y: Value)
    requires Same(x, y)
    ensures LastLike(l, x, RbtreeComp) == LastLike(l, y, RbtreeComp)
  {
    if l != [] {
      var k := |l| - 1;
      SameLaws(x, y, l[k]);
      SameLaws(y, x, l[k]);
      LastLikeOfSame(l[..k], x, y);
    }
  }

  /** A value of the list stands for each class in a sort, and two of them are comparable. */
  lemma {:induction false} RepresentedInSort(l: seq<Value>, s: seq<Value>, x: Value) returns (y: Value)
    requires IsSortOf(s, l, RbtreeComp) && x in l
    ensures y in s && Same(x, y)
  {
    LastLikeLaws(l, x, RbtreeComp);
    SameLaws(x, x, x);
    y := LastLike(l, x, RbtreeComp).value;
    LastLikeOfSame(l, x, y);
    assert IsLast(l, y, RbtreeComp);
  }

  lemma {:induction false} IncreasingIsComparable(s: seq<Value>, x: Value, y: Value)
    requires Increasing(s, RbtreeComp) && x in s && y in s
    ensures Comparable(x, y)
  {
    var i :| 0 <= i < |s| && s[i] == x;
    var j :| 0 <= j < |s| && s[j] == y;
    Trichotomy(x, y);
    SameLaws(x, x, x);
    if i < j {
      assert RbtreeComp(s[i], s[j]) == -1;
    } else if j < i {
      assert RbtreeComp(s[j], s[i]) == -1;
    }
  }

  /** The sort sorts exactly the lists of pairwise comparable values. */
  lemma {:induction false} SortsIff(l: seq<Value>)
    ensures IsSortOf(Sort(l, RbtreeComp), l, RbtreeComp) <==> forall a, b | a in l && b in l :: Comparable(a, b)
  {
    var s := Sort(l, RbtreeComp);
    CompOrdersIff(l);
    if IsSortOf(s, l, RbtreeComp) {
      forall a, b | a in l && b in l
        ensures Comparable(a, b)
      {
        var x := RepresentedInSort(l, s, a);
        var y := RepresentedInSort(l, s, b);
        IncreasingIsComparable(s, x, y);
        OrderRespectsSame(a, x, y);
        OrderRespectsSame(b, y, a);
      }
    } else if forall a, b | a in l && b in l :: Comparable(a, b) {
      SortSorts(l, RbtreeComp);
    }
  }

  // --- Looking up a value -------------------------------------------------------------------

  /** Equality and order of all values, comparable or not, serve the lookup in a tree. */
  lemma {:induction false} ValuesOrderKeys()
    ensures OrdersKeys(Same, Less)
  {
    forall a, b
      ensures KeysOrdered(Same, Less, a, b)
    {
      Trichotomy(a, b);
      if Same(a, b) {
        forall c ensures Less(a, c) == Less(b, c) && Less(c, a) == Less(c, b) { OrderRespectsSame(a, b, c); }
      }
    }
  }

  /** Whatever the key, a tree of values with increasing keys is looked up like its list. */
  lemma {:induction false} LookupOfValue<V>(k: Value, tree: Tree<(Value, V)>)
    requires KeysIncrease(Flatten(tree), Less)
    ensures RbtreeAssoc(k, tree, Same, Less) == Assoc(k, Flatten(tree), Same)
  {
    ValuesOrderKeys();
    LookupInTree(k, tree, Same, Less);
  }

  type Entry = (Value, List)

  /** Entries are lists headed by their keys, and are sorted as lists. */
  function EntryComp(a: Entry, b: Entry): int { RbtreeComp(Lst(Cons(a.0, a.1)), Lst(Cons(b.0, b.1))) }

  /** Every two entries have keys that differ and can be compared. */
  ghost predicate DistinctKeys(l: seq<Entry>) {
    forall a, b | a in l && b in l && a != b :: Comparable(a.0, b.0) && !Same(a.0, b.0)
  }

  lemma {:induction false} EntriesOrdered(l: seq<Entry>)
    requires DistinctKeys(l)
    ensures OrdersOn(EntryComp, l)
  {
    forall a, b | a in l && b in l
      ensures Opposite(EntryComp, a, b)
    {
      SameLaws(Lst(Cons(a.0, a.1)), Lst(Cons(b.0, b.1)), Nil);
      Trichotomy(Lst(Cons(a.0, a.1)), Lst(Cons(b.0, b.1)));
      CompIsOpposite(Lst(Cons(a.0, a.1)), Lst(Cons(b.0, b.1)));
    }
    forall a, b, c | a in l && b in l && c in l
      ensures Chained(EntryComp, a, b, c)
    {
      CompIsChained(Lst(Cons(a.0, a.1)), Lst(Cons(b.0, b.1)), Lst(Cons(c.0, c.1)));
    }
  }

  lemma {:induction false} EntryLess(a: Entry, b: Entry)
    requires EntryComp(a, b) == -1 && (a != b ==> !Same(a.0, b.0))
    ensures Less(a.0, b.0)
  {
    var x, y := Cons(a.0, a.1), Cons(b.0, b.1);
    SameLaws(Lst(x), Nil, Nil);
    assert x != y && Less(Lst(x), Lst(y));
    assert ListLess(x, y);
  }

  lemma {:induction false} AssocOfOnly(k: Value, l: seq<Entry>, e: Entry)
    requires DistinctKeys(l) && e in l && Same(k, e.0)
    ensures Assoc(k, l, Same) == Some(e)
  {
    SameLaws(k, l[0].0, e.0);
    SameLaws(l[0].0, k, e.0);
    if e != l[0] {
      assert e in l[1..];
      AssocOfOnly(k, l[1..], e);
    }
  }

  lemma {:induction false} AssocFinds(k: Value, l: seq<Entry>)
    ensures Assoc(k, l, Same).Some? ==> Assoc(k, l, Same).value in l && Same(k, Assoc(k, l, Same).value.0)
  {
    if l != [] { AssocFinds(k, l[1..]); }
  }

  lemma {:induction false} AssocOfSameEntries(k: Value, l: seq<Entry>, s: seq<Entry>)
    requires DistinctKeys(l) && DistinctKeys(s) && forall e :: e in l <==> e in s
    ensures Assoc(k, l, Same) == Assoc(k, s, Same)
  {
    AssocFinds(k, l);
    AssocFinds(k, s);
    if Assoc(k, l, Same).Some? {
      AssocOfOnly(k, s, Assoc(k, l, Same).value);
    } else if Assoc(k, s, Same).Some? {
      AssocOfOnly(k, l, Assoc(k, s, Same).value);
    }
  }

  lemma {:induction false} AloneInClass(l: seq<Entry>, a: Entry, b: Entry)
    requires DistinctKeys(l) && a in l && b in l && EntryComp(a, b) == 0
    ensures a == b
  {
    var x, y := Cons(a.0, a.1), Cons(b.0, b.1);
    assert Same(Lst(x), Lst(y));
    assert SameList(x, y);
  }

  /** Sorting entries with distinct keys loses none and puts their keys in order. */
  lemma {:induction false} SortedEntries(l: seq<Entry>)
    requires DistinctKeys(l)
    ensures KeysIncrease(Sort(l, EntryComp), Less) && forall e :: e in l <==> e in Sort(l, EntryComp)
  {
    var s := Sort(l, EntryComp);
    EntriesOrdered(l);
    SortSorts(l, EntryComp);
    forall e | e in s ensures e in l { assert IsLast(l, e, EntryComp); }
    forall e | e in l
      ensures e in s
    {
      ClassIsSorted(s, l, e, EntryComp);
      LastLikeLaws(l, e, EntryComp);
      AloneInClass(l, e, LastLike(l, e, EntryComp).value);
    }
    forall i, j | 0 <= i < j < |s|
      ensures Less(s[i].0, s[j].0)
    {
      assert s[i] in l && s[j] in l;
      EntryLess(s[i], s[j]);
    }
  }

  /** A balanced tree of sorted entries is looked up like the list of the entries as they came. */
  lemma {:induction false} LookupInSortedEntries(k: Value, l: seq<Entry>)
    requires DistinctKeys(l)
    ensures RbtreeAssoc(k, MkBrbtree(Sort(l, EntryComp)), Same, Less) == Assoc(k, l, Same)
  {
    var s := Sort(l, EntryComp);
    SortedEntries(l);
    ValuesOrderKeys();
    LookupInBalancedTree(k, s, Same, Less);
    AssocOfSameEntries(k, s, l);
  }
}
