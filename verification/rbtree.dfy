/** The rooted binary trees of kernel/tree.hpp: an insertion-built tree used as a sort, and a
    balanced tree built in one pass. */
module BinaryTree {
  import opened Options

  /** A tree is the empty list or the three element list of an entry and two branches. */
  datatype Tree<T> = Empty | Node(entry: T, left: Tree<T>, right: Tree<T>)

  type Comparator<!T> = (T, T) -> int

  function RbtreeCons<T>(e: T, tree: Tree<T>, comp: Comparator<T>): Tree<T> {
    if tree.Empty? then Node(e, Empty, Empty) else
      var c := comp(e, tree.entry);
      if c == 0 then tree
      else if c == -1 then Node(tree.entry, RbtreeCons(e, tree.left, comp), tree.right)
      else Node(tree.entry, tree.left, RbtreeCons(e, tree.right, comp))
  }

  function MkRbtree<T>(l: seq<T>, comp: Comparator<T>): Tree<T> {
    if l == [] then Empty else RbtreeCons(l[0], MkRbtree(l[1..], comp), comp)
  }

  function Flatten<T>(tree: Tree<T>): seq<T> {
    if tree.Empty? then [] else Flatten(tree.left) + [tree.entry] + Flatten(tree.right)
  }

  function Sort<T>(l: seq<T>, comp: Comparator<T>): seq<T> { Flatten(MkRbtree(l, comp)) }

  // --- Sorting ------------------------------------------------------------------------------

  /** The comparator returns -1, 0 or 1, in opposite directions for the two orders of its arguments. */
  predicate Opposite<T>(comp: Comparator<T>, a: T, b: T) {
    -1 <= comp(a, b) <= 1 && comp(a, b) == -comp(b, a)
  }

  predicate Chained<T>(comp: Comparator<T>, a: T, b: T, c: T) {
    comp(a, b) <= 0 && comp(b, c) <= 0 ==> comp(a, c) <= 0
  }

  /** The comparator orders the values of the list. */
  ghost predicate OrdersOn<T>(comp: Comparator<T>, l: seq<T>) {
    && (forall a, b | a in l && b in l :: Opposite(comp, a, b))
    && (forall a, b, c | a in l && b in l && c in l :: Chained(comp, a, b, c))
  }

  ghost predicate Increasing<T>(l: seq<T>, comp: Comparator<T>) {
    forall i, j | 0 <= i < j < |l| :: comp(l[i], l[j]) == -1
  }

  /** The last value of the list that compares equal to x. */
  function LastLike<T>(l: seq<T>, x: T, comp: Comparator<T>): Option<T> {
    if l == [] then None
    else if comp(x, l[|l| - 1]) == 0 then Some(l[|l| - 1])
    else LastLike(l[..|l| - 1], x, comp)
  }

  /** x is the last value of its class in the list. */
  ghost predicate IsLast<T>(l: seq<T>, x: T, comp: Comparator<T>) { x in l && LastLike(l, x, comp) == Some(x) }

  /** A strictly increasing list of exactly the last values of the classes of the input. */
  ghost predicate IsSortOf<T>(s: seq<T>, l: seq<T>, comp: Comparator<T>) {
    && Increasing(s, comp)
    && (forall x | x in s :: IsLast(l, x, comp))
    && (forall x | x in l && IsLast(l, x, comp) :: x in s)
  }

  // The order on the values of a list, as facts about three of them.
  lemma Transitive<T>(comp: Comparator<T>, l: seq<T>, a: T, b: T, c: T)
    requires OrdersOn(comp, l) && a in l && b in l && c in l
    ensures comp(a, b) <= 0 && comp(b, c) == -1 ==> comp(a, c) == -1
    ensures comp(a, b) == -1 && comp(b, c) <= 0 ==> comp(a, c) == -1
    ensures comp(a, b) == 0 && comp(b, c) == 0 ==> comp(a, c) == 0
    ensures comp(a, a) == 0 && comp(a, b) == -comp(b, a)
  {
    assert Opposite(comp, a, a) && Opposite(comp, a, b) && Opposite(comp, b, c) && Opposite(comp, a, c);
    assert Chained(comp, a, b, c) && Chained(comp, c, a, b) && Chained(comp, b, c, a) && Chained(comp, c, b, a);
  }

  ghost predicate AllIn<T>(s: seq<T>, l: seq<T>) { forall x | x in s :: x in l }

  lemma SplitIncreasing<T>(comp: Comparator<T>, a: seq<T>, m: T, b: seq<T>)
    requires Increasing(a + [m] + b, comp)
    ensures Increasing(a, comp) && Increasing(b, comp)
    ensures forall x | x in a :: comp(x, m) == -1
    ensures forall y | y in b :: comp(m, y) == -1
  {
    var s := a + [m] + b;
    assert s[|a|] == m;
    assert forall i | 0 <= i < |a| :: s[i] == a[i];
    forall i, j | 0 <= i < j < |b| ensures comp(b[i], b[j]) == -1 {
      assert s[|a| + 1 + i] == b[i] && s[|a| + 1 + j] == b[j];
    }
    forall y | y in b ensures comp(m, y) == -1 {
      var i :| 0 <= i < |b| && b[i] == y;
      assert s[|a| + 1 + i] == y;
    }
  }

  lemma JoinIncreasing<T>(comp: Comparator<T>, l: seq<T>, a: seq<T>, m: T, b: seq<T>)
    requires OrdersOn(comp, l) && AllIn(a, l) && m in l && AllIn(b, l)
    requires Increasing(a, comp) && Increasing(b, comp)
    requires forall x | x in a :: comp(x, m) == -1
    requires forall y | y in b :: comp(m, y) == -1
    ensures Increasing(a + [m] + b, comp)
  {
    var s := a + [m] + b;
    forall i, j | 0 <= i < j < |s|
      ensures comp(s[i], s[j]) == -1
    {
      if j > |a| { assert s[j] == b[j - |a| - 1]; }
      if i > |a| { assert s[i] == b[i - |a| - 1]; }
      if i < |a| < j { Transitive(comp, l, s[i], m, s[j]); }
    }
  }

  /** What one insertion does to a sorted list: the new first value joins if its class is new. */
  ghost predicate Inserted<T>(e: T, before: seq<T>, after: seq<T>, comp: Comparator<T>) {
    if exists y :: y in before && comp(e, y) == 0 then after == before
    else e in after && (forall x | x in after :: x in before || x == e) && (forall x | x in before :: x in after)
  }

  lemma InsertedInside<T>(e: T, a: seq<T>, before: seq<T>, after: seq<T>, b: seq<T>, comp: Comparator<T>)
    requires Inserted(e, before, after, comp)
    requires forall x | x in a || x in b :: comp(e, x) != 0
    ensures Inserted(e, a + before + b, a + after + b, comp)
  {
    if y :| y in before && comp(e, y) == 0 {
      assert y in a + before + b;
    } else {
      assert forall x :: x in a + before + b <==> x in a || x in before || x in b;
      assert forall x :: x in a + after + b <==> x in a || x in after || x in b;
    }
  }

  lemma InsertedLeft<T>(comp: Comparator<T>, l: seq<T>, e: T, left: seq<T>, left': seq<T>, m: T, right: seq<T>)
    requires OrdersOn(comp, l) && e in l && m in l && AllIn(left, l) && AllIn(right, l) && AllIn(left', l)
    requires Increasing(left + [m] + right, comp) && comp(e, m) == -1
    requires Increasing(left', comp) && Inserted(e, left, left', comp)
    ensures var after := left' + [m] + right;
      AllIn(after, l) && Increasing(after, comp) && Inserted(e, left + [m] + right, after, comp)
  {
    SplitIncreasing(comp, left, m, right);
    forall y | y in right ensures comp(e, y) == -1 { Transitive(comp, l, e, m, y); }
    JoinIncreasing(comp, l, left', m, right);
    InsertedInside(e, [], left, left', [m] + right, comp);
    assert [] + left + ([m] + right) == left + [m] + right && [] + left' + ([m] + right) == left' + [m] + right;
  }

  lemma InsertedRight<T>(comp: Comparator<T>, l: seq<T>, e: T, left: seq<T>, m: T, right: seq<T>, right': seq<T>)
    requires OrdersOn(comp, l) && e in l && m in l && AllIn(left, l) && AllIn(right, l) && AllIn(right', l)
    requires Increasing(left + [m] + right, comp) && comp(m, e) == -1 && comp(e, m) == 1
    requires Increasing(right', comp) && Inserted(e, right, right', comp)
    ensures var after := left + [m] + right';
      AllIn(after, l) && Increasing(after, comp) && Inserted(e, left + [m] + right, after, comp)
  {
    SplitIncreasing(comp, left, m, right);
    forall x | x in left
      ensures comp(x, e) == -1 && comp(e, x) == 1
    {
      Transitive(comp, l, x, m, e);
      Transitive(comp, l, e, x, e);
    }
    JoinIncreasing(comp, l, left, m, right');
    InsertedInside(e, left + [m], right, right', [], comp);
    assert left + [m] + right + [] == left + [m] + right && left + [m] + right' + [] == left + [m] + right';
  }

  /** Inserting keeps the order and adds the value, unless its class is there already. */
  lemma {:induction false} InsertKeepsOrder<T>(e: T, tree: Tree<T>, comp: Comparator<T>, l: seq<T>)
    requires OrdersOn(comp, l) && e in l && AllIn(Flatten(tree), l) && Increasing(Flatten(tree), comp)
    ensures var after := Flatten(RbtreeCons(e, tree, comp));
      AllIn(after, l) && Increasing(after, comp) && Inserted(e, Flatten(tree), after, comp)
    decreases tree
  {
    if tree.Node? {
      var m, left, right := tree.entry, Flatten(tree.left), Flatten(tree.right);
      SplitIncreasing(comp, left, m, right);
      assert m in Flatten(tree) && AllIn(left, l) && AllIn(right, l);
      assert Opposite(comp, e, m);
      if comp(e, m) == -1 {
        InsertKeepsOrder(e, tree.left, comp, l);
        InsertedLeft(comp, l, e, left, Flatten(RbtreeCons(e, tree.left, comp)), m, right);
      } else if comp(e, m) == 1 {
        InsertKeepsOrder(e, tree.right, comp, l);
        InsertedRight(comp, l, e, left, m, right, Flatten(RbtreeCons(e, tree.right, comp)));
      }
    }
  }

  lemma {:induction false} LastLikeLaws<T>(l: seq<T>, x: T, comp: Comparator<T>)
    ensures var r := LastLike(l, x, comp);
      && (r.None? <==> forall y | y in l :: comp(x, y) != 0)
      && (r.Some? ==> r.value in l && comp(x, r.value) == 0)
  {
    if l != [] {
      var k := |l| - 1;
      LastLikeLaws(l[..k], x, comp);
      assert l == l[..k] + [l[k]];
    }
  }

  lemma {:induction false} LastLikeConcat<T>(a: seq<T>, b: seq<T>, x: T, comp: Comparator<T>)
    ensures LastLike(a + b, x, comp)
         == if LastLike(b, x, comp).Some? then LastLike(b, x, comp) else LastLike(a, x, comp)
    decreases |b|
  {
    if b == [] {
      assert a + b == a;
    } else {
      var k := |b| - 1;
      assert (a + b)[..|a + b| - 1] == a + b[..k];
      LastLikeConcat(a, b[..k], x, comp);
    }
  }

  /** Values of one class have the same last representative. */
  lemma {:induction false} LastLikeOfClass<T>(l: seq<T>, all: seq<T>, x: T, y: T, comp: Comparator<T>)
    requires OrdersOn(comp, all) && AllIn(l, all) && x in all && y in all && comp(x, y) == 0
    ensures LastLike(l, x, comp) == LastLike(l, y, comp)
  {
    if l != [] {
      var k := |l| - 1;
      assert l[k] in l && AllIn(l[..k], all);
      Transitive(comp, all, x, y, l[k]);
      Transitive(comp, all, y, x, l[k]);
      LastLikeOfClass(l[..k], all, x, y, comp);
    }
  }

  /** The first value of a list is the last of its class only if it is the only one. */
  lemma LastLikeOfFirst<T>(l: seq<T>, x: T, comp: Comparator<T>)
    requires l != []
    ensures LastLike(l, x, comp)
         == if LastLike(l[1..], x, comp).Some? then LastLike(l[1..], x, comp)
            else if comp(x, l[0]) == 0 then Some(l[0]) else None
  {
    assert l == [l[0]] + l[1..];
    LastLikeConcat([l[0]], l[1..], x, comp);
  }

  /** The class of a value has its representative in the sort. */
  lemma ClassIsSorted<T>(s: seq<T>, l: seq<T>, x: T, comp: Comparator<T>)
    requires OrdersOn(comp, l) && IsSortOf(s, l, comp) && x in l
    ensures var r := LastLike(l, x, comp); r.Some? && r.value in s && comp(x, r.value) == 0
  {
    Transitive(comp, l, x, x, x);
    LastLikeLaws(l, x, comp);
    var y := LastLike(l, x, comp).value;
    LastLikeOfClass(l, l, x, y, comp);
  }

  lemma InsertedIsSort<T>(e: T, rest: seq<T>, l: seq<T>, before: seq<T>, after: seq<T>, comp: Comparator<T>)
    requires l == [e] + rest && OrdersOn(comp, l) && IsSortOf(before, rest, comp)
    requires Increasing(after, comp) && Inserted(e, before, after, comp)
    ensures IsSortOf(after, l, comp)
  {
    assert rest == l[1..];
    NewClass(e, rest, before, comp);
    Transitive(comp, l, e, e, e);
    forall x | x in after ensures IsLast(l, x, comp) { LastLikeOfFirst(l, x, comp); }
    forall x | x in l && IsLast(l, x, comp)
      ensures x in after
    {
      LastLikeOfFirst(l, x, comp);
      LastLikeLaws(rest, x, comp);
      if LastLike(rest, x, comp).Some? { assert IsLast(rest, x, comp); }
    }
  }

  /** The class of a value is in the list exactly when it is in the sort of the list. */
  lemma NewClass<T>(e: T, rest: seq<T>, before: seq<T>, comp: Comparator<T>)
    requires OrdersOn(comp, [e] + rest) && IsSortOf(before, rest, comp)
    ensures LastLike(rest, e, comp).Some? <==> exists y :: y in before && comp(e, y) == 0
  {
    LastLikeLaws(rest, e, comp);
    var l := [e] + rest;
    assert forall x :: x in rest ==> x in l;
    if LastLike(rest, e, comp).Some? {
      var y := LastLike(rest, e, comp).value;
      assert e in l && y in l && AllIn(rest, l);
      LastLikeOfClass(rest, l, e, y, comp);
      assert IsLast(rest, y, comp);
    } else {
      forall y | y in before ensures comp(e, y) != 0 { assert IsLast(rest, y, comp); }
    }
  }

  /** The sort yields a strictly increasing list with the last value of each class of its input. */
  lemma {:induction false} SortSorts<T>(l: seq<T>, comp: Comparator<T>)
    requires OrdersOn(comp, l)
    ensures IsSortOf(Sort(l, comp), l, comp)
  {
    if l != [] {
      var e, rest := l[0], l[1..];
      assert l == [e] + rest;
      SortSorts(rest, comp);
      var before, after := Sort(rest, comp), Sort(l, comp);
      InsertKeepsOrder(e, MkRbtree(rest, comp), comp, l);
      InsertedIsSort(e, rest, l, before, after, comp);
    }
  }

  lemma {:induction false} SameElementsSameList<T>(s: seq<T>, t: seq<T>, l: seq<T>, comp: Comparator<T>)
    requires OrdersOn(comp, l) && AllIn(s, l) && AllIn(t, l) && Increasing(s, comp) && Increasing(t, comp)
    requires forall x :: x in s <==> x in t
    ensures s == t
    decreases |s|
  {
    assert s != [] ==> s[0] in t;
    assert t != [] ==> t[0] in s;
    if s != [] && t != [] {
      NotFirstAgain(s, l, comp);
      NotFirstAgain(t, l, comp);
      assert s == [s[0]] + s[1..] && t == [t[0]] + t[1..];
      Transitive(comp, l, s[0], t[0], s[0]);
      forall x
        ensures x in s[1..] <==> x in t[1..]
      {
        assert x in s <==> x in t;
      }
      SameElementsSameList(s[1..], t[1..], l, comp);
    }
  }

  lemma NotFirstAgain<T>(s: seq<T>, l: seq<T>, comp: Comparator<T>)
    requires OrdersOn(comp, l) && AllIn(s, l) && Increasing(s, comp) && s != []
    ensures s[0] !in s[1..]
    ensures forall x | x in s && x != s[0] :: comp(s[0], x) == -1
  {
    assert s[0] in l;
    Transitive(comp, l, s[0], s[0], s[0]);
    assert forall i | 0 <= i < |s| - 1 :: s[1..][i] == s[i + 1] && comp(s[0], s[i + 1]) == -1;
  }

  /** The two properties determine the list: what the sort returns is the only sort of its input. */
  lemma SortIsUnique<T>(s: seq<T>, l: seq<T>, comp: Comparator<T>)
    requires OrdersOn(comp, l)
    ensures IsSortOf(s, l, comp) <==> s == Sort(l, comp)
  {
    SortSorts(l, comp);
    if IsSortOf(s, l, comp) {
      forall x ensures x in s <==> x in Sort(l, comp) { assert x in l && IsLast(l, x, comp) ==> x in s; }
      SameElementsSameList(s, Sort(l, comp), l, comp);
    }
  }

  // --- The balanced tree --------------------------------------------------------------------

  function LeftSize(n: nat): (k: nat)
    requires 0 < n
    ensures k < n && 2 * k + 1 <= n <= 2 * k + 2
  {
    (n - 1) / 2
  }

  /** A balanced tree of the next n elements, and the elements that remain. */
  function BrbtreeHelper<T>(elements: seq<T>, n: nat): (r: (Tree<T>, seq<T>))
    requires n <= |elements|
    ensures r.1 == elements[n..] && Flatten(r.0) == elements[..n]
    ensures Balanced(r.0) && Size(r.0) == n
    decreases n
  {
    if n == 0 then (Empty, elements) else
      var leftSize := LeftSize(n);
      var leftResult := BrbtreeHelper(elements, leftSize);
      var nonLeft := leftResult.1;
      var rightSize := n - (leftSize + 1);
      var rightResult := BrbtreeHelper(nonLeft[1..], rightSize);
      Rejoin(elements, nonLeft, leftSize, rightSize);
      (Node(nonLeft[0], leftResult.0, rightResult.0), rightResult.1)
  }

  lemma Rejoin<T>(s: seq<T>, nonLeft: seq<T>, k: nat, m: nat)
    requires k + 1 + m <= |s| && nonLeft == s[k..]
    ensures s[..k + 1 + m] == s[..k] + [nonLeft[0]] + nonLeft[1..][..m]
    ensures nonLeft[1..][m..] == s[k + 1 + m..]
  {}

  function MkBrbtree<T>(elements: seq<T>): Tree<T> { BrbtreeHelper(elements, |elements|).0 }

  function Size<T>(tree: Tree<T>): nat { if tree.Empty? then 0 else Size(tree.left) + 1 + Size(tree.right) }

  function Height<T>(tree: Tree<T>): nat {
    if tree.Empty? then 0
    else 1 + if Height(tree.left) < Height(tree.right) then Height(tree.right) else Height(tree.left)
  }

  /** At every node the sizes of the two branches differ by at most one. */
  predicate Balanced<T>(tree: Tree<T>) {
    tree.Node? ==>
      -1 <= Size(tree.left) - Size(tree.right) <= 1 && Balanced(tree.left) && Balanced(tree.right)
  }

  function Pow2(n: nat): nat { if n == 0 then 1 else 2 * Pow2(n - 1) }

  lemma {:induction false} Pow2Monotonic(m: nat, n: nat)
    requires m <= n
    ensures Pow2(m) <= Pow2(n)
    decreases n - m
  {
    if m < n { Pow2Monotonic(m + 1, n); }
  }

  lemma OneLevelUp(size: nat, s: nat, t: nat, h: nat, k: nat)
    requires size == s + 1 + t && -1 <= s - t <= 1 && k <= h
    requires s < Pow2(h) && t < Pow2(k) && (0 < h ==> Pow2(h - 1) <= s)
    ensures Pow2(h) <= size < Pow2(h + 1)
  {
    Pow2Monotonic(k, h);
    if k < h { Pow2Monotonic(k, h - 1); }
  }

  /** Any balanced tree has the least possible height for its size. */
  lemma {:induction false} BalancedHeight<T>(tree: Tree<T>)
    requires Balanced(tree)
    ensures tree.Node? ==> Pow2(Height(tree) - 1) <= Size(tree)
    ensures Size(tree) < Pow2(Height(tree))
  {
    if tree.Node? {
      BalancedHeight(tree.left);
      BalancedHeight(tree.right);
      var hl, hr := Height(tree.left), Height(tree.right);
      if hl < hr {
        OneLevelUp(Size(tree), Size(tree.right), Size(tree.left), hr, hl);
      } else {
        OneLevelUp(Size(tree), Size(tree.left), Size(tree.right), hl, hr);
      }
    }
  }

  /** Every list comes back from its balanced tree, whose height is minimal. */
  lemma MkBrbtreeLaws<T>(elements: seq<T>)
    ensures var tree := MkBrbtree(elements);
      && Flatten(tree) == elements
      && Size(tree) == |elements|
      && Balanced(tree)
      && (elements != [] ==> Pow2(Height(tree) - 1) <= |elements| < Pow2(Height(tree)))
  {
    BalancedHeight(MkBrbtree(elements));
  }

  // --- Looking up a key ---------------------------------------------------------------------

  /** Entries are key and value pairs; `same` and `less` are operator== and operator< on keys. */
  function RbtreeAssoc<K, V>(k: K, tree: Tree<(K, V)>, same: (K, K) -> bool, less: (K, K) -> bool): Option<(K, V)> {
    if tree.Empty? then None
    else if same(k, tree.entry.0) then Some(tree.entry)
    else if less(k, tree.entry.0) then RbtreeAssoc(k, tree.left, same, less)
    else RbtreeAssoc(k, tree.right, same, less)
  }

  /** How many nodes that looks at. */
  function Visits<K, V>(k: K, tree: Tree<(K, V)>, same: (K, K) -> bool, less: (K, K) -> bool): nat {
    if tree.Empty? then 0
    else if same(k, tree.entry.0) then 1
    else if less(k, tree.entry.0) then 1 + Visits(k, tree.left, same, less)
    else 1 + Visits(k, tree.right, same, less)
  }

  /** The linear lookup of kernel/list.hpp. */
  function Assoc<K, V>(k: K, l: seq<(K, V)>, same: (K, K) -> bool): Option<(K, V)> {
    if l == [] then None else if same(k, l[0].0) then Some(l[0]) else Assoc(k, l[1..], same)
  }

  /** No key is below itself in two directions or below one it equals, and keys that equal one are
      ordered alike. Two keys need be neither equal nor ordered. */
  ghost predicate OrdersKeys<K(!new)>(same: (K, K) -> bool, less: (K, K) -> bool) {
    forall a, b :: KeysOrdered(same, less, a, b)
  }

  ghost predicate KeysOrdered<K(!new)>(same: (K, K) -> bool, less: (K, K) -> bool, a: K, b: K) {
    && (less(a, b) ==> !less(b, a) && !same(a, b))
    && (same(a, b) ==> forall c :: less(a, c) == less(b, c) && less(c, a) == less(c, b))
  }

  ghost predicate KeysIncrease<K, V>(l: seq<(K, V)>, less: (K, K) -> bool) {
    forall i, j | 0 <= i < j < |l| :: less(l[i].0, l[j].0)
  }

  lemma {:induction false} AssocConcat<K, V>(k: K, a: seq<(K, V)>, b: seq<(K, V)>, same: (K, K) -> bool)
    ensures Assoc(k, a + b, same) == if Assoc(k, a, same).Some? then Assoc(k, a, same) else Assoc(k, b, same)
  {
    if a == [] {
      assert a + b == b;
    } else {
      assert (a + b)[1..] == a[1..] + b;
      AssocConcat(k, a[1..], b, same);
    }
  }

  lemma {:induction false} AssocMisses<K, V>(k: K, l: seq<(K, V)>, same: (K, K) -> bool)
    requires forall x | x in l :: !same(k, x.0)
    ensures Assoc(k, l, same) == None
  {
    if l != [] { AssocMisses(k, l[1..], same); }
  }

  lemma SplitKeys<K(!new), V>(a: seq<(K, V)>, m: (K, V), b: seq<(K, V)>, less: (K, K) -> bool)
    requires KeysIncrease(a + [m] + b, less)
    ensures KeysIncrease(a, less) && KeysIncrease(b, less)
    ensures (forall x | x in a :: less(x.0, m.0)) && (forall x | x in b :: less(m.0, x.0))
  {
    var l := a + [m] + b;
    assert l[|a|] == m;
    assert forall i | 0 <= i < |a| :: l[i] == a[i];
    forall i, j | 0 <= i < j < |b| ensures less(b[i].0, b[j].0) {
      assert l[|a| + 1 + i] == b[i] && l[|a| + 1 + j] == b[j];
    }
    forall x | x in b ensures less(m.0, x.0) {
      var i :| 0 <= i < |b| && b[i] == x;
      assert l[|a| + 1 + i] == x;
    }
  }

  /** Below or above an entry, the keys on its other side are all different from the one looked up. */
  lemma MissesOtherSide<K(!new), V>(k: K, a: seq<(K, V)>, m: (K, V), b: seq<(K, V)>,
                                    same: (K, K) -> bool, less: (K, K) -> bool)
    requires OrdersKeys(same, less) && KeysIncrease(a + [m] + b, less)
    ensures same(k, m.0) || !less(k, m.0) ==> Assoc(k, a, same) == None
    ensures less(k, m.0) ==> Assoc(k, b, same) == None
  {
    SplitKeys(a, m, b, less);
    assert KeysOrdered(same, less, k, m.0);
    if same(k, m.0) || !less(k, m.0) {
      forall x | x in a ensures !same(k, x.0) { assert KeysOrdered(same, less, k, x.0); }
      AssocMisses(k, a, same);
    }
    if less(k, m.0) {
      forall x | x in b ensures !same(k, x.0) { assert KeysOrdered(same, less, k, x.0); }
      AssocMisses(k, b, same);
    }
  }

  lemma AssocAround<K(!new), V>(k: K, a: seq<(K, V)>, m: (K, V), b: seq<(K, V)>,
                                same: (K, K) -> bool, less: (K, K) -> bool)
    requires OrdersKeys(same, less) && KeysIncrease(a + [m] + b, less)
    ensures Assoc(k, a + [m] + b, same)
         == if same(k, m.0) then Some(m) else if less(k, m.0) then Assoc(k, a, same) else Assoc(k, b, same)
  {
    MissesOtherSide(k, a, m, b, same, less);
    AssocConcat(k, a + [m], b, same);
    AssocConcat(k, a, [m], same);
    assert Assoc(k, [m], same) == if same(k, m.0) then Some(m) else None;
  }

  /** In a tree with increasing keys the lookup finds what the linear lookup finds. */
  lemma {:induction false} LookupInTree<K(!new), V>(k: K, tree: Tree<(K, V)>,
                                                    same: (K, K) -> bool, less: (K, K) -> bool)
    requires OrdersKeys(same, less) && KeysIncrease(Flatten(tree), less)
    ensures RbtreeAssoc(k, tree, same, less) == Assoc(k, Flatten(tree), same)
  {
    if tree.Node? {
      SplitKeys(Flatten(tree.left), tree.entry, Flatten(tree.right), less);
      AssocAround(k, Flatten(tree.left), tree.entry, Flatten(tree.right), same, less);
      LookupInTree(k, tree.left, same, less);
      LookupInTree(k, tree.right, same, less);
    }
  }

  lemma {:induction false} VisitsBounded<K, V>(k: K, tree: Tree<(K, V)>, same: (K, K) -> bool, less: (K, K) -> bool)
    ensures Visits(k, tree, same, less) <= Height(tree) && (tree.Node? ==> 0 < Visits(k, tree, same, less))
  {
    if tree.Node? {
      VisitsBounded(k, tree.left, same, less);
      VisitsBounded(k, tree.right, same, less);
    }
  }

  lemma VisitsLogarithmic<K, V>(k: K, l: seq<(K, V)>, same: (K, K) -> bool, less: (K, K) -> bool)
    requires l != []
    ensures var v := Visits(k, MkBrbtree(l), same, less); 0 < v <= Height(MkBrbtree(l)) && Pow2(v - 1) <= |l|
  {
    MkBrbtreeLaws(l);
    VisitsBounded(k, MkBrbtree(l), same, less);
    Pow2Monotonic(Visits(k, MkBrbtree(l), same, less) - 1, Height(MkBrbtree(l)) - 1);
  }

  /** The lookup in the balanced tree of a list with increasing keys is the linear lookup, in
      logarithmically many steps. */
  lemma LookupInBalancedTree<K(!new), V>(k: K, l: seq<(K, V)>, same: (K, K) -> bool, less: (K, K) -> bool)
    requires OrdersKeys(same, less) && KeysIncrease(l, less)
    ensures RbtreeAssoc(k, MkBrbtree(l), same, less) == Assoc(k, l, same)
    ensures l != [] ==> var v := Visits(k, MkBrbtree(l), same, less); 0 < v && Pow2(v - 1) <= |l|
  {
    MkBrbtreeLaws(l);
    LookupInTree(k, MkBrbtree(l), same, less);
    if l != [] { VisitsLogarithmic(k, l, same, less); }
  }
}
