/** Ranking through the sort of kernel/tree.hpp, and ranking again what several shards ranked. */
module TopK {
  import opened BinaryTree

  function Reversed<T>(s: seq<T>): (r: seq<T>)
    ensures |r| == |s|
  {
    seq(|s|, i requires 0 <= i < |s| => s[|s| - 1 - i])
  }

  /** The first k elements; all of them when there are fewer. */
  function Head<T>(s: seq<T>, k: nat): seq<T> { if k <= |s| then s[..k] else s }

  /** The best k values, best first, one for each class. */
  function Top<T>(l: seq<T>, comp: Comparator<T>, k: nat): seq<T> { Head(Reversed(Sort(l, comp)), k) }

  function Concat<T>(shards: seq<seq<T>>): seq<T> {
    if shards == [] then [] else Concat(shards[..|shards| - 1]) + shards[|shards| - 1]
  }

  function Tops<T>(shards: seq<seq<T>>, comp: Comparator<T>, k: nat): (r: seq<seq<T>>)
    ensures |r| == |shards|
  {
    seq(|shards|, i requires 0 <= i < |shards| => Top(shards[i], comp, k))
  }

  // --- Increasing lists seen from their upper end -------------------------------------------

  /** The i-th value from the end. */
  function FromEnd<T>(s: seq<T>, i: nat): T
    requires i < |s|
  {
    s[|s| - 1 - i]
  }

  lemma FromEndDecreases<T>(s: seq<T>, comp: Comparator<T>, l: seq<T>, i: nat, j: nat)
    requires OrdersOn(comp, l) && AllIn(s, l) && Increasing(s, comp) && i < |s| && j < |s|
    ensures comp(FromEnd(s, i), FromEnd(s, j)) == if i < j then 1 else if i == j then 0 else -1
  {
    var a, b := FromEnd(s, i), FromEnd(s, j);
    assert a in s && b in s && a in l && b in l;
    Transitive(comp, l, a, b, a);
    if i < j {
      assert comp(s[|s| - 1 - j], s[|s| - 1 - i]) == -1;
    }
  }

  /** Every class of the increasing list s is a class of t. */
  ghost predicate ClassesWithin<T>(s: seq<T>, t: seq<T>, comp: Comparator<T>) {
    forall x | x in s :: HasClass(t, x, comp)
  }

  ghost predicate HasClass<T>(t: seq<T>, x: T, comp: Comparator<T>) {
    exists j: nat :: j < |t| && comp(x, FromEnd(t, j)) == 0
  }

  /** A value that is i-th from the end of a part is at least i-th from the end of the whole. */
  lemma {:induction false} PartRanksHigher<T>(s: seq<T>, t: seq<T>, l: seq<T>, comp: Comparator<T>, i: nat, q: nat)
    requires OrdersOn(comp, l) && AllIn(s, l) && AllIn(t, l) && Increasing(s, comp) && Increasing(t, comp)
    requires ClassesWithin(s, t, comp) && i < |s| && q < |t| && comp(FromEnd(s, i), FromEnd(t, q)) == 0
    ensures i <= q
    decreases i
  {
    if i > 0 {
      var x, x' := FromEnd(s, i), FromEnd(s, i - 1);
      assert x in s && x' in s && HasClass(t, x', comp);
      var q': nat :| q' < |t| && comp(x', FromEnd(t, q')) == 0;
      PartRanksHigher(s, t, l, comp, i - 1, q');
      var y, y' := FromEnd(t, q), FromEnd(t, q');
      assert y in t && y' in t;
      FromEndDecreases(s, comp, l, i, i - 1);
      Transitive(comp, l, y, x, x');
      Transitive(comp, l, x, y, x);
      Transitive(comp, l, y, x', y');
      FromEndDecreases(t, comp, l, q, q');
    }
  }

  /** Two increasing lists with the same classes at the upper end share that end: if t has no class
      that s lacks, and has the m last values of s, then those are its m last values too. */
  lemma {:induction false} SharedEnd<T>(s: seq<T>, t: seq<T>, l: seq<T>, comp: Comparator<T>, m: nat)
    requires OrdersOn(comp, l) && AllIn(s, l) && AllIn(t, l) && Increasing(s, comp) && Increasing(t, comp)
    requires ClassesWithin(t, s, comp) && m <= |s|
    requires forall i: nat | i < m :: FromEnd(s, i) in t
    ensures m <= |t| && forall i: nat | i < m :: FromEnd(t, i) == FromEnd(s, i)
  {
    if m > 0 {
      SharedEnd(s, t, l, comp, m - 1);
      SharedEndStep(s, t, l, comp, m - 1);
    }
  }

  lemma SharedEndStep<T>(s: seq<T>, t: seq<T>, l: seq<T>, comp: Comparator<T>, n: nat)
    requires OrdersOn(comp, l) && AllIn(s, l) && AllIn(t, l) && Increasing(s, comp) && Increasing(t, comp)
    requires ClassesWithin(t, s, comp) && n < |s| && n <= |t| && FromEnd(s, n) in t
    requires forall i: nat | i < n :: FromEnd(t, i) == FromEnd(s, i)
    ensures n < |t| && FromEnd(t, n) == FromEnd(s, n)
  {
    var x := FromEnd(s, n);
    var p :| 0 <= p < |t| && t[p] == x;
    var j := |t| - 1 - p;
    assert FromEnd(t, j) == x;
    FromEndDecreases(s, comp, l, n, n);
    PartRanksHigher(t, s, l, comp, j, n);
    if j < n { FromEndDecreases(s, comp, l, j, n); }
  }

  // --- The theorem --------------------------------------------------------------------------

  lemma InTop<T>(l: seq<T>, comp: Comparator<T>, k: nat, i: nat)
    requires i < k && i < |Sort(l, comp)|
    ensures FromEnd(Sort(l, comp), i) in Top(l, comp, k)
  {
    var s := Sort(l, comp);
    assert Reversed(s)[i] == FromEnd(s, i) && Head(Reversed(s), k)[i] == Reversed(s)[i];
  }

  lemma TopFromSort<T>(l: seq<T>, comp: Comparator<T>, k: nat, x: T)
    requires OrdersOn(comp, l) && x in Top(l, comp, k)
    ensures x in Sort(l, comp) && x in l
  {
    var s := Sort(l, comp);
    SortSorts(l, comp);
    var i :| 0 <= i < |Top(l, comp, k)| && Top(l, comp, k)[i] == x;
    assert Reversed(s)[i] == x == s[|s| - 1 - i];
    assert IsLast(l, x, comp);
  }

  lemma OrdersOnSublist<T>(comp: Comparator<T>, all: seq<T>, l: seq<T>)
    requires OrdersOn(comp, all) && AllIn(l, all)
    ensures OrdersOn(comp, l)
  {}

  lemma SortIsIn<T>(l: seq<T>, all: seq<T>, comp: Comparator<T>)
    requires OrdersOn(comp, l) && AllIn(l, all)
    ensures AllIn(Sort(l, comp), all) && Increasing(Sort(l, comp), comp)
  {
    SortSorts(l, comp);
    forall x | x in Sort(l, comp) ensures x in all { assert IsLast(l, x, comp); }
  }

  /** Every value of a list has its class in the sort of any list that contains it. */
  lemma SortHasClass<T>(l: seq<T>, x: T, comp: Comparator<T>)
    requires OrdersOn(comp, l) && x in l
    ensures HasClass(Sort(l, comp), x, comp)
  {
    var s := Sort(l, comp);
    SortSorts(l, comp);
    ClassIsSorted(s, l, x, comp);
    var y := LastLike(l, x, comp).value;
    var p :| 0 <= p < |s| && s[p] == y;
    assert FromEnd(s, |s| - 1 - p) == y;
  }

  /** A value among the best k of everything is, with its class, among the best k of each shard. */
  lemma BestInShard<T>(shard: seq<T>, all: seq<T>, comp: Comparator<T>, k: nat, q: nat, z: T)
    requires OrdersOn(comp, all) && AllIn(shard, all)
    requires q < k && q < |Sort(all, comp)| && comp(FromEnd(Sort(all, comp), q), z) == 0
    requires z in Sort(shard, comp)
    ensures z in Top(shard, comp, k)
  {
    var s, t := Sort(shard, comp), Sort(all, comp);
    OrdersOnSublist(comp, all, shard);
    SortIsIn(shard, all, comp);
    SortIsIn(all, all, comp);
    var p :| 0 <= p < |s| && s[p] == z;
    var i := |s| - 1 - p;
    assert FromEnd(s, i) == z;
    forall x | x in s ensures HasClass(t, x, comp) { SortHasClass(all, x, comp); }
    assert FromEnd(t, q) in t && z in s;
    Transitive(comp, all, FromEnd(t, q), z, z);
    PartRanksHigher(s, t, all, comp, i, q);
    InTop(shard, comp, k, i);
  }

  /** Ranking a shard keeps the last value of every class among the best k of everything. */
  lemma TopKeepsLast<T>(shard: seq<T>, all: seq<T>, comp: Comparator<T>, k: nat, q: nat)
    requires OrdersOn(comp, all) && AllIn(shard, all) && q < k && q < |Sort(all, comp)|
    ensures var x := FromEnd(Sort(all, comp), q);
      LastLike(Top(shard, comp, k), x, comp) == LastLike(shard, x, comp)
  {
    var x, top := FromEnd(Sort(all, comp), q), Top(shard, comp, k);
    OrdersOnSublist(comp, all, shard);
    SortSorts(shard, comp);
    SortIsIn(all, all, comp);
    assert x in Sort(all, comp);
    LastLikeLaws(shard, x, comp);
    LastLikeLaws(top, x, comp);
    if LastLike(top, x, comp).Some? {
      var y := LastLike(top, x, comp).value;
      TopFromSort(shard, comp, k, y);
      LastLikeOfClass(shard, all, x, y, comp);
      assert IsLast(shard, y, comp);
    } else if LastLike(shard, x, comp).Some? {
      var z := LastLike(shard, x, comp).value;
      LastLikeOfClass(shard, all, x, z, comp);
      assert IsLast(shard, z, comp);
      BestInShard(shard, all, comp, k, q, z);
    }
  }

  lemma {:induction false} TopsKeepLast<T>(shards: seq<seq<T>>, all: seq<T>, comp: Comparator<T>, k: nat, q: nat)
    requires OrdersOn(comp, all) && AllIn(Concat(shards), all) && q < k && q < |Sort(all, comp)|
    ensures var x := FromEnd(Sort(all, comp), q);
      LastLike(Concat(Tops(shards, comp, k)), x, comp) == LastLike(Concat(shards), x, comp)
    decreases |shards|
  {
    if shards != [] {
      var x, n := FromEnd(Sort(all, comp), q), |shards| - 1;
      var init, last := shards[..n], shards[n];
      assert AllIn(Concat(init), all) && AllIn(last, all);
      TopsKeepLast(init, all, comp, k, q);
      TopKeepsLast(last, all, comp, k, q);
      assert Tops(shards, comp, k)[..n] == Tops(init, comp, k);
      LastLikeConcat(Concat(init), last, x, comp);
      LastLikeConcat(Concat(Tops(init, comp, k)), Top(last, comp, k), x, comp);
    }
  }

  lemma {:induction false} TopsWithin<T>(shards: seq<seq<T>>, all: seq<T>, comp: Comparator<T>, k: nat)
    requires OrdersOn(comp, all) && AllIn(Concat(shards), all)
    ensures AllIn(Concat(Tops(shards, comp, k)), all)
    decreases |shards|
  {
    if shards != [] {
      var n := |shards| - 1;
      assert AllIn(Concat(shards[..n]), all) && AllIn(shards[n], all);
      TopsWithin(shards[..n], all, comp, k);
      OrdersOnSublist(comp, all, shards[n]);
      assert Tops(shards, comp, k)[..n] == Tops(shards[..n], comp, k);
      forall x | x in Top(shards[n], comp, k) ensures x in all { TopFromSort(shards[n], comp, k, x); }
    }
  }

  /** Ranking the best k of every shard gives the best k of all shards together, in strictly
      descending order. */
  lemma ShardedTopIsGlobalTop<T>(shards: seq<seq<T>>, comp: Comparator<T>, k: nat)
    requires OrdersOn(comp, Concat(shards))
    ensures Top(Concat(Tops(shards, comp, k)), comp, k) == Top(Concat(shards), comp, k)
    ensures var r := Top(Concat(shards), comp, k); forall i, j | 0 <= i < j < |r| :: comp(r[i], r[j]) == 1
  {
    var all, some := Concat(shards), Concat(Tops(shards, comp, k));
    TopsWithin(shards, all, comp, k);
    OrdersOnSublist(comp, all, some);
    SortIsIn(all, all, comp);
    SortIsIn(some, all, comp);
    var s, t := Sort(all, comp), Sort(some, comp);
    var m := if k <= |s| then k else |s|;
    forall i: nat | i < m
      ensures FromEnd(s, i) in t
    {
      KeptInSort(shards, comp, k, i);
    }
    forall x | x in t
      ensures HasClass(s, x, comp)
    {
      SortHasClass(all, x, comp);
    }
    SharedEnd(s, t, all, comp, m);
    NoMoreClasses(s, t, all, comp, k, m);
    TopFromEnd(all, comp, k, m);
    TopFromEnd(some, comp, k, m);
    forall i, j | 0 <= i < j < |Top(all, comp, k)|
      ensures comp(Top(all, comp, k)[i], Top(all, comp, k)[j]) == 1
    {
      FromEndDecreases(s, comp, all, i, j);
    }
  }

  lemma KeptInSort<T>(shards: seq<seq<T>>, comp: Comparator<T>, k: nat, i: nat)
    requires OrdersOn(comp, Concat(shards)) && i < k && i < |Sort(Concat(shards), comp)|
    requires OrdersOn(comp, Concat(Tops(shards, comp, k)))
    ensures FromEnd(Sort(Concat(shards), comp), i) in Sort(Concat(Tops(shards, comp, k)), comp)
  {
    var all, some := Concat(shards), Concat(Tops(shards, comp, k));
    var x := FromEnd(Sort(all, comp), i);
    SortSorts(all, comp);
    SortSorts(some, comp);
    assert x in Sort(all, comp) && IsLast(all, x, comp);
    TopsKeepLast(shards, all, comp, k, i);
    LastLikeLaws(some, x, comp);
    assert IsLast(some, x, comp);
  }

  /** When there are fewer than k classes, the second sort has no more of them than the first. */
  lemma NoMoreClasses<T>(s: seq<T>, t: seq<T>, l: seq<T>, comp: Comparator<T>, k: nat, m: nat)
    requires OrdersOn(comp, l) && AllIn(s, l) && AllIn(t, l) && Increasing(s, comp) && Increasing(t, comp)
    requires ClassesWithin(t, s, comp) && m == (if k <= |s| then k else |s|) && m <= |t|
    ensures |s| < k ==> |t| == |s|
  {
    if |s| < k && |s| < |t| {
      var y := FromEnd(t, |s|);
      assert y in t && HasClass(s, y, comp);
      var q: nat :| q < |s| && comp(y, FromEnd(s, q)) == 0;
      PartRanksHigher(t, s, l, comp, |s|, q);
    }
  }

  lemma TopFromEnd<T>(l: seq<T>, comp: Comparator<T>, k: nat, m: nat)
    requires m <= |Sort(l, comp)| && (m == k || (m <= k && m == |Sort(l, comp)|))
    ensures |Top(l, comp, k)| == m
    ensures forall i: nat | i < m :: Top(l, comp, k)[i] == FromEnd(Sort(l, comp), i)
  {}
}
