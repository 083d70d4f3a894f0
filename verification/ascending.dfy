/** Which way the order on values goes, said about characters, numbers and places in lists. */
module Ascending {
  import opened Options
  import opened Values
  import opened BinaryTree
  import opened ValueOrder

  // --- Sameness -----------------------------------------------------------------------------

  /** The value with every symbol in it read as a string. */
  function AsText(v: Value): Value {
    match v
    case Symbol(s) => Str(s)
    case Lst(l) => Lst(AllAsText(l))
    case _ => v
  }

  function AllAsText(l: List): List { if l.Null? then Null else Cons(AsText(l.car), AllAsText(l.cdr)) }

  /** Two values are the same exactly when they are equal but for symbols and strings. */
  lemma {:induction false} SameIffEqualAsText(a: Value, b: Value)
    ensures Same(a, b) <==> AsText(a) == AsText(b)
    decreases a
  {
    if a.Lst? && b.Lst? { SameListIffEqualAsText(a.items, b.items); }
  }

  lemma {:induction false} SameListIffEqualAsText(l: List, m: List)
    ensures SameList(l, m) <==> AllAsText(l) == AllAsText(m)
    decreases l
  {
    if l.Cons? && m.Cons? {
      SameIffEqualAsText(l.car, m.car);
      SameListIffEqualAsText(l.cdr, m.cdr);
    }
  }

  // --- Texts --------------------------------------------------------------------------------

  /** Up to place i the texts are alike; there the first one ends, or has the smaller character. */
  predicate TextDiffersAt(s: string, t: string, i: nat) {
    i <= |s| && i < |t| && s[..i] == t[..i] && (i == |s| || s[i] < t[i])
  }

  ghost predicate TextBefore(s: string, t: string) { exists i: nat :: TextDiffersAt(s, t, i) }

  lemma {:induction false} TextLessDiffers(s: string, t: string) returns (i: nat)
    requires TextLess(s, t)
    ensures TextDiffersAt(s, t, i)
  {
    i := 0;
    if s != [] && s[0] == t[0] {
      var k := TextLessDiffers(s[1..], t[1..]);
      i := k + 1;
      assert s[..i] == [s[0]] + s[1..][..k] && t[..i] == [t[0]] + t[1..][..k];
    }
  }

  lemma {:induction false} DifferingTextIsLess(s: string, t: string, i: nat)
    requires TextDiffersAt(s, t, i)
    ensures TextLess(s, t)
    decreases i
  {
    if i > 0 {
      assert s[0] == s[..i][0] == t[..i][0] == t[0];
      assert s[1..][..i - 1] == s[..i][1..] && t[1..][..i - 1] == t[..i][1..];
      DifferingTextIsLess(s[1..], t[1..], i - 1);
    }
  }

  /** The first different character decides; where there is none, a proper prefix comes first. */
  lemma {:induction false} TextLessIff(s: string, t: string)
    ensures TextLess(s, t) <==> TextBefore(s, t)
  {
    if TextLess(s, t) { var i := TextLessDiffers(s, t); }
    if i: nat :| TextDiffersAt(s, t, i) { DifferingTextIsLess(s, t, i); }
  }

  // --- Values -------------------------------------------------------------------------------

  function Nth(l: List, i: nat): (v: Value)
    requires i < Length(l)
    ensures SizeOf(v) < SizeOfList(l)
  {
    if i == 0 then l.car else Nth(l.cdr, i - 1)
  }

  /** Where two lists first differ, or the shorter one ends. */
  function FirstDifference(l: List, m: List): (i: nat)
    ensures i <= Length(l) && i <= Length(m)
    ensures forall j: nat | j < i :: Same(Nth(l, j), Nth(m, j))
    ensures i < Length(l) && i < Length(m) ==> !Same(Nth(l, i), Nth(m, i))
  {
    if l.Null? || m.Null? || !Same(l.car, m.car) then 0 else 1 + FirstDifference(l.cdr, m.cdr)
  }

  /** Numbers by size, texts by characters, false before true, lists by their first difference, or
      the shorter one first when there is none; nothing comes before a value of another type. */
  ghost predicate Before(a: Value, b: Value)
    decreases SizeOf(a)
  {
    match a
    case Num(n) => b.Num? && n < b.num
    case Symbol(s) => IsText(b) && TextBefore(s, b.str)
    case Str(s) => IsText(b) && TextBefore(s, b.str)
    case Boolean(t) => b.Boolean? && !t && b.boo
    case Nil => false
    case Lst(l) =>
      b.Lst? &&
      var i := FirstDifference(l, b.items);
      i < Length(b.items) && (i == Length(l) || Before(Nth(l, i), Nth(b.items, i)))
  }

  /** At the first difference one list ends, or its element is less. */
  lemma {:induction false} ListLessAtDifference(l: List, m: List)
    ensures var i := FirstDifference(l, m);
            ListLess(l, m) <==> i < Length(m) && (i == Length(l) || Less(Nth(l, i), Nth(m, i)))
  {
    if l.Cons? && m.Cons? {
      Trichotomy(l.car, m.car);
      if Same(l.car, m.car) { ListLessAtDifference(l.cdr, m.cdr); }
    }
  }

  /** The order of the source is this order. */
  lemma {:induction false} LessIsBefore(a: Value, b: Value)
    ensures Less(a, b) <==> Before(a, b)
    decreases SizeOf(a)
  {
    if IsText(a) && IsText(b) { TextLessIff(a.str, b.str); }
    if a.Lst? && b.Lst? {
      var i := FirstDifference(a.items, b.items);
      ListLessAtDifference(a.items, b.items);
      if i < Length(a.items) && i < Length(b.items) { LessIsBefore(Nth(a.items, i), Nth(b.items, i)); }
    }
  }

  // --- Sorted lists -------------------------------------------------------------------------

  ghost predicate Ascends(s: seq<Value>) { forall i, j | 0 <= i < j < |s| :: Before(s[i], s[j]) }

  lemma {:induction false} SortTakesFrom(l: seq<Value>, x: Value)
    requires (forall a, b | a in l && b in l :: Comparable(a, b)) && x in Sort(l, RbtreeComp)
    ensures x in l
  {
    SortsIff(l);
    assert IsLast(l, x, RbtreeComp);
  }

  lemma {:induction false} SortRepresents(l: seq<Value>, x: Value) returns (y: Value)
    requires (forall a, b | a in l && b in l :: Comparable(a, b)) && x in l
    ensures y in Sort(l, RbtreeComp) && AsText(x) == AsText(y)
  {
    SortsIff(l);
    y := RepresentedInSort(l, Sort(l, RbtreeComp), x);
    SameIffEqualAsText(x, y);
  }

  ghost predicate Represented(x: Value, s: seq<Value>) { exists y :: y in s && AsText(x) == AsText(y) }

  /** The sort of comparable values ascends, and holds the values given, one for all that are the same. */
  lemma {:induction false} SortAscends(l: seq<Value>)
    requires forall a, b | a in l && b in l :: Comparable(a, b)
    ensures var s := Sort(l, RbtreeComp);
            Ascends(s) && (forall x | x in s :: x in l) && (forall x | x in l :: Represented(x, s))
  {
    var s := Sort(l, RbtreeComp);
    SortsIff(l);
    forall i, j | 0 <= i < j < |s|
      ensures Before(s[i], s[j])
    {
      assert RbtreeComp(s[i], s[j]) == -1;
      LessIsBefore(s[i], s[j]);
    }
    forall x | x in s ensures x in l { SortTakesFrom(l, x); }
    forall x | x in l ensures Represented(x, s) { var y := SortRepresents(l, x); }
  }

  function Numbers(rs: seq<real>): (l: seq<Value>)
    ensures |l| == |rs| && forall i | 0 <= i < |rs| :: l[i] == Num(rs[i])
  {
    seq(|rs|, i requires 0 <= i < |rs| => Num(rs[i]))
  }

  function Strings(ts: seq<string>): (l: seq<Value>)
    ensures |l| == |ts| && forall i | 0 <= i < |ts| :: l[i] == Str(ts[i])
  {
    seq(|ts|, i requires 0 <= i < |ts| => Str(ts[i]))
  }

  lemma {:induction false} NumbersHave(rs: seq<real>, x: Value)
    ensures x in Numbers(rs) <==> x.Num? && x.num in rs
  {
    if x.Num? && x.num in rs {
      var i :| 0 <= i < |rs| && rs[i] == x.num;
      assert Numbers(rs)[i] == x;
    }
  }

  lemma {:induction false} NumbersOf(s: seq<Value>) returns (rs: seq<real>)
    requires forall i | 0 <= i < |s| :: s[i].Num?
    ensures s == Numbers(rs)
  {
    rs := seq(|s|, i requires 0 <= i < |s| => s[i].num);
  }

  lemma {:induction false} NumbersSortedAt(rs: seq<real>, sorted: seq<real>, r: real)
    requires Sort(Numbers(rs), RbtreeComp) == Numbers(sorted)
    ensures r in sorted <==> r in rs
  {
    var l := Numbers(rs);
    forall a, b | a in l && b in l ensures Comparable(a, b) { NumbersHave(rs, a); NumbersHave(rs, b); }
    NumbersHave(rs, Num(r));
    NumbersHave(sorted, Num(r));
    if r in sorted {
      SortTakesFrom(l, Num(r));
    } else if r in rs {
      var y := SortRepresents(l, Num(r));
      NumbersHave(sorted, y);
    }
  }

  /** Numbers are sorted strictly upward, and none is lost. */
  lemma {:induction false} NumbersAscend(rs: seq<real>) returns (sorted: seq<real>)
    ensures Sort(Numbers(rs), RbtreeComp) == Numbers(sorted)
    ensures forall i, j | 0 <= i < j < |sorted| :: sorted[i] < sorted[j]
    ensures forall r :: r in sorted <==> r in rs
  {
    var s := Sort(Numbers(rs), RbtreeComp);
    forall a, b | a in Numbers(rs) && b in Numbers(rs)
      ensures Comparable(a, b)
    {
      NumbersHave(rs, a);
      NumbersHave(rs, b);
    }
    SortAscends(Numbers(rs));
    forall i | 0 <= i < |s| ensures s[i].Num? { NumbersHave(rs, s[i]); }
    sorted := NumbersOf(s);
    forall i, j | 0 <= i < j < |sorted| ensures sorted[i] < sorted[j] { assert Before(s[i], s[j]); }
    forall r ensures r in sorted <==> r in rs { NumbersSortedAt(rs, sorted, r); }
  }

  lemma {:induction false} StringsHave(rs: seq<string>, x: Value)
    ensures x in Strings(rs) <==> x.Str? && x.str in rs
  {
    if x.Str? && x.str in rs {
      var i :| 0 <= i < |rs| && rs[i] == x.str;
      assert Strings(rs)[i] == x;
    }
  }

  lemma {:induction false} StringsOf(s: seq<Value>) returns (rs: seq<string>)
    requires forall i | 0 <= i < |s| :: s[i].Str?
    ensures s == Strings(rs)
  {
    rs := seq(|s|, i requires 0 <= i < |s| => s[i].str);
  }

  lemma {:induction false} StringsSortedAt(rs: seq<string>, sorted: seq<string>, r: string)
    requires Sort(Strings(rs), RbtreeComp) == Strings(sorted)
    ensures r in sorted <==> r in rs
  {
    var l := Strings(rs);
    forall a, b | a in l && b in l ensures Comparable(a, b) { StringsHave(rs, a); StringsHave(rs, b); }
    StringsHave(rs, Str(r));
    StringsHave(sorted, Str(r));
    if r in sorted {
      SortTakesFrom(l, Str(r));
    } else if r in rs {
      var y := SortRepresents(l, Str(r));
      StringsHave(sorted, y);
    }
  }

  /** Strings are sorted strictly upward by their characters, and none is lost. */
  lemma {:induction false} StringsAscend(rs: seq<string>) returns (sorted: seq<string>)
    ensures Sort(Strings(rs), RbtreeComp) == Strings(sorted)
    ensures forall i, j | 0 <= i < j < |sorted| :: TextBefore(sorted[i], sorted[j])
    ensures forall r :: r in sorted <==> r in rs
  {
    var s := Sort(Strings(rs), RbtreeComp);
    forall a, b | a in Strings(rs) && b in Strings(rs)
      ensures Comparable(a, b)
    {
      StringsHave(rs, a);
      StringsHave(rs, b);
    }
    SortAscends(Strings(rs));
    forall i | 0 <= i < |s| ensures s[i].Str? { StringsHave(rs, s[i]); }
    sorted := StringsOf(s);
    forall i, j | 0 <= i < j < |sorted| ensures TextBefore(sorted[i], sorted[j]) { assert Before(s[i], s[j]); }
    forall r ensures r in sorted <==> r in rs { StringsSortedAt(rs, sorted, r); }
  }
}
