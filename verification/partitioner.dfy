/** The ranked, limited query over several partitions of components/cache/partitioner.cpp. */
module Partitioner {
  import opened Options
  import opened Values
  import opened BinaryTree
  import opened ValueOrder
  import opened Ascending
  import opened TopK

  /** The first list headed by the key. */
  function AssocIn(k: Value, l: List): List {
    if l.Null? then Null
    else if l.car.Lst? && l.car.items.Cons? && Same(k, l.car.items.car) then l.car.items
    else AssocIn(k, l.cdr)
  }

  // --- Ranking ------------------------------------------------------------------------------

  /** The rank of an entry, made unique by its id; anything else ranks as itself. */
  function ItemRank(val: Value): Value {
    if val.Lst? && val.items.Cons? then
      var e := val.items.car;
      if e.Lst? && e.items.Cons? && Same(e.items.car, Symbol("entry")) then
        var id, rank := AssocIn(Symbol("id"), e.items.cdr), AssocIn(Symbol("rank"), e.items.cdr);
        if id.Cons? && rank.Cons? then Lst(Cons(Lst(rank), Cons(Lst(id), Null))) else val
      else val
    else val
  }

  function RankItems(a: Value, b: Value): int { RbtreeComp(ItemRank(a), ItemRank(b)) }

  /** The ranking orders a list exactly when the ranks of its items are pairwise comparable. */
  lemma RankOrdersIff(l: seq<Value>)
    ensures OrdersOn(RankItems, l) <==> forall a, b | a in l && b in l :: Comparable(ItemRank(a), ItemRank(b))
  {
    forall a, b | a in l && b in l
      ensures Opposite(RankItems, a, b) <==> Comparable(ItemRank(a), ItemRank(b))
    {
      CompIsOpposite(ItemRank(a), ItemRank(b));
    }
    forall a, b, c | a in l && b in l && c in l
      ensures Chained(RankItems, a, b, c)
    {
      CompIsChained(ItemRank(a), ItemRank(b), ItemRank(c));
    }
  }

  // --- The query ----------------------------------------------------------------------------

  /** The named parameters of a key. */
  function KeyParams(key: List): List {
    if key.Null? then Null else if key.car.Lst? then Cons(key.car, KeyParams(key.cdr)) else KeyParams(key.cdr)
  }

  function ParamsOf(key: Value): List { if key.Lst? then KeyParams(key.items) else Null }

  predicate Ranked(params: List) {
    AssocIn(Symbol("textsearch"), params).Cons? || AssocIn(Symbol("rank"), params).Cons?
  }

  /** A limit must come with its value. */
  predicate ProperLimit(params: List) {
    var limit := AssocIn(Symbol("limit"), params);
    limit.Cons? ==> limit.cdr.Cons?
  }

  /** The answers of the partitions appended in order: nil answers are skipped, any other answer
      that is no list fails the query. */
  function GetList(answers: seq<Value>): Option<seq<Value>> {
    if answers == [] then Some([])
    else if answers[0].Nil? then GetList(answers[1..])
    else if !answers[0].Lst? then None
    else
      var rest := GetList(answers[1..]);
      if rest.None? then None else Some(Elements(answers[0].items) + rest.value)
  }

  function Digits(s: string, acc: int): int
    decreases |s|
  {
    if s == [] || !('0' <= s[0] <= '9') then acc else Digits(s[1..], 10 * acc + (s[0] as int - '0' as int))
  }

  /** The C conversion of a text to a number: leading blanks, a sign, and digits up to anything else. */
  function Atoi(s: string): int {
    if s == [] then 0
    else if s[0] == ' ' || '\t' <= s[0] <= '\r' then Atoi(s[1..])
    else if s[0] == '-' then -Digits(s[1..], 0)
    else if s[0] == '+' then Digits(s[1..], 0)
    else Digits(s, 0)
  }

  function ToInt(v: Value): int {
    match v
    case Num(n) => if n >= 0.0 then n.Floor else -(-n).Floor
    case Symbol(s) => Atoi(s)
    case Str(s) => Atoi(s)
    case Boolean(b) => if b then 1 else 0
    case _ => 0
  }

  /** A negative limit is a huge one once converted to an unsigned size. */
  function ListHead(s: seq<Value>, k: int): seq<Value> { if k < 0 then s else Head(s, k) }

  function RankAndLimit(params: List, val: seq<Value>): seq<Value>
    requires ProperLimit(params)
  {
    var sorted := if Ranked(params) then Reversed(Sort(val, RankItems)) else val;
    var limit := AssocIn(Symbol("limit"), params);
    if limit.Cons? then ListHead(sorted, ToInt(limit.cdr.car)) else sorted
  }

  /** The query, given what the selector chose: nothing, or the answers of the chosen partitions. */
  function Get(key: Value, answers: Option<seq<Value>>): Outcome
    requires ProperLimit(ParamsOf(key))
  {
    if answers.None? then Failure(-1)
    else if |answers.value| == 1 then
      if answers.value[0].Nil? then Failure(404) else Content(answers.value[0])
    else
      var val := GetList(answers.value);
      if val.None? then Failure(500) else Content(Lst(FromElements(RankAndLimit(ParamsOf(key), val.value))))
  }

  // --- What the query promises --------------------------------------------------------------

  /** The answers that carry items, in order. */
  function Lists(answers: seq<Value>): seq<seq<Value>> {
    if answers == [] then [] else
      var init := Lists(answers[..|answers| - 1]);
      var last := answers[|answers| - 1];
      if last.Nil? then init else init + [Elements(AsList(last))]
  }

  lemma {:induction false} GetListAppends(a: seq<Value>, b: Value)
    ensures GetList(a + [b])
         == if GetList(a).None? || (!b.Nil? && !b.Lst?) then None
            else Some(GetList(a).value + (if b.Nil? then [] else Elements(b.items)))
  {
    if a == [] {
      assert a + [b] == [b] && [b][1..] == [] && GetList([]) == Some([]);
      var last := if b.Lst? then Elements(b.items) else [];
      assert last + [] == last == [] + last;
    } else {
      assert (a + [b])[1..] == a[1..] + [b];
      GetListAppends(a[1..], b);
      if a[0].Lst? && GetList(a).Some? && (b.Nil? || b.Lst?) {
        var first, rest, last := Elements(a[0].items), GetList(a[1..]).value, if b.Nil? then [] else Elements(b.items);
        assert first + (rest + last) == (first + rest) + last;
      }
    }
  }

  /** The query fails exactly when some partition answers with neither nil nor a list; otherwise the
      lists of all others come in order, none lost. */
  lemma {:induction false} GetListLaws(answers: seq<Value>)
    ensures GetList(answers).None? <==> exists v :: v in answers && !v.Nil? && !v.Lst?
    ensures GetList(answers).Some? ==> GetList(answers).value == Concat(Lists(answers))
  {
    if answers != [] {
      var n := |answers| - 1;
      assert answers == answers[..n] + [answers[n]];
      GetListLaws(answers[..n]);
      GetListAppends(answers[..n], answers[n]);
      var lists := Lists(answers[..n]);
      assert forall x :: (lists + [x])[..|lists + [x]| - 1] == lists;
    }
  }

  /** A partition's own ranked answer to the query. */
  function RankedAnswer(shard: seq<Value>, k: nat): Value { Lst(FromElements(Top(shard, RankItems, k))) }

  function RankedAnswers(shards: seq<seq<Value>>, k: nat): (r: seq<Value>)
    ensures |r| == |shards|
  {
    seq(|shards|, i requires 0 <= i < |shards| => RankedAnswer(shards[i], k))
  }

  lemma {:induction false} ListsOfRankedAnswers(shards: seq<seq<Value>>, k: nat)
    ensures Lists(RankedAnswers(shards, k)) == Tops(shards, RankItems, k)
  {
    if shards != [] {
      var n := |shards| - 1;
      var answers, tops := RankedAnswers(shards, k), Tops(shards, RankItems, k);
      ListsOfRankedAnswers(shards[..n], k);
      assert answers[..n] == RankedAnswers(shards[..n], k);
      assert Elements(AsList(answers[n])) == Top(shards[n], RankItems, k) == tops[n];
      assert Lists(answers) == Lists(answers[..n]) + [tops[n]];
      assert tops[..n] == Tops(shards[..n], RankItems, k);
      assert tops == tops[..n] + [tops[n]];
    }
  }

  /** When every partition returns its own best `limit` items, the ranked query over any number of
      partitions returns the best `limit` items of all of them together, best first. */
  lemma {:induction false} ShardedQueryIsGlobalQuery(key: Value, shards: seq<seq<Value>>, k: nat)
    requires ProperLimit(ParamsOf(key)) && Ranked(ParamsOf(key)) && shards != []
    requires var limit := AssocIn(Symbol("limit"), ParamsOf(key)); limit.Cons? && ToInt(limit.cdr.car) == k
    requires forall a, b | a in Concat(shards) && b in Concat(shards) :: Comparable(ItemRank(a), ItemRank(b))
    ensures Get(key, Some(RankedAnswers(shards, k))) == Content(RankedAnswer(Concat(shards), k))
  {
    var answers := RankedAnswers(shards, k);
    RankOrdersIff(Concat(shards));
    if |shards| == 1 {
      assert shards[..0] == [] && Concat(shards[..0]) == [] && Concat(shards) == shards[0];
    } else {
      GetListLaws(answers);
      ListsOfRankedAnswers(shards, k);
      ShardedTopIsGlobalTop(shards, RankItems, k);
    }
  }

  // --- What an item, a parameter and a limit are --------------------------------------------

  predicate Named(v: Value, name: string) {
    v.Lst? && v.items.Cons? && IsText(v.items.car) && v.items.car.str == name
  }

  /** The first list with the name. */
  predicate FirstNamed(l: List, name: string, found: List) {
    l.Cons? && if Named(l.car, name) then l.car.items == found else FirstNamed(l.cdr, name, found)
  }

  lemma {:induction false} AssocFindsFirst(l: List, name: string, found: List)
    ensures found.Cons? && AssocIn(Symbol(name), l) == found <==> FirstNamed(l, name, found)
  {
    if l.Cons? { AssocFindsFirst(l.cdr, name, found); }
  }

  lemma {:induction false} AssocFindsNone(l: List, name: string)
    ensures AssocIn(Symbol(name), l).Null? <==> forall p | p in Elements(l) :: !Named(p, name)
  {
    if l.Cons? {
      AssocFindsNone(l.cdr, name);
      assert forall p :: p in Elements(l) <==> p == l.car || p in Elements(l.cdr);
      if Named(l.car, name) { assert AssocIn(Symbol(name), l) == l.car.items; }
    }
  }

  lemma {:induction false} ParamsLoseNoName(key: List, name: string)
    ensures AssocIn(Symbol(name), KeyParams(key)) == AssocIn(Symbol(name), key)
  {
    if key.Cons? { ParamsLoseNoName(key.cdr, name); }
  }

  /** The key is a list that has a parameter with the name. */
  predicate HasParam(key: Value, name: string) { key.Lst? && exists p | p in Elements(key.items) :: Named(p, name) }

  lemma {:induction false} ParamFound(key: Value, name: string)
    ensures AssocIn(Symbol(name), ParamsOf(key)).Cons? <==> HasParam(key, name)
    ensures key.Lst? ==> AssocIn(Symbol(name), ParamsOf(key)) == AssocIn(Symbol(name), key.items)
  {
    if key.Lst? {
      ParamsLoseNoName(key.items, name);
      AssocFindsNone(key.items, name);
    }
  }

  /** A query is ranked exactly when its key has a text search or a rank. */
  lemma {:induction false} RankedIff(key: Value)
    ensures Ranked(ParamsOf(key)) <==> HasParam(key, "textsearch") || HasParam(key, "rank")
  {
    ParamFound(key, "textsearch");
    ParamFound(key, "rank");
  }

  /** An item: a list that starts with an entry, whose first id and first rank are these. */
  predicate IsRanked(val: Value, id: string, rank: real) {
    && val.Lst? && val.items.Cons? && Named(val.items.car, "entry")
    && FirstNamed(val.items.car.items.cdr, "id", Cons(Symbol("id"), MkList(Str(id))))
    && FirstNamed(val.items.car.items.cdr, "rank", Cons(Symbol("rank"), MkList(Num(rank))))
  }

  ghost predicate HasRank(val: Value) { exists id, rank :: IsRanked(val, id, rank) }

  lemma {:induction false} PairOrder(name: string, x: Value, y: Value)
    ensures var a, b := Pair(Symbol(name), x), Pair(Symbol(name), y);
            (Less(a, b) <==> Less(x, y)) && (Same(a, b) <==> Same(x, y))
  {
    var l, m := MkList(x), MkList(y);
    TextTrichotomy(name, name);
    assert ListLess(l, m) <==> Less(x, y);
    assert SameList(l, m) <==> Same(x, y);
    assert ListLess(Cons(Symbol(name), l), Cons(Symbol(name), m)) <==> ListLess(l, m);
    assert SameList(Cons(Symbol(name), l), Cons(Symbol(name), m)) <==> SameList(l, m);
  }

  lemma {:induction false} TwoItemOrder(a: Value, b: Value, a': Value, b': Value)
    ensures (Less(Pair(a, b), Pair(a', b')) <==> Less(a, a') || (Same(a, a') && Less(b, b')))
         && (Same(Pair(a, b), Pair(a', b')) <==> Same(a, a') && Same(b, b'))
  {
    var l, m := MkList(b), MkList(b');
    assert ListLess(l, m) <==> Less(b, b');
    assert SameList(l, m) <==> Same(b, b');
    assert ListLess(Cons(a, l), Cons(a', m)) <==> Less(a, a') || (Same(a, a') && ListLess(l, m));
    assert SameList(Cons(a, l), Cons(a', m)) <==> Same(a, a') && SameList(l, m);
  }

  lemma {:induction false} RankOfItem(val: Value, id: string, rank: real)
    requires IsRanked(val, id, rank)
    ensures ItemRank(val) == Pair(Pair(Symbol("rank"), Num(rank)), Pair(Symbol("id"), Str(id)))
  {
    var attributes := val.items.car.items.cdr;
    AssocFindsFirst(attributes, "id", Cons(Symbol("id"), MkList(Str(id))));
    AssocFindsFirst(attributes, "rank", Cons(Symbol("rank"), MkList(Num(rank))));
  }

  /** Items are ranked by their numbers, and by the characters of their ids where these are equal. */
  lemma {:induction false} ItemsRankByNumber(a: Value, id: string, rank: real, b: Value, id': string, rank': real)
    requires IsRanked(a, id, rank) && IsRanked(b, id', rank')
    ensures RankItems(a, b) == if rank == rank' && id == id' then 0
                               else if rank < rank' || (rank == rank' && TextBefore(id, id')) then -1 else 1
  {
    RankOfItem(a, id, rank);
    RankOfItem(b, id', rank');
    PairOrder("rank", Num(rank), Num(rank'));
    PairOrder("id", Str(id), Str(id'));
    TextLessIff(id, id');
    TwoItemOrder(Pair(Symbol("rank"), Num(rank)), Pair(Symbol("id"), Str(id)),
                 Pair(Symbol("rank"), Num(rank')), Pair(Symbol("id"), Str(id')));
  }

  /** An item that starts with an entry which has an id and a rank. */
  predicate HasIdAndRank(val: Value) {
    && val.Lst? && val.items.Cons? && Named(val.items.car, "entry")
    && var attributes := Elements(val.items.car.items.cdr);
    && (exists p | p in attributes :: Named(p, "id"))
    && (exists p | p in attributes :: Named(p, "rank"))
  }

  /** Any other two values rank as the values they are. */
  lemma {:induction false} OthersRankAsValues(a: Value, b: Value)
    requires !HasIdAndRank(a) && !HasIdAndRank(b)
    ensures RankItems(a, b) == if AsText(a) == AsText(b) then 0 else if Before(a, b) then -1 else 1
  {
    RankOfOther(a);
    RankOfOther(b);
    SameIffEqualAsText(a, b);
    LessIsBefore(a, b);
  }

  lemma {:induction false} RankOfOther(val: Value)
    requires !HasIdAndRank(val)
    ensures ItemRank(val) == val
  {
    if val.Lst? && val.items.Cons? && Named(val.items.car, "entry") {
      AssocFindsNone(val.items.car.items.cdr, "id");
      AssocFindsNone(val.items.car.items.cdr, "rank");
    }
  }

  // --- What a ranked query returns ----------------------------------------------------------

  /** The first item has the greater number, or an equal one and the id that comes later. */
  ghost predicate Above(a: Value, b: Value) {
    forall id, rank, id', rank' | IsRanked(a, id, rank) && IsRanked(b, id', rank') ::
      rank' < rank || (rank == rank' && TextBefore(id', id))
  }

  ghost predicate RankedAlike(a: Value, b: Value) {
    forall id, rank, id', rank' | IsRanked(a, id, rank) && IsRanked(b, id', rank') :: rank == rank' && id == id'
  }

  lemma {:induction false} RankIsUnique(a: Value, id: string, rank: real, id': string, rank': real)
    requires IsRanked(a, id, rank) && IsRanked(a, id', rank')
    ensures id == id' && rank == rank'
  {
    RankOfItem(a, id, rank);
    RankOfItem(a, id', rank');
  }

  lemma {:induction false} RankingMeans(a: Value, b: Value)
    requires HasRank(a) && HasRank(b)
    ensures Comparable(ItemRank(a), ItemRank(b))
    ensures RankItems(a, b) == 1 ==> Above(a, b)
    ensures RankItems(a, b) == 0 ==> RankedAlike(a, b)
  {
    var id, rank :| IsRanked(a, id, rank);
    var id', rank' :| IsRanked(b, id', rank');
    ItemsRankByNumber(a, id, rank, b, id', rank');
    ItemsRankByNumber(b, id', rank', a, id, rank);
    CompIsOpposite(ItemRank(a), ItemRank(b));
    TextLessIff(id, id');
    TextLessIff(id', id);
    TextTrichotomy(id, id');
    forall i, r, i', r' | IsRanked(a, i, r) && IsRanked(b, i', r')
      ensures i == id && r == rank && i' == id' && r' == rank'
    {
      RankIsUnique(a, i, r, id, rank);
      RankIsUnique(b, i', r', id', rank');
    }
  }

  ghost predicate Represented(x: Value, items: seq<Value>) { exists y :: y in items && RankedAlike(x, y) }

  /** An item is returned, or one with its number and id is, or as many as allowed are that rank above. */
  ghost predicate Considered(x: Value, items: seq<Value>, k: nat) {
    Represented(x, items) || (|items| == k && forall y | y in items :: Above(y, x))
  }

  lemma {:induction false} AllRanked(all: seq<Value>)
    requires forall x | x in all :: HasRank(x)
    ensures OrdersOn(RankItems, all)
  {
    RankOrdersIff(all);
    forall a, b | a in all && b in all ensures Comparable(ItemRank(a), ItemRank(b)) { RankingMeans(a, b); }
  }

  lemma {:induction false} TopConsiders(all: seq<Value>, k: nat, x: Value)
    requires (forall y | y in all :: HasRank(y)) && x in all
    ensures Considered(x, Top(all, RankItems, k), k)
    ensures |Sort(all, RankItems)| <= k ==> Represented(x, Top(all, RankItems, k))
  {
    var s, top := Sort(all, RankItems), Top(all, RankItems, k);
    AllRanked(all);
    SortSorts(all, RankItems);
    SortIsIn(all, all, RankItems);
    ClassIsSorted(s, all, x, RankItems);
    var y := LastLike(all, x, RankItems).value;
    RankingMeans(x, y);
    var p :| 0 <= p < |s| && s[p] == y;
    var i := |s| - 1 - p;
    assert FromEnd(s, i) == y;
    if i < k {
      InTop(all, RankItems, k, i);
    } else {
      TopFromEnd(all, RankItems, k, k);
      forall z | z in top
        ensures Above(z, x)
      {
        var j :| 0 <= j < |top| && top[j] == z;
        FromEndDecreases(s, RankItems, all, j, i);
        TopFromSort(all, RankItems, k, z);
        Transitive(RankItems, all, x, y, z);
        Transitive(RankItems, all, z, x, z);
        Transitive(RankItems, all, y, z, y);
        RankingMeans(z, x);
      }
    }
  }

  lemma {:induction false} TopDescends(all: seq<Value>, k: nat)
    requires forall y | y in all :: HasRank(y)
    ensures var top := Top(all, RankItems, k);
            && |top| <= k
            && (forall x | x in top :: x in all)
            && (forall i, j | 0 <= i < j < |top| :: Above(top[i], top[j]))
  {
    var top := Top(all, RankItems, k);
    AllRanked(all);
    assert Concat([all]) == all by { assert [all][..0] == []; }
    ShardedTopIsGlobalTop([all], RankItems, k);
    forall x | x in top ensures x in all { TopFromSort(all, RankItems, k, x); }
    forall i, j | 0 <= i < j < |top| ensures Above(top[i], top[j]) { RankingMeans(top[i], top[j]); }
  }

  /** The limit of a query; one below zero is none. */
  function LimitOf(key: Value): Option<nat>
    requires ProperLimit(ParamsOf(key))
  {
    var limit := AssocIn(Symbol("limit"), ParamsOf(key));
    if limit.Null? || ToInt(limit.cdr.car) < 0 then None else Some(ToInt(limit.cdr.car))
  }

  lemma {:induction false} LimitFound(key: Value, v: Value, more: List)
    requires key.Lst? && FirstNamed(key.items, "limit", Cons(Symbol("limit"), Cons(v, more)))
    ensures ProperLimit(ParamsOf(key)) && LimitOf(key) == if ToInt(v) < 0 then None else Some(ToInt(v))
  {
    ParamFound(key, "limit");
    AssocFindsFirst(key.items, "limit", Cons(Symbol("limit"), Cons(v, more)));
  }

  lemma {:induction false} RankedIsTop(params: List, val: seq<Value>)
    requires ProperLimit(params) && Ranked(params)
    ensures var limit, all := AssocIn(Symbol("limit"), params), |Sort(val, RankItems)|;
            RankAndLimit(params, val) == Top(val, RankItems,
              if limit.Null? || ToInt(limit.cdr.car) < 0 then all else ToInt(limit.cdr.car))
  {
    var sorted := Reversed(Sort(val, RankItems));
    assert sorted[..|sorted|] == sorted;
  }

  /** A ranked query over any partitions but one returns their items downward by number, and by id where
      numbers are equal; no more than the limit, and each item left out ranks below all of these. */
  lemma {:induction false} RankedQueryDescends(key: Value, answers: seq<Value>)
    requires ProperLimit(ParamsOf(key)) && (HasParam(key, "textsearch") || HasParam(key, "rank")) && |answers| != 1
    requires forall v | v in answers :: v.Nil? || v.Lst?
    requires forall x | x in Concat(Lists(answers)) :: HasRank(x)
    ensures var reply, all, limit := Get(key, Some(answers)), Concat(Lists(answers)), LimitOf(key);
      && reply.Content? && reply.val.Lst?
      && var items := Elements(reply.val.items);
      && (forall i, j | 0 <= i < j < |items| :: Above(items[i], items[j]))
      && (forall x | x in items :: x in all)
      && (limit.None? ==> forall x | x in all :: Represented(x, items))
      && (limit.Some? ==> |items| <= limit.value && forall x | x in all :: Considered(x, items, limit.value))
  {
    var all, limit := Concat(Lists(answers)), LimitOf(key);
    GetListLaws(answers);
    RankedIff(key);
    RankedIsTop(ParamsOf(key), all);
    var k := if limit.None? then |Sort(all, RankItems)| else limit.value;
    TopDescends(all, k);
    forall x | x in all
      ensures Considered(x, Top(all, RankItems, k), k)
      ensures limit.None? ==> Represented(x, Top(all, RankItems, k))
    {
      TopConsiders(all, k, x);
    }
  }

  // --- What a query fails with --------------------------------------------------------------

  /** -1 when no partition is selected, 404 when the only one has nothing, and 500 when one of several
      answers with no list. */
  lemma {:induction false} GetFailures(key: Value, answers: Option<seq<Value>>, code: int)
    requires ProperLimit(ParamsOf(key))
    ensures Get(key, answers) == Failure(code) <==>
      || (code == -1 && answers.None?)
      || (code == 404 && answers == Some([Nil]))
      || (code == 500 && answers.Some? && |answers.value| != 1 && exists v :: v in answers.value && !v.Nil? && !v.Lst?)
  {
    if answers.Some? {
      GetListLaws(answers.value);
      if |answers.value| == 1 { assert answers.value == [answers.value[0]]; }
    }
  }

  /** Without a rank or a limit the items come as the partitions gave them. */
  lemma {:induction false} PlainQueryAppends(key: Value, answers: seq<Value>)
    requires ProperLimit(ParamsOf(key)) && !HasParam(key, "textsearch") && !HasParam(key, "rank")
    requires LimitOf(key).None? && |answers| != 1 && forall v | v in answers :: v.Nil? || v.Lst?
    ensures var reply := Get(key, Some(answers));
            reply.Content? && reply.val.Lst? && Elements(reply.val.items) == Concat(Lists(answers))
  {
    GetListLaws(answers);
    RankedIff(key);
  }

  // --- The number of a limit ----------------------------------------------------------------

  function Decimal(n: nat): (s: string)
    ensures s != [] && forall i | 0 <= i < |s| :: '0' <= s[i] <= '9'
  {
    (if n < 10 then "" else Decimal(n / 10)) + [('0' as int + n % 10) as char]
  }

  lemma {:induction false} DigitsAppend(s: string, t: string, acc: int)
    requires forall i | 0 <= i < |s| :: '0' <= s[i] <= '9'
    ensures Digits(s + t, acc) == Digits(t, Digits(s, acc))
    decreases |s|
  {
    if s == [] {
      assert s + t == t;
    } else {
      assert (s + t)[1..] == s[1..] + t;
      DigitsAppend(s[1..], t, 10 * acc + (s[0] as int - '0' as int));
    }
  }

  lemma {:induction false} DigitsOfDecimal(n: nat)
    ensures Digits(Decimal(n), 0) == n
  {
    var last := [('0' as int + n % 10) as char];
    assert last[1..] == [];
    if n < 10 {
      assert Decimal(n) == last;
    } else {
      DigitsOfDecimal(n / 10);
      DigitsAppend(Decimal(n / 10), last, 0);
    }
  }

  /** A text that starts with a decimal number is that number. */
  lemma {:induction false} AtoiOfDecimal(n: nat, rest: string)
    requires rest == "" || !('0' <= rest[0] <= '9')
    ensures Atoi(Decimal(n) + rest) == n && Atoi("-" + (Decimal(n) + rest)) + n == 0
  {
    DigitsAppend(Decimal(n), rest, 0);
    DigitsOfDecimal(n);
    assert ("-" + (Decimal(n) + rest))[1..] == Decimal(n) + rest;
  }

  /** Blanks and a plus sign before it change nothing, and a text without a number is 0. */
  lemma {:induction false} AtoiSkipsBlanks(s: string, blank: char)
    requires blank in " \t\n\r"
    ensures Atoi([blank] + s) == Atoi(s)
    ensures Atoi("") == 0
    ensures s != "" && '0' <= s[0] <= '9' ==> Atoi("+" + s) == Atoi(s)
    ensures s != "" && s[0] !in " \t\n\r+-" && !('\t' <= s[0] <= '\r') && !('0' <= s[0] <= '9') ==> Atoi(s) == 0
  {
    assert ([blank] + s)[1..] == s;
    assert ("+" + s)[1..] == s;
  }

  /** A number is cut toward zero. */
  lemma {:induction false} NumberIsCut(r: real)
    ensures var i := ToInt(Num(r)) as real;
            if r >= 0.0 then 0.0 <= i <= r < i + 1.0 else i - 1.0 < r <= i <= 0.0
  {
    assert r >= 0.0 ==> r.Floor >= 0;
  }
}
