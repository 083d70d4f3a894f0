/** The two-level cache of components/cache/datacache.cpp. Its level 2 may be read from a replica
    that lags behind the store that is written. */
module DataCache {
  import opened Values

  type Store = map<Value, Value>

  /** A missing key reads as nil. */
  function Read(m: Store, key: Value): Value { if key in m then m[key] else Nil }

  /** What the patch of a store applies its script to: a missing entry is an empty list. */
  function Patched(m: Store, key: Value): Value { if key in m then m[key] else Lst(Null) }

  /** A store applies a patch to its own entry; a script that gives nil fails and changes nothing. */
  function PatchStore(m: Store, key: Value, script: Value -> Value): Store {
    var val := script(Patched(m, key));
    if val.Nil? then m else m[key := val]
  }

  function Reply(val: Value): Outcome { if val.Nil? then Failure(404) else Content(val) }

  /** The id of a posted item: the key and a new unique id. */
  function PostId(key: Value, uuid: Value): Value { Lst(Append(AsList(key), MkList(uuid))) }

  datatype Cache = Cache(level1: Store, level2: Store, replica: Store) {

    /** The value found, level 1 first. */
    function Found(key: Value): Value {
      if Read(level1, key).Nil? then Read(replica, key) else Read(level1, key)
    }

    /** A value found in the replica goes to level 1. */
    function Get(key: Value): Cache {
      if !Read(level1, key).Nil? || Read(replica, key).Nil? then this
      else this.(level1 := level1[key := Read(replica, key)])
    }

    function Put(key: Value, val: Value): Cache { this.(level1 := level1[key := val], level2 := level2[key := val]) }

    function Patch(key: Value, script: Value -> Value): Cache {
      this.(level1 := PatchStore(level1, key, script), level2 := PatchStore(level2, key, script))
    }

    function Delete(key: Value): Cache { this.(level1 := level1 - {key}, level2 := level2 - {key}) }

    function Evict(key: Value): Cache { this.(level1 := level1 - {key}) }

    predicate CoherentAt(key: Value) { key in level1 ==> key in level2 && level1[key] == level2[key] }

    /** Every level 1 entry is the level 2 entry. */
    ghost predicate Coherent() { forall key :: CoherentAt(key) }

    /** The same answer for every other key, and coherence kept. */
    ghost predicate DiffersOnlyAt(before: Cache, key: Value) {
      && (forall other | other != key :: Found(other) == before.Found(other))
      && replica == before.replica
      && (before.Coherent() ==> forall other | other != key :: CoherentAt(other))
    }
  }

  lemma {:induction false} WriteDiffersOnlyAt(c: Cache, c': Cache, key: Value)
    requires c'.replica == c.replica
    requires c'.level1 - {key} == c.level1 - {key} && c'.level2 - {key} == c.level2 - {key}
    ensures c'.DiffersOnlyAt(c, key)
    ensures c.Coherent() && c'.CoherentAt(key) ==> c'.Coherent()
  {
    forall other | other != key
      ensures Read(c'.level1, other) == Read(c.level1, other) && c'.CoherentAt(other) == c.CoherentAt(other)
    {
      assert other in c'.level1 <==> other in c'.level1 - {key};
      assert other in c.level1 <==> other in c.level1 - {key};
      assert other in c'.level2 <==> other in c'.level2 - {key};
      assert other in c.level2 <==> other in c.level2 - {key};
      assert other in c.level1 ==> (c'.level1 - {key})[other] == (c.level1 - {key})[other];
      assert other in c.level2 ==> (c'.level2 - {key})[other] == (c.level2 - {key})[other];
    }
  }

  class TwoLevelCache {
    var level1: Store
    var level2: Store
    var replica: Store

    ghost function State(): Cache
      reads this
    {
      Cache(level1, level2, replica)
    }

    constructor ()
      ensures State() == Cache(map[], map[], map[])
    {
      level1, level2, replica := map[], map[], map[];
    }

    method Get(key: Value) returns (r: Outcome)
      modifies this`level1
      ensures r == Reply(old(State()).Found(key)) && State() == old(State()).Get(key)
      ensures r == if old(State()).Found(key).Nil? then Failure(404) else Content(old(State()).Found(key))
      ensures level1 == if Read(old(level1), key).Nil? && r.Content? then old(level1)[key := r.val] else old(level1)
    {
      var val1 := Read(level1, key);
      if !val1.Nil? { return Content(val1); }
      var val2 := Read(replica, key);
      if val2.Nil? { return Failure(404); }
      level1 := level1[key := val2];
      r := Content(val2);
    }

    /** The new item is found under its id, which is the key and the unique id. */
    method Post(key: Value, val: Value, uuid: Value) returns (id: Value)
      modifies this`level1, this`level2
      ensures id == PostId(key, uuid) && State() == old(State()).Put(id, val)
      ensures id.Lst? && Elements(id.items) == Elements(AsList(key)) + [uuid]
      ensures !val.Nil? ==> State().Found(id) == val
      ensures State().DiffersOnlyAt(old(State()), id) && (old(State()).Coherent() ==> State().Coherent())
    {
      id := Lst(Append(AsList(key), MkList(uuid)));
      ElementsAppend(AsList(key), MkList(uuid));
      level1 := level1[id := val];
      level2 := level2[id := val];
      WriteDiffersOnlyAt(old(State()), State(), id);
    }

    /** The value is found under its key, whatever the replica holds. */
    method Put(key: Value, val: Value)
      modifies this`level1, this`level2
      ensures State() == old(State()).Put(key, val)
      ensures !val.Nil? ==> State().Found(key) == val
      ensures State().DiffersOnlyAt(old(State()), key) && (old(State()).Coherent() ==> State().Coherent())
    {
      level1 := level1[key := val];
      level2 := level2[key := val];
      WriteDiffersOnlyAt(old(State()), State(), key);
    }

    /** The levels stay coherent when they show the script the same value. */
    method Patch(key: Value, script: Value -> Value)
      modifies this`level1, this`level2
      ensures State() == old(State()).Patch(key, script)
      ensures var val := script(if key in old(level1) then old(level1)[key] else Lst(Null));
              State().Found(key) == if val.Nil? then old(State()).Found(key) else val
      ensures State().DiffersOnlyAt(old(State()), key)
      ensures var val := script(if key in old(level2) then old(level2)[key] else Lst(Null));
              level2 == if val.Nil? then old(level2) else old(level2)[key := val]
      ensures old(State()).Coherent() && Patched(old(level1), key) == Patched(old(level2), key) ==> State().Coherent()
    {
      level1 := PatchStore(level1, key, script);
      level2 := PatchStore(level2, key, script);
      WriteDiffersOnlyAt(old(State()), State(), key);
      if old(State()).Coherent() && Patched(old(level1), key) == Patched(old(level2), key) {
        PatchOfOneValue(old(State()), key, script);
      }
    }

    /** The key is found no more, unless the replica still has it. */
    method Delete(key: Value)
      modifies this`level1, this`level2
      ensures State() == old(State()).Delete(key)
      ensures key !in level1 && key !in level2 && State().Found(key) == Read(replica, key)
      ensures State().DiffersOnlyAt(old(State()), key) && (old(State()).Coherent() ==> State().Coherent())
    {
      level1 := level1 - {key};
      level2 := level2 - {key};
      WriteDiffersOnlyAt(old(State()), State(), key);
    }
  }

  // --- Patches ------------------------------------------------------------------------------

  /** A patch keeps its key coherent, whatever its script, exactly when both levels would show the
      script the same value. */
  lemma {:induction false} PatchCoherentIff(c: Cache, key: Value)
    requires c.Coherent()
    ensures (forall script: Value -> Value :: c.Patch(key, script).CoherentAt(key))
        <==> Patched(c.level1, key) == Patched(c.level2, key)
  {
    assert c.CoherentAt(key);
    if Patched(c.level1, key) != Patched(c.level2, key) {
      var script := v => if v == Lst(Null) then Num(1.0) else Num(2.0);
      assert script(Patched(c.level1, key)) == Num(1.0) && script(Patched(c.level2, key)) == Num(2.0);
      assert !c.Patch(key, script).CoherentAt(key);
    } else {
      forall script: Value -> Value
        ensures c.Patch(key, script).CoherentAt(key)
      {
        PatchOfOneValue(c, key, script);
      }
    }
  }

  lemma {:induction false} PatchOfOneValue(c: Cache, key: Value, script: Value -> Value)
    requires c.Coherent() && Patched(c.level1, key) == Patched(c.level2, key)
    ensures c.Patch(key, script).CoherentAt(key)
  {
    assert c.CoherentAt(key);
  }

  // --- One store ----------------------------------------------------------------------------

  datatype Request =
    | GetRequest(key: Value)
    | PutRequest(key: Value, val: Value)  // a put, or a post with its id
    | PatchRequest(key: Value, script: Value -> Value)
    | DeleteRequest(key: Value)
    | Eviction(key: Value)  // level 1 drops an entry
    | Lag(replica: Store)   // the replica becomes anything

  function Serve(c: Cache, q: Request): Cache {
    match q
    case GetRequest(key) => c.Get(key)
    case PutRequest(key, val) => c.Put(key, val)
    case PatchRequest(key, script) => c.Patch(key, script)
    case DeleteRequest(key) => c.Delete(key)
    case Eviction(key) => c.Evict(key)
    case Lag(replica) => c.(replica := replica)
  }

  /** A cache whose level 2 reads what it writes. */
  function ServeAtOnce(c: Cache, q: Request): Cache {
    var c' := Serve(c, q);
    c'.(replica := c'.level2)
  }

  function ServeStore(m: Store, q: Request): Store {
    match q
    case PutRequest(key, val) => m[key := val]
    case PatchRequest(key, script) => PatchStore(m, key, script)
    case DeleteRequest(key) => m - {key}
    case _ => m
  }

  /** A patch that shows both levels the same value. */
  predicate Allowed(c: Cache, q: Request) { q.PatchRequest? ==> Patched(c.level1, q.key) == Patched(c.level2, q.key) }

  lemma {:induction false} ServeKeepsCoherence(c: Cache, q: Request)
    requires c.Coherent() && c.replica == c.level2 && Allowed(c, q)
    ensures ServeAtOnce(c, q).Coherent() && ServeAtOnce(c, q).level2 == ServeStore(c.level2, q)
  {
    forall key ensures ServeAtOnce(c, q).CoherentAt(key) {
      assert c.CoherentAt(key);
      if q.PatchRequest? && key == q.key { PatchOfOneValue(c, key, q.script); }
    }
  }

  function Replies(c: Cache, qs: seq<Request>): seq<Outcome>
    decreases |qs|
  {
    if qs == [] then []
    else (if qs[0].GetRequest? then [Reply(c.Found(qs[0].key))] else []) + Replies(ServeAtOnce(c, qs[0]), qs[1..])
  }

  function StoreReplies(m: Store, qs: seq<Request>): seq<Outcome>
    decreases |qs|
  {
    if qs == [] then []
    else (if qs[0].GetRequest? then [Reply(Read(m, qs[0].key))] else []) + StoreReplies(ServeStore(m, qs[0]), qs[1..])
  }

  predicate AllAllowed(c: Cache, qs: seq<Request>)
    decreases |qs|
  {
    qs == [] || (Allowed(c, qs[0]) && AllAllowed(ServeAtOnce(c, qs[0]), qs[1..]))
  }

  /** Over every run, with any evictions, the two levels reply as the one store level 2 is. */
  lemma {:induction false} EveryRunIsOneStore(c: Cache, qs: seq<Request>)
    requires c.Coherent() && c.replica == c.level2 && AllAllowed(c, qs)
    ensures Replies(c, qs) == StoreReplies(c.level2, qs)
    decreases |qs|
  {
    if qs != [] {
      if qs[0].GetRequest? { assert c.CoherentAt(qs[0].key); }
      ServeKeepsCoherence(c, qs[0]);
      EveryRunIsOneStore(ServeAtOnce(c, qs[0]), qs[1..]);
    }
  }

  /** A request to the cache, whose level 2 then reads what it wrote. */
  method Perform(cache: TwoLevelCache, q: Request) returns (answer: seq<Outcome>)
    modifies cache
    ensures cache.State() == ServeAtOnce(old(cache.State()), q)
    ensures answer == if q.GetRequest? then [Reply(old(cache.State()).Found(q.key))] else []
  {
    answer := [];
    match q {
      case GetRequest(key) =>
        var r := cache.Get(key);
        answer := [r];
      case PutRequest(key, val) => cache.Put(key, val);
      case PatchRequest(key, script) => cache.Patch(key, script);
      case DeleteRequest(key) => cache.Delete(key);
      case Eviction(key) => cache.level1 := cache.level1 - {key};
      case Lag(_) =>
    }
    cache.replica := cache.level2;
  }

  /** Over every run the cache answers as one store, and stays coherent. */
  method PerformAll(cache: TwoLevelCache, qs: seq<Request>) returns (answers: seq<Outcome>)
    requires cache.State().Coherent() && cache.replica == cache.level2 && AllAllowed(cache.State(), qs)
    modifies cache
    ensures answers == StoreReplies(old(cache.level2), qs)
    ensures cache.State().Coherent() && cache.replica == cache.level2
    decreases |qs|
  {
    if qs == [] { return []; }
    ServeKeepsCoherence(cache.State(), qs[0]);
    if qs[0].GetRequest? { assert cache.State().CoherentAt(qs[0].key); }
    var first := Perform(cache, qs[0]);
    var rest := PerformAll(cache, qs[1..]);
    answers := first + rest;
  }

  // --- A lagging replica --------------------------------------------------------------------

  predicate LeavesAlone(q: Request, key: Value) { q.GetRequest? || q.Lag? || q.key != key }

  predicate AllLeaveAlone(qs: seq<Request>, key: Value) {
    qs == [] || (LeavesAlone(qs[0], key) && AllLeaveAlone(qs[1..], key))
  }

  function ServeAll(c: Cache, qs: seq<Request>): Cache
    decreases |qs|
  {
    if qs == [] then c else ServeAll(Serve(c, qs[0]), qs[1..])
  }

  /** However the replica lags, a value that was put is found until its key is evicted or written. */
  lemma {:induction false} PutIsFound(c: Cache, key: Value, val: Value, qs: seq<Request>)
    requires Read(c.level1, key) == val && !val.Nil? && AllLeaveAlone(qs, key)
    ensures ServeAll(c, qs).Found(key) == val
    decreases |qs|
  {
    if qs != [] { PutIsFound(Serve(c, qs[0]), key, val, qs[1..]); }
  }

  lemma {:induction false} PutThenGet(c: Cache, key: Value, val: Value, qs: seq<Request>)
    requires !val.Nil? && AllLeaveAlone(qs, key)
    ensures Reply(ServeAll(c.Put(key, val), qs).Found(key)) == Content(val)
  {
    PutIsFound(c.Put(key, val), key, val, qs);
  }

  /** Calls that may evict the key and get it, but do not write it. */
  predicate NoWrites(qs: seq<Request>, key: Value) {
    qs == [] || ((LeavesAlone(qs[0], key) || qs[0].Eviction?) && NoWrites(qs[1..], key))
  }

  /** The calls of a run, without what happens to the replica. */
  function WithoutLags(qs: seq<Request>): seq<Request> {
    if qs == [] then [] else (if qs[0].Lag? then [] else [qs[0]]) + WithoutLags(qs[1..])
  }

  predicate NoLags(qs: seq<Request>) { qs == [] || (!qs[0].Lag? && NoLags(qs[1..])) }

  lemma {:induction false} LagsLeaveAlone(qs: seq<Request>, key: Value)
    ensures AllLeaveAlone(WithoutLags(qs), key) <==> AllLeaveAlone(qs, key)
  {
    if qs != [] {
      LagsLeaveAlone(qs[1..], key);
      if qs[0].Lag? {
        assert WithoutLags(qs) == WithoutLags(qs[1..]);
      } else {
        assert WithoutLags(qs)[1..] == WithoutLags(qs[1..]);
      }
    }
  }

  lemma {:induction false} NothingToLeaveOut(qs: seq<Request>)
    requires NoLags(qs)
    ensures WithoutLags(qs) == qs
  {
    if qs != [] { NothingToLeaveOut(qs[1..]); }
  }

  /** With nothing but the replica's value, or with it in level 1, the key is found with that value. */
  lemma {:induction false} StaleValueIsFound(c: Cache, key: Value, qs: seq<Request>)
    requires NoWrites(qs, key) && NoLags(qs) && !Read(c.replica, key).Nil?
    requires Read(c.level1, key).Nil? || Read(c.level1, key) == Read(c.replica, key)
    ensures ServeAll(c, qs).Found(key) == Read(c.replica, key)
    decreases |qs|
  {
    if qs != [] { StaleValueIsFound(Serve(c, qs[0]), key, qs[1..]); }
  }

  /** Once evicted, a put value is replaced by the one of a replica that lags. */
  lemma {:induction false} EvictedIsStale(c: Cache, key: Value, val: Value, qs: seq<Request>)
    requires NoWrites(qs, key) && NoLags(qs) && !AllLeaveAlone(qs, key)
    requires Read(c.level1, key) == val && !val.Nil? && !Read(c.replica, key).Nil?
    ensures ServeAll(c, qs).Found(key) == Read(c.replica, key)
    decreases |qs|
  {
    var c' := Serve(c, qs[0]);
    if LeavesAlone(qs[0], key) {
      EvictedIsStale(c', key, val, qs[1..]);
    } else {
      StaleValueIsFound(c', key, qs[1..]);
    }
  }

  ghost predicate FoundHoweverItLags(qs: seq<Request>, key: Value, val: Value) {
    forall c: Cache, run: seq<Request> | WithoutLags(run) == qs :: ServeAll(c.Put(key, val), run).Found(key) == val
  }

  /** Until the key is written again, a put value is sure to be found, however the replica lags before
      and during the run, exactly when the key is not evicted. */
  lemma {:induction false} PutIsFoundIff(key: Value, val: Value, qs: seq<Request>)
    requires !val.Nil? && NoWrites(qs, key) && NoLags(qs)
    ensures FoundHoweverItLags(qs, key, val) <==> AllLeaveAlone(qs, key)
  {
    if AllLeaveAlone(qs, key) {
      forall c: Cache, run: seq<Request> | WithoutLags(run) == qs
        ensures ServeAll(c.Put(key, val), run).Found(key) == val
      {
        LagsLeaveAlone(run, key);
        PutIsFound(c.Put(key, val), key, val, run);
      }
    } else {
      var other := if val == Num(1.0) then Num(2.0) else Num(1.0);
      var c := Cache(map[], map[], map[key := other]);
      NothingToLeaveOut(qs);
      EvictedIsStale(c.Put(key, val), key, val, qs);
      assert ServeAll(c.Put(key, val), qs).Found(key) == other;
    }
  }

  /** A get after an eviction takes what the replica has, and level 1 then answers with it even
      when the replica has caught up. */
  lemma {:induction false} StaleValueStays(c: Cache, key: Value, val: Value, replica: Store)
    requires !Read(c.replica, key).Nil?
    ensures ServeAll(c.Put(key, val), [Eviction(key), GetRequest(key), Lag(replica)]).Found(key) == Read(c.replica, key)
  {
    var qs := [Eviction(key), GetRequest(key), Lag(replica)];
    assert qs[1..] == [GetRequest(key), Lag(replica)] && qs[1..][1..] == [Lag(replica)];
    assert qs[1..][1..][1..] == [];
    var c1 := Serve(c.Put(key, val), qs[0]);
    var c2 := Serve(c1, qs[1]);
    assert ServeAll(c2, [Lag(replica)]) == Serve(c2, qs[2]);
  }
}
