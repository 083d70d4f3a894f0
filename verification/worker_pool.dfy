/** Sums over the threads of a pool, and how often a value occurs in a sequence. */
module Sums {

  function Total(s: seq<nat>): nat {
    if s == [] then 0 else Total(s[..|s| - 1]) + s[|s| - 1]
  }

  function Count<T(==)>(s: seq<T>, x: T): nat {
    if s == [] then 0 else Count(s[..|s| - 1], x) + (if s[|s| - 1] == x then 1 else 0)
  }

  lemma {:induction false} TotalUpdate(s: seq<nat>, t: nat, n: nat)
    requires t < |s|
    ensures Total(s[t := n]) + s[t] == Total(s) + n
  {
    var k := |s| - 1;
    if t == k {
      assert s[t := n][..k] == s[..k];
    } else {
      assert s[t := n][..k] == s[..k][t := n];
      TotalUpdate(s[..k], t, n);
    }
  }

  lemma {:induction false} TotalConcat(a: seq<nat>, b: seq<nat>)
    ensures Total(a + b) == Total(a) + Total(b)
    decreases |b|
  {
    if b == [] {
      assert a + b == a;
    } else {
      var k := |b| - 1;
      assert (a + b)[..|a + b| - 1] == a + b[..k];
      TotalConcat(a, b[..k]);
    }
  }

  lemma {:induction false} TotalGrowth(s: seq<nat>, s': seq<nat>, c: nat)
    requires |s'| == |s| && forall i | 0 <= i < |s| :: s'[i] <= s[i] + c
    ensures Total(s') <= Total(s) + c * |s|
  {
    if s != [] {
      var k := |s| - 1;
      assert s'[..k][..] == s'[..k];
      TotalGrowth(s[..k], s'[..k], c);
      assert c * |s| == c * k + c;
    }
  }

  lemma {:induction false} TotalOfFlags(s: seq<nat>)
    requires forall i | 0 <= i < |s| :: s[i] <= 1
    ensures Total(s) <= |s|
    ensures Total(s) == |s| <==> forall i | 0 <= i < |s| :: s[i] == 1
  {
    if s != [] {
      var k := |s| - 1;
      TotalOfFlags(s[..k]);
      assert forall i | 0 <= i < k :: s[..k][i] == s[i];
    }
  }

  lemma {:induction false} TotalContains(s: seq<nat>, t: nat)
    requires t < |s|
    ensures s[t] <= Total(s)
  {
    var k := |s| - 1;
    if t < k { TotalContains(s[..k], t); }
  }

  lemma {:induction false} TotalOfZeros(s: seq<nat>)
    requires forall i | 0 <= i < |s| :: s[i] == 0
    ensures Total(s) == 0
  {
    if s != [] { TotalOfZeros(s[..|s| - 1]); }
  }

  lemma CountAppend<T>(s: seq<T>, v: T, x: T)
    ensures Count(s + [v], x) == Count(s, x) + (if v == x then 1 else 0)
  {
    assert (s + [v])[..|s|] == s;
  }

  lemma {:induction false} CountConcat<T>(s: seq<T>, t: seq<T>, x: T)
    ensures Count(s + t, x) == Count(s, x) + Count(t, x)
    decreases |t|
  {
    if t == [] {
      assert s + t == s;
    } else {
      var k := |t| - 1;
      assert (s + t)[..|s + t| - 1] == s + t[..k];
      CountConcat(s, t[..k], x);
    }
  }

  lemma {:induction false} CountMember<T>(s: seq<T>, x: T)
    ensures Count(s, x) > 0 <==> x in s
  {
    if s != [] {
      var k := |s| - 1;
      CountMember(s[..k], x);
      assert s == s[..k] + [s[k]];
    }
  }
}

/** The worker pool of kernel/parallel.hpp: threads that loop on the queue, clients that submit
    tasks with futures, and a shutdown that sends every thread a poison message and joins it. */
module WorkerPool {
  import opened Options
  import opened Sums
  import opened Ring
  import opened WorkQueue

  /** What travels through the queue: a closure that runs a function and sets its future, with the
      value the function returns, or the closure that returns false and ends its thread. */
  datatype Work = Task(id: nat, result: int) | Poison

  /** What a thread is doing outside the queue operations. Workers loop until they exit, submitters
      work through their tasks, and the last thread waits for them and shuts the pool down. */
  datatype App =
    | Looping
    | Exited
    | Submitting(todo: seq<Work>)
    | BeforeShutdown
    | Poisoning(left: nat)
    | Joining(next: nat)
    | Finished

  /** Worker threads come first, then the submitters, and last the thread that calls shutdown. */
  datatype Pool = Pool(workers: nat, queue: Queue<Work>, apps: seq<App>, executed: seq<Work>, futures: map<nat, int>) {
    function Last(): int { |apps| - 1 }
  }

  function Start(scripts: seq<seq<Work>>, slots: seq<Work>): Pool {
    var n := |slots|;
    Pool(n, Initial(slots, n + |scripts| + 1),
      seq(n, i => Looping) + seq(|scripts|, i requires 0 <= i < |scripts| => Submitting(scripts[i])) + [BeforeShutdown],
      [], map[])
  }

  // --- Steps --------------------------------------------------------------------------------

  predicate SubmittersDone(p: Pool) {
    forall i | p.workers <= i < p.Last() :: p.apps[i].Finished?
  }

  predicate CanAct(p: Pool, t: nat) {
    t < |p.apps| && t < |p.queue.pcs| && p.queue.pcs[t].Outside? &&
    match p.apps[t]
    case Looping => true
    case Exited => false
    case Submitting(_) => true
    case BeforeShutdown => SubmittersDone(p)
    case Poisoning(_) => true
    case Joining(next) => next >= p.workers || (next < |p.apps| && p.apps[next].Exited?)
    case Finished => false
  }

  /** A thread can take its next step: it is not asleep, blocked on the mutex or a join, or done. */
  predicate CanTurn(p: Pool, t: nat) { t < |p.apps| && (CanGo(p.queue, t) || CanAct(p, t)) }

  /** Single assignment: a value that is there stays. */
  function SetOnce<T>(was: Option<T>, v: T): Option<T> { if was.Some? then was else Some(v) }

  /** The object behind a future: what `set` and `get` do while they hold its mutex, `get` after its
      wait loop has seen a value. */
  class FutureValue<T(0)> {
    var hasValue: bool
    var value: T

    ghost function AsOption(): Option<T>
      reads this
    {
      if hasValue then Some(value) else None
    }

    constructor ()
      ensures AsOption() == None
    {
      hasValue := false;
    }

    method Set(v: T) returns (accepted: bool)
      modifies this
      ensures accepted <==> old(AsOption()) == None
      ensures AsOption() == SetOnce(old(AsOption()), v)
    {
      if hasValue { return false; }
      hasValue := true;
      value := v;
      return true;
    }

    method Get() returns (v: T)
      requires hasValue
      ensures AsOption() == Some(v)
    {
      v := value;
    }
  }

  /** The set of one future among all of them. */
  function SetFuture(futures: map<nat, int>, id: nat, v: int): map<nat, int> {
    if id in futures then futures else futures[id := v]
  }

  function FutureOf(futures: map<nat, int>, id: nat): Option<int> { if id in futures then Some(futures[id]) else None }

  /** What the pool's set does to each future is what the method does to its object. */
  lemma SetFutureSetsOne(futures: map<nat, int>, id: nat, v: int, other: nat)
    ensures FutureOf(SetFuture(futures, id, v), other)
         == if other == id then SetOnce(FutureOf(futures, id), v) else FutureOf(futures, other)
  {
  }

  function Begin(p: Pool, t: nat, op: Operation<Work>, app: App): Pool
    requires CanStart(p.queue, t) && t < |p.apps|
  {
    p.(queue := DoStart(p.queue, t, op), apps := p.apps[t := app])
  }

  /** The worker runs what it dequeued: the loop goes on as long as that returns true. */
  function Execute(p: Pool, t: nat, w: Work): Pool
    requires t < |p.apps| && t < |p.queue.pcs|
  {
    var q := p.queue.(pcs := p.queue.pcs[t := Outside(None)]);
    match w
    case Task(id, v) => p.(queue := q, executed := p.executed + [w], futures := SetFuture(p.futures, id, v))
    case Poison => p.(queue := q, executed := p.executed + [w], apps := p.apps[t := Exited])
  }

  function Act(p: Pool, t: nat): Pool
    requires CanAct(p, t)
  {
    match p.apps[t]
    case Looping =>
      if p.queue.pcs[t].result.Some? then Execute(p, t, p.queue.pcs[t].result.value) else Begin(p, t, Dequeue, Looping)
    case Submitting(todo) =>
      if todo == [] then p.(apps := p.apps[t := Finished]) else Begin(p, t, Enqueue(todo[0]), Submitting(todo[1..]))
    case BeforeShutdown => p.(apps := p.apps[t := Poisoning(p.workers)])
    case Poisoning(left) =>
      if left == 0 then p.(apps := p.apps[t := Joining(0)]) else Begin(p, t, Enqueue(Poison), Poisoning(left - 1))
    case Joining(next) => p.(apps := p.apps[t := if next >= p.workers then Finished else Joining(next + 1)])
  }

  function Turn(p: Pool, t: nat): Pool
    requires p.queue.ring.Valid() && CanTurn(p, t)
  {
    if CanGo(p.queue, t) then p.(queue := DoGo(p.queue, t)) else Act(p, t)
  }

  function Wake(p: Pool, t: nat): Pool
    requires CanWake(p.queue, t)
  {
    p.(queue := DoWake(p.queue, t))
  }

  // --- The accounts -------------------------------------------------------------------------

  function One(b: bool): nat { if b then 1 else 0 }

  /** How often a thread has still to put `w` into the queue: now, and later. */
  function Enqueueing(pc: PC<Work>, w: Work): nat {
    One((pc.EnqWant? || pc.EnqTest? || pc.EnqAsleep?) && pc.v == w)
  }

  function EnqueuesLater(workers: nat, app: App, w: Work): nat {
    match app
    case Submitting(todo) => Count(todo, w)
    case BeforeShutdown => if w.Poison? then workers else 0
    case Poisoning(left) => if w.Poison? then left else 0
    case _ => 0
  }

  function ToEnqueue(workers: nat, pc: PC<Work>, app: App, w: Work): nat {
    Enqueueing(pc, w) + EnqueuesLater(workers, app, w)
  }

  /** Whether a thread took `w` out of the queue and has not executed it yet. */
  function InHand(pc: PC<Work>, w: Work): nat {
    match pc
    case DeqDone(v) => One(v == w)
    case DeqOwes(v) => One(v == w)
    case Outside(r) => One(r == Some(w))
    case _ => 0
  }

  function AllToEnqueue(p: Pool, w: Work): seq<nat>
    requires |p.apps| == |p.queue.pcs|
  {
    seq(|p.apps|, i requires 0 <= i < |p.apps| => ToEnqueue(p.workers, p.queue.pcs[i], p.apps[i], w))
  }

  function AllInHand(p: Pool, w: Work): seq<nat> {
    seq(|p.queue.pcs|, i requires 0 <= i < |p.queue.pcs| => InHand(p.queue.pcs[i], w))
  }

  function ExitFlags(p: Pool): seq<nat>
    requires p.workers <= |p.apps|
  {
    seq(p.workers, i requires 0 <= i < p.workers => if p.apps[i].Exited? then 1 else 0)
  }

  // --- The invariant ------------------------------------------------------------------------

  predicate EnqueuesOnly(pc: PC<Work>, poison: bool) {
    match pc
    case Outside(r) => r.None?
    case EnqWant(v) => v.Poison? == poison
    case EnqTest(v) => v.Poison? == poison
    case EnqAsleep(v) => v.Poison? == poison
    case EnqDone => true
    case EnqOwes => true
    case _ => false
  }

  predicate RoleOk(p: Pool, i: nat)
    requires i < |p.apps| == |p.queue.pcs|
  {
    var pc, app := p.queue.pcs[i], p.apps[i];
    if i < p.workers then
      && (app.Looping? || (app.Exited? && pc == Outside(None)))
      && (pc.Outside? || pc.DeqWant? || pc.DeqTest? || pc.DeqAsleep? || pc.DeqDone? || pc.DeqOwes?)
    else if i < p.Last() then
      && EnqueuesOnly(pc, false)
      && (app.Finished? ==> pc == Outside(None))
      && (app.Finished? || (app.Submitting? && forall w | w in app.todo :: w.Task?))
    else
      && EnqueuesOnly(pc, true)
      && (app.Poisoning? || ((app.BeforeShutdown? || app.Joining? || app.Finished?) && pc == Outside(None)))
  }

  ghost predicate Roles(p: Pool) {
    && p.workers < |p.apps| == |p.queue.pcs|
    && p.queue.ring.max == p.workers
    && forall i | 0 <= i < |p.apps| :: RoleOk(p, i)
  }

  /** How the last thread joins the workers: those before the next one have exited. */
  ghost predicate Joins(p: Pool)
    requires p.workers < |p.apps|
  {
    var app := p.apps[p.Last()];
    && (app.Joining? ==> app.next <= p.workers && forall i | 0 <= i < app.next :: p.apps[i].Exited?)
    && (app.Finished? ==> forall i | 0 <= i < p.workers :: p.apps[i].Exited?)
  }

  /** The shutdown starts after all submits, its poison comes last, and it joins in order. */
  ghost predicate Phases(p: Pool)
    requires Roles(p)
  {
    var app := p.apps[p.Last()];
    && (if app.BeforeShutdown? then forall w | w in p.queue.enqueued :: w.Task? else SubmittersDone(p))
    && Joins(p)
    && (forall i, j | 0 <= i < j < |p.queue.enqueued| && p.queue.enqueued[i].Poison? :: p.queue.enqueued[j].Poison?)
  }

  /** How often `w` is to go through the queue altogether. */
  function Scripted(scripts: seq<seq<Work>>, w: Work): seq<nat> {
    seq(|scripts|, i requires 0 <= i < |scripts| => Count(scripts[i], w))
  }

  function Wanted(scripts: seq<seq<Work>>, workers: nat, w: Work): nat {
    Total(Scripted(scripts, w)) + (if w.Poison? then workers else 0)
  }

  /** Nothing is lost or duplicated on the way into the queue, nor between the queue and execution. */
  ghost predicate Account(p: Pool, w: Work, wanted: nat)
    requires |p.apps| == |p.queue.pcs|
  {
    && Count(p.queue.enqueued, w) + Total(AllToEnqueue(p, w)) == wanted
    && Count(p.queue.dequeued, w) == Total(AllInHand(p, w)) + Count(p.executed, w)
  }

  ghost predicate Accounts(p: Pool, scripts: seq<seq<Work>>)
    requires |p.apps| == |p.queue.pcs|
  {
    forall w :: Account(p, w, Wanted(scripts, p.workers, w))
  }

  ghost predicate ExitsCounted(p: Pool)
    requires p.workers <= |p.apps|
  {
    Total(ExitFlags(p)) == Count(p.executed, Poison)
  }

  /** Every executed task has set its future, and nothing else has. */
  ghost predicate FuturesSet(p: Pool) {
    && (forall w | w in p.executed && w.Task? :: w.id in p.futures && p.futures[w.id] == w.result)
    && (forall id | id in p.futures :: exists w :: w in p.executed && w.Task? && w.id == id)
  }

  /** Submitters submit tasks only, and each submit makes a fresh future. */
  ghost predicate ProperScripts(scripts: seq<seq<Work>>) {
    && (forall s, w | s in scripts && w in s :: w.Task?)
    && (forall w: Work :: Total(Scripted(scripts, w)) <= 1)
    && (forall v: Work, w: Work | 0 < Total(Scripted(scripts, v)) && 0 < Total(Scripted(scripts, w)) ::
          v.Task? && w.Task? && (v.id == w.id ==> v == w))
  }

  ghost predicate PoolInv(p: Pool, scripts: seq<seq<Work>>) {
    && Inv(p.queue)
    && Roles(p)
    && Phases(p)
    && Accounts(p, scripts)
    && ExitsCounted(p)
    && FuturesSet(p)
  }

  // --- The start ----------------------------------------------------------------------------

  lemma StartRoles(scripts: seq<seq<Work>>, slots: seq<Work>)
    requires forall s, w | s in scripts && w in s :: w.Task?
    ensures var p := Start(scripts, slots); Inv(p.queue) && Roles(p) && Phases(p)
  {
    var p := Start(scripts, slots);
    InitialInv(slots, |slots| + |scripts| + 1);
    forall i | 0 <= i < |p.apps|
      ensures RoleOk(p, i)
    {
      if p.workers <= i < p.Last() { assert p.apps[i] == Submitting(scripts[i - p.workers]); }
    }
  }

  lemma {:induction false} StartToEnqueue(scripts: seq<seq<Work>>, slots: seq<Work>, w: Work)
    ensures Total(AllToEnqueue(Start(scripts, slots), w)) == Wanted(scripts, |slots|, w)
  {
    var p, last := Start(scripts, slots), [if w.Poison? then |slots| else 0];
    var none := seq(|slots|, i => 0);
    assert AllToEnqueue(p, w) == none + Scripted(scripts, w) + last;
    TotalOfZeros(none);
    TotalConcat(none, Scripted(scripts, w));
    TotalConcat(none + Scripted(scripts, w), last);
    assert last[..0] == [];
  }

  lemma {:induction false} StartAccount(scripts: seq<seq<Work>>, slots: seq<Work>, w: Work)
    ensures Account(Start(scripts, slots), w, Wanted(scripts, |slots|, w))
  {
    StartToEnqueue(scripts, slots, w);
    TotalOfZeros(AllInHand(Start(scripts, slots), w));
  }

  lemma StartInv(scripts: seq<seq<Work>>, slots: seq<Work>)
    requires ProperScripts(scripts)
    ensures PoolInv(Start(scripts, slots), scripts)
  {
    var p := Start(scripts, slots);
    StartRoles(scripts, slots);
    forall w
      ensures Account(p, w, Wanted(scripts, p.workers, w))
    {
      StartAccount(scripts, slots, w);
    }
    TotalOfZeros(ExitFlags(p));
  }

  // --- Every step keeps the invariant -------------------------------------------------------

  /** What a step may do to the other threads: a broadcast sends sleepers back to the mutex. */
  predicate SameOrWoken(pc: PC<Work>, pc': PC<Work>) {
    pc' == pc || (pc.DeqAsleep? && pc'.DeqWant?) || (pc.EnqAsleep? && pc' == EnqWant(pc.v))
  }

  ghost predicate OthersKept(p: Pool, p': Pool, t: nat) {
    && |p'.queue.pcs| == |p.queue.pcs| && |p'.apps| == |p.apps| && p'.workers == p.workers
    && (forall i | 0 <= i < |p.queue.pcs| && i != t :: SameOrWoken(p.queue.pcs[i], p'.queue.pcs[i]))
    && (forall i | 0 <= i < |p.apps| && i != t :: p'.apps[i] == p.apps[i])
  }

  lemma TurnFrame(p: Pool, t: nat)
    requires p.queue.ring.Valid() && CanTurn(p, t)
    ensures OthersKept(p, Turn(p, t), t)
  {}

  lemma {:induction false} LeaveKeepsInv(q: Queue<Work>, t: nat)
    requires Inv(q) && t < |q.pcs| && q.pcs[t].Outside?
    ensures Inv(q.(pcs := q.pcs[t := Outside(None)]))
  {
    KeepsDebts(q, q.(pcs := q.pcs[t := Outside(None)]), t);
  }

  lemma {:induction false} ActKeepsQueueInv(p: Pool, t: nat)
    requires Inv(p.queue) && CanAct(p, t)
    ensures Inv(Act(p, t).queue)
  {
    match p.apps[t]
    case Looping =>
      if p.queue.pcs[t].result.Some? { LeaveKeepsInv(p.queue, t); } else { StartKeepsInv(p.queue, t, Dequeue); }
    case Submitting(todo) => if todo != [] { StartKeepsInv(p.queue, t, Enqueue(todo[0])); }
    case Poisoning(left) => if left != 0 { StartKeepsInv(p.queue, t, Enqueue(Poison)); }
    case _ =>
  }

  lemma {:induction false} TurnKeepsQueueInv(p: Pool, t: nat)
    requires Inv(p.queue) && CanTurn(p, t)
    ensures Inv(Turn(p, t).queue)
  {
    if CanGo(p.queue, t) { GoKeepsInv(p.queue, t); } else { ActKeepsQueueInv(p, t); }
  }

  lemma OthersKeepRoles(p: Pool, p': Pool, t: nat)
    requires Roles(p) && OthersKept(p, p', t) && t < |p.apps| && p'.queue.ring.max == p.queue.ring.max
    requires RoleOk(p', t)
    ensures Roles(p')
  {
    forall i | 0 <= i < |p'.apps|
      ensures RoleOk(p', i)
    {
      if i != t { assert RoleOk(p, i) && SameOrWoken(p.queue.pcs[i], p'.queue.pcs[i]); }
    }
  }

  lemma TurnKeepsRoles(p: Pool, t: nat)
    requires Inv(p.queue) && Roles(p) && CanTurn(p, t)
    ensures Roles(Turn(p, t))
  {
    TurnFrame(p, t);
    assert RoleOk(p, t);
    if p.apps[t].Submitting? && p.apps[t].todo != [] { assert p.apps[t].todo[0] in p.apps[t].todo; }
    OthersKeepRoles(p, Turn(p, t), t);
  }

  lemma PoisonStaysLast(p: Pool, t: nat)
    requires Inv(p.queue) && Roles(p) && Phases(p) && CanTurn(p, t)
    ensures var e := Turn(p, t).queue.enqueued;
      forall i, j | 0 <= i < j < |e| && e[i].Poison? :: e[j].Poison?
  {
    var e, e' := p.queue.enqueued, Turn(p, t).queue.enqueued;
    if e' != e {
      var v := p.queue.pcs[t].v;
      assert RoleOk(p, t) && e' == e + [v];
      if v.Task? {
        assert !p.apps[t].Finished? && p.apps[p.Last()].BeforeShutdown?;
        assert forall i | 0 <= i < |e| :: e[i] in e;
      }
    }
  }

  lemma {:induction false} TurnKeepsJoins(p: Pool, t: nat)
    requires Inv(p.queue) && Roles(p) && Joins(p) && CanTurn(p, t)
    ensures p.workers < |Turn(p, t).apps| && Turn(p, t).workers == p.workers && Joins(Turn(p, t))
  {
    TurnFrame(p, t);
    assert RoleOk(p, t) && RoleOk(p, p.Last());
  }

  lemma {:induction false} TurnKeepsPhases(p: Pool, t: nat)
    requires Inv(p.queue) && Roles(p) && Phases(p) && CanTurn(p, t)
    ensures Roles(Turn(p, t)) && Phases(Turn(p, t))
  {
    TurnKeepsRoles(p, t);
    TurnKeepsJoins(p, t);
    TurnFrame(p, t);
    assert RoleOk(p, t) && RoleOk(p, p.Last());
    PoisonStaysLast(p, t);
  }

  // --- Conservation -------------------------------------------------------------------------

  lemma MovesConserve(pc: PC<Work>, pc': PC<Work>, e: seq<Work>, e': seq<Work>, d: seq<Work>, d': seq<Work>, w: Work)
    requires Moves(pc, pc', e, e', d, d')
    ensures Count(e', w) + Enqueueing(pc', w) == Count(e, w) + Enqueueing(pc, w)
    ensures Count(d', w) + InHand(pc, w) == Count(d, w) + InHand(pc', w)
  {
    if pc.EnqTest? { CountAppend(e, pc.v, w); }
    if pc'.DeqDone? { CountAppend(d, pc'.v, w); }
  }

  /** A step outside the queue operations keeps what the thread has still to enqueue, and executing
      moves work from its hand to the executed log. */
  lemma ActKeepsToEnqueue(p: Pool, t: nat, w: Work)
    requires t < |p.apps| == |p.queue.pcs| && RoleOk(p, t) && CanAct(p, t)
    ensures var p' := Act(p, t);
      && |p'.queue.pcs| == |p'.apps| == |p.apps| && p'.queue.enqueued == p.queue.enqueued
      && ToEnqueue(p.workers, p'.queue.pcs[t], p'.apps[t], w) == ToEnqueue(p.workers, p.queue.pcs[t], p.apps[t], w)
  {
    if p.apps[t].Submitting? && p.apps[t].todo != [] {
      var todo := p.apps[t].todo;
      assert todo == [todo[0]] + todo[1..];
      CountConcat([todo[0]], todo[1..], w);
      CountOne(todo[0], w);
    }
  }

  lemma CountOne<T>(v: T, x: T)
    ensures Count([v], x) == if v == x then 1 else 0
  {
    CountAppend([], v, x);
    assert [] + [v] == [v];
  }

  lemma ActExecutesFromHand(p: Pool, t: nat, w: Work)
    requires t < |p.apps| == |p.queue.pcs| && RoleOk(p, t) && CanAct(p, t)
    ensures var p' := Act(p, t);
      && |p'.queue.pcs| == |p.apps| && p'.queue.dequeued == p.queue.dequeued
      && InHand(p.queue.pcs[t], w) + Count(p.executed, w) == InHand(p'.queue.pcs[t], w) + Count(p'.executed, w)
  {
    var pc := p.queue.pcs[t];
    if p.apps[t].Looping? && pc.result.Some? { CountAppend(p.executed, pc.result.value, w); }
  }

  /** What the stepping thread adds to the queue, it no longer has to add; what it takes from the
      queue is in its hand until it is executed. */
  lemma TurnConserves(p: Pool, t: nat, w: Work)
    requires p.queue.ring.Valid() && t < |p.apps| == |p.queue.pcs| && RoleOk(p, t) && CanTurn(p, t)
    ensures var p' := Turn(p, t);
      && |p'.queue.pcs| == |p'.apps| == |p.apps|
      && Count(p'.queue.enqueued, w) + ToEnqueue(p.workers, p'.queue.pcs[t], p'.apps[t], w)
         == Count(p.queue.enqueued, w) + ToEnqueue(p.workers, p.queue.pcs[t], p.apps[t], w)
      && Count(p'.queue.dequeued, w) + InHand(p.queue.pcs[t], w) + Count(p.executed, w)
         == Count(p.queue.dequeued, w) + InHand(p'.queue.pcs[t], w) + Count(p'.executed, w)
  {
    if CanGo(p.queue, t) {
      var q, q' := p.queue, DoGo(p.queue, t);
      GoMoves(q, t);
      MovesConserve(q.pcs[t], q'.pcs[t], q.enqueued, q'.enqueued, q.dequeued, q'.dequeued, w);
    } else {
      ActKeepsToEnqueue(p, t, w);
      ActExecutesFromHand(p, t, w);
    }
  }

  /** One step moves the books of one thread only, so they stay balanced. */
  lemma {:induction false} AccountStep(p: Pool, p': Pool, t: nat, w: Work, wanted: nat)
    requires t < |p.apps| == |p.queue.pcs| == |p'.queue.pcs| == |p'.apps| && OthersKept(p, p', t)
    requires Account(p, w, wanted)
    requires Count(p'.queue.enqueued, w) + ToEnqueue(p.workers, p'.queue.pcs[t], p'.apps[t], w)
          == Count(p.queue.enqueued, w) + ToEnqueue(p.workers, p.queue.pcs[t], p.apps[t], w)
    requires Count(p'.queue.dequeued, w) + InHand(p.queue.pcs[t], w) + Count(p.executed, w)
          == Count(p.queue.dequeued, w) + InHand(p'.queue.pcs[t], w) + Count(p'.executed, w)
    ensures Account(p', w, wanted)
  {
    ToEnqueueStep(p, p', t, w);
    InHandStep(p, p', t, w);
  }

  lemma {:induction false} ToEnqueueStep(p: Pool, p': Pool, t: nat, w: Work)
    requires t < |p.apps| == |p.queue.pcs| == |p'.queue.pcs| == |p'.apps| && OthersKept(p, p', t)
    ensures Total(AllToEnqueue(p', w)) + ToEnqueue(p.workers, p.queue.pcs[t], p.apps[t], w)
         == Total(AllToEnqueue(p, w)) + ToEnqueue(p.workers, p'.queue.pcs[t], p'.apps[t], w)
  {
    var a := ToEnqueue(p.workers, p'.queue.pcs[t], p'.apps[t], w);
    assert AllToEnqueue(p', w) == AllToEnqueue(p, w)[t := a];
    TotalUpdate(AllToEnqueue(p, w), t, a);
  }

  lemma {:induction false} InHandStep(p: Pool, p': Pool, t: nat, w: Work)
    requires OthersKept(p, p', t) && t < |p.queue.pcs|
    ensures Total(AllInHand(p', w)) + InHand(p.queue.pcs[t], w) == Total(AllInHand(p, w)) + InHand(p'.queue.pcs[t], w)
  {
    var h := InHand(p'.queue.pcs[t], w);
    assert AllInHand(p', w) == AllInHand(p, w)[t := h];
    TotalUpdate(AllInHand(p, w), t, h);
  }

  lemma TurnKeepsAccounts(p: Pool, t: nat, scripts: seq<seq<Work>>)
    requires p.queue.ring.Valid() && Roles(p) && CanTurn(p, t) && Accounts(p, scripts)
    ensures var p' := Turn(p, t); |p'.apps| == |p'.queue.pcs| && Accounts(p', scripts)
  {
    var p' := Turn(p, t);
    TurnFrame(p, t);
    assert RoleOk(p, t);
    forall w
      ensures Account(p', w, Wanted(scripts, p'.workers, w))
    {
      assert Account(p, w, Wanted(scripts, p.workers, w));
      TurnConserves(p, t, w);
      AccountStep(p, p', t, w, Wanted(scripts, p.workers, w));
    }
  }

  /** A worker exits exactly when it executes a poison message. */
  lemma {:induction false} TurnKeepsExits(p: Pool, t: nat)
    requires p.queue.ring.Valid() && Roles(p) && CanTurn(p, t) && ExitsCounted(p)
    ensures Turn(p, t).workers <= |Turn(p, t).apps| && ExitsCounted(Turn(p, t))
  {
    if !CanGo(p.queue, t) { ActKeepsExits(p, t); }
  }

  predicate Executes(p: Pool, t: nat, w: Work) {
    t < p.workers && t < |p.apps| && t < |p.queue.pcs| && p.apps[t].Looping? && p.queue.pcs[t] == Outside(Some(w))
  }

  lemma {:induction false} ActMovesExits(p: Pool, t: nat)
    requires Roles(p) && CanAct(p, t)
    ensures Act(p, t).workers == p.workers <= |Act(p, t).apps|
    ensures ExitFlags(Act(p, t)) == if Executes(p, t, Poison) then ExitFlags(p)[t := 1] else ExitFlags(p)
  {
    assert RoleOk(p, t);
    var flags := ExitFlags(Act(p, t));
    if Executes(p, t, Poison) {
      assert flags == ExitFlags(p)[t := 1];
    } else {
      assert flags == ExitFlags(p);
    }
  }

  lemma {:induction false} ActExecutesPoison(p: Pool, t: nat)
    requires Roles(p) && CanAct(p, t)
    ensures Count(Act(p, t).executed, Poison) == Count(p.executed, Poison) + One(Executes(p, t, Poison))
  {
    assert RoleOk(p, t);
    if p.apps[t].Looping? && p.queue.pcs[t].result.Some? {
      CountAppend(p.executed, p.queue.pcs[t].result.value, Poison);
    }
  }

  lemma {:induction false} ActKeepsExits(p: Pool, t: nat)
    requires Roles(p) && CanAct(p, t) && ExitsCounted(p)
    ensures Act(p, t).workers <= |Act(p, t).apps| && ExitsCounted(Act(p, t))
  {
    assert RoleOk(p, t);
    ActMovesExits(p, t);
    ActExecutesPoison(p, t);
    if Executes(p, t, Poison) { TotalUpdate(ExitFlags(p), t, 1); }
  }

  // --- Futures ------------------------------------------------------------------------------

  /** What is executed was submitted, so a task is never executed twice. */
  lemma ExecutedOnce(p: Pool, scripts: seq<seq<Work>>, t: nat, w: Work)
    requires Inv(p.queue) && |p.apps| == |p.queue.pcs| && Accounts(p, scripts) && ProperScripts(scripts)
    requires t < |p.queue.pcs| && p.queue.pcs[t] == Outside(Some(w)) && w.Task?
    ensures forall v | v in p.executed && v.Task? :: v.id != w.id
  {
    forall v | v in p.executed && v.Task?
      ensures v.id != w.id
    {
      CountMember(p.executed, v);
      ExecutedIsWanted(p, scripts, v);
      ExecutedIsWanted(p, scripts, w);
      TotalContains(AllInHand(p, w), t);
    }
  }

  lemma ExecutedIsWanted(p: Pool, scripts: seq<seq<Work>>, w: Work)
    requires Inv(p.queue) && |p.apps| == |p.queue.pcs| && Accounts(p, scripts)
    ensures Count(p.executed, w) + Total(AllInHand(p, w)) + Total(AllToEnqueue(p, w)) <= Wanted(scripts, p.workers, w)
  {
    assert Account(p, w, Wanted(scripts, p.workers, w));
    CountConcat(p.queue.dequeued, p.queue.ring.Contents(), w);
  }

  lemma TurnKeepsFutures(p: Pool, scripts: seq<seq<Work>>, t: nat)
    requires Inv(p.queue) && Roles(p) && Accounts(p, scripts) && ProperScripts(scripts)
    requires FuturesSet(p) && CanTurn(p, t)
    ensures FuturesSet(Turn(p, t))
  {
    if !CanGo(p.queue, t) && p.apps[t].Looping? && p.queue.pcs[t].result.Some? {
      ExecuteKeepsFutures(p, scripts, t, p.queue.pcs[t].result.value);
    }
  }

  lemma ExecuteKeepsFutures(p: Pool, scripts: seq<seq<Work>>, t: nat, w: Work)
    requires Inv(p.queue) && |p.apps| == |p.queue.pcs| && Accounts(p, scripts) && ProperScripts(scripts)
    requires FuturesSet(p)
    requires t < |p.apps| && p.queue.pcs[t] == Outside(Some(w))
    ensures FuturesSet(Execute(p, t, w))
  {
    var p' := Execute(p, t, w);
    if w.Task? {
      ExecutedOnce(p, scripts, t, w);
      assert w.id !in p.futures && w in p'.executed;
      forall id | id in p'.futures
        ensures exists v :: v in p'.executed && v.Task? && v.id == id
      {
        if id != w.id {
          var v :| v in p.executed && v.Task? && v.id == id;
          assert v in p'.executed;
        }
      }
    }
  }

  // --- Whole runs ---------------------------------------------------------------------------

  lemma TurnKeepsPoolInv(p: Pool, scripts: seq<seq<Work>>, t: nat)
    requires PoolInv(p, scripts) && ProperScripts(scripts) && CanTurn(p, t)
    ensures PoolInv(Turn(p, t), scripts)
  {
    TurnKeepsQueueInv(p, t);
    TurnKeepsPhases(p, t);
    TurnKeepsAccounts(p, t, scripts);
    TurnKeepsExits(p, t);
    TurnKeepsFutures(p, scripts, t);
  }

  lemma {:induction false} WakeFrame(p: Pool, t: nat)
    requires Roles(p) && CanWake(p.queue, t)
    ensures OthersKept(p, Wake(p, t), t) && Roles(Wake(p, t)) && ExitFlags(Wake(p, t)) == ExitFlags(p)
  {
    var p' := Wake(p, t);
    assert RoleOk(p, t);
    OthersKeepRoles(p, p', t);
    assert ExitFlags(p') == ExitFlags(p);
  }

  lemma {:induction false} WakeKeepsAccounts(p: Pool, scripts: seq<seq<Work>>, t: nat)
    requires Roles(p) && CanWake(p.queue, t) && Accounts(p, scripts)
    ensures Accounts(Wake(p, t), scripts)
  {
    var p' := Wake(p, t);
    WakeFrame(p, t);
    forall w
      ensures Account(p', w, Wanted(scripts, p'.workers, w))
    {
      assert Account(p, w, Wanted(scripts, p.workers, w));
      AccountStep(p, p', t, w, Wanted(scripts, p.workers, w));
    }
  }

  lemma {:induction false} WakeKeepsPhases(p: Pool, t: nat)
    requires Roles(p) && CanWake(p.queue, t) && Phases(p)
    ensures Roles(Wake(p, t)) && Phases(Wake(p, t))
  {
    WakeFrame(p, t);
    assert RoleOk(p, t) && RoleOk(p, p.Last());
  }

  lemma {:induction false} WakeKeepsPoolInv(p: Pool, scripts: seq<seq<Work>>, t: nat)
    requires PoolInv(p, scripts) && CanWake(p.queue, t)
    ensures PoolInv(Wake(p, t), scripts)
  {
    WakeKeepsInv(p.queue, t);
    WakeFrame(p, t);
    WakeKeepsAccounts(p, scripts, t);
    WakeKeepsPhases(p, t);
  }

  /** A scheduling choice: the next step of a thread, or a wake-up for no reason. */
  datatype Choice = Next(t: nat) | Spurious(t: nat)

  predicate Possible(p: Pool, c: Choice) {
    match c
    case Next(t) => CanTurn(p, t)
    case Spurious(t) => CanWake(p.queue, t)
  }

  function Step(p: Pool, c: Choice): Pool
    requires p.queue.ring.Valid()
  {
    if !Possible(p, c) then p else match c case Next(t) => Turn(p, t) case Spurious(t) => Wake(p, t)
  }

  lemma StepKeepsPoolInv(p: Pool, scripts: seq<seq<Work>>, c: Choice)
    requires PoolInv(p, scripts) && ProperScripts(scripts)
    ensures PoolInv(Step(p, c), scripts)
  {
    if Possible(p, c) {
      match c
      case Next(t) => TurnKeepsPoolInv(p, scripts, t);
      case Spurious(t) => WakeKeepsPoolInv(p, scripts, t);
    }
  }

  ghost function Run(p: Pool, scripts: seq<seq<Work>>, run: seq<Choice>): (r: Pool)
    requires PoolInv(p, scripts) && ProperScripts(scripts)
    ensures PoolInv(r, scripts)
    decreases |run|
  {
    if run == [] then p else
      var last := Run(p, scripts, run[..|run| - 1]);
      StepKeepsPoolInv(last, scripts, run[|run| - 1]);
      Step(last, run[|run| - 1])
  }

  // --- When shutdown returns ----------------------------------------------------------------

  predicate ShutdownReturned(p: Pool) { p.apps != [] && p.apps[p.Last()].Finished? }

  /** Every thread has exited, the queue is empty, every submitted task was executed exactly once
      (and each worker executed one poison message), and every future holds its task's result. */
  ghost predicate Complete(p: Pool, scripts: seq<seq<Work>>) {
    && p.workers <= |p.apps|
    && (forall i | 0 <= i < p.workers :: p.apps[i].Exited?)
    && p.queue.ring.size == 0
    && (forall w :: Count(p.executed, w) == Wanted(scripts, p.workers, w))
    && (forall id :: id in p.futures <==> exists s, w | s in scripts && w in s :: w.Task? && w.id == id)
    && (forall s, w | s in scripts && w in s && w.Task? :: w.id in p.futures && p.futures[w.id] == w.result)
    && (forall s, w | s in scripts && w in s :: Count(p.executed, w) == 1)
  }

  lemma AllExited(p: Pool)
    requires p.workers <= |p.apps| && ExitsCounted(p)
    ensures Count(p.executed, Poison) <= p.workers
    ensures Count(p.executed, Poison) == p.workers <==> forall i | 0 <= i < p.workers :: p.apps[i].Exited?
  {
    TotalOfFlags(ExitFlags(p));
    assert forall i | 0 <= i < p.workers :: ExitFlags(p)[i] == 1 <==> p.apps[i].Exited?;
  }

  /** Once the last thread has all poison out of its hands and the submitters are done, everything
      wanted went into the queue. */
  lemma AllEnqueued(p: Pool, scripts: seq<seq<Work>>, w: Work)
    requires PoolInv(p, scripts) && (p.apps[p.Last()].Joining? || p.apps[p.Last()].Finished?)
    ensures Count(p.queue.enqueued, w) == Wanted(scripts, p.workers, w)
  {
    assert Account(p, w, Wanted(scripts, p.workers, w));
    forall i | 0 <= i < |p.apps|
      ensures AllToEnqueue(p, w)[i] == 0
    {
      assert RoleOk(p, i);
    }
    TotalOfZeros(AllToEnqueue(p, w));
  }

  lemma NothingInHand(p: Pool, w: Work)
    requires Roles(p) && forall i | 0 <= i < p.workers :: p.queue.pcs[i].DeqAsleep? || p.queue.pcs[i] == Outside(None)
    ensures Total(AllInHand(p, w)) == 0
  {
    forall i | 0 <= i < |p.queue.pcs|
      ensures AllInHand(p, w)[i] == 0
    {
      assert RoleOk(p, i);
    }
    TotalOfZeros(AllInHand(p, w));
  }

  lemma {:induction false} ScriptedMember(scripts: seq<seq<Work>>, w: Work)
    ensures 0 < Total(Scripted(scripts, w)) <==> exists s :: s in scripts && w in s
  {
    var c := Scripted(scripts, w);
    if exists s :: s in scripts && w in s {
      var i :| 0 <= i < |scripts| && w in scripts[i];
      CountMember(scripts[i], w);
      TotalContains(c, i);
    } else {
      forall i | 0 <= i < |c|
        ensures c[i] == 0
      {
        CountMember(scripts[i], w);
        assert scripts[i] in scripts;
      }
      TotalOfZeros(c);
    }
  }

  /** All poison has come out of the queue, and poison went in last: so the queue is empty. */
  lemma QueueIsEmpty(p: Pool, scripts: seq<seq<Work>>)
    requires PoolInv(p, scripts) && ProperScripts(scripts) && p.apps[p.Last()].Finished?
    ensures p.queue.ring.size == 0
  {
    var q := p.queue;
    var rest := q.ring.Contents();
    AllExited(p);
    AllEnqueued(p, scripts, Poison);
    NoTaskIsPoison(scripts);
    assert Account(p, Poison, Wanted(scripts, p.workers, Poison));
    CountConcat(q.dequeued, rest, Poison);
    if rest != [] {
      CountMember(q.dequeued, Poison);
      if p.workers > 0 {
        var i :| 0 <= i < |q.dequeued| && q.dequeued[i] == Poison;
        assert q.enqueued[i] == Poison && q.enqueued[|q.dequeued|] == rest[0];
        assert rest[0] == Poison;
        CountMember(rest, Poison);
      }
    }
  }

  lemma NoTaskIsPoison(scripts: seq<seq<Work>>)
    requires ProperScripts(scripts)
    ensures Total(Scripted(scripts, Poison)) == 0
  {
    assert 0 < Total(Scripted(scripts, Poison)) ==> Poison.Task?;
  }

  lemma ReturnedIsComplete(p: Pool, scripts: seq<seq<Work>>)
    requires PoolInv(p, scripts) && ProperScripts(scripts) && ShutdownReturned(p)
    ensures Complete(p, scripts)
  {
    QueueIsEmpty(p, scripts);
    forall w
      ensures Count(p.executed, w) == Wanted(scripts, p.workers, w)
    {
      forall i | 0 <= i < p.workers
        ensures p.queue.pcs[i] == Outside(None)
      {
        assert RoleOk(p, i);
      }
      AllEnqueued(p, scripts, w);
      NothingInHand(p, w);
      assert Account(p, w, Wanted(scripts, p.workers, w));
      assert p.queue.enqueued == p.queue.dequeued;
    }
    forall w: Work | w.Task?
      ensures w in p.executed <==> exists s :: s in scripts && w in s
    {
      CountMember(p.executed, w);
      ScriptedMember(scripts, w);
      assert Count(p.executed, w) == Wanted(scripts, p.workers, w);
    }
    forall s, w | s in scripts && w in s
      ensures Count(p.executed, w) == 1
    {
      ScriptedMember(scripts, w);
      assert Count(p.executed, w) == Wanted(scripts, p.workers, w);
    }
  }

  // --- Shutdown cannot get stuck ------------------------------------------------------------

  /** While poison is left to enqueue, some worker is still there to take from the queue. */
  lemma WorkerLeft(p: Pool, scripts: seq<seq<Work>>, t: nat)
    requires PoolInv(p, scripts) && ProperScripts(scripts) && t < |p.apps| && 0 < p.workers
    requires 0 < ToEnqueue(p.workers, p.queue.pcs[t], p.apps[t], Poison)
    ensures exists i :: 0 <= i < p.workers && p.apps[i].Looping?
  {
    AllExited(p);
    NoTaskIsPoison(scripts);
    ExecutedIsWanted(p, scripts, Poison);
    TotalContains(AllToEnqueue(p, Poison), t);
    var i :| 0 <= i < p.workers && !p.apps[i].Exited?;
    assert RoleOk(p, i);
  }

  lemma HolderCanGo<T>(q: Queue<T>)
    requires Inv(q) && q.holder.Some?
    ensures CanGo(q, q.holder.value)
  {
    assert q.pcs[q.holder.value].Holds();
  }

  lemma SleeperMeansFullOrEmpty(p: Pool, t: nat)
    requires Inv(p.queue) && Roles(p) && t < |p.apps|
    requires forall i | 0 <= i < |p.apps| :: !CanGo(p.queue, i)
    ensures p.queue.holder.None?
    ensures forall i | 0 <= i < |p.apps| :: p.queue.pcs[i].Outside? || p.queue.pcs[i].Asleep()
    ensures p.queue.pcs[t].DeqAsleep? ==> p.queue.ring.size == 0
    ensures p.queue.pcs[t].EnqAsleep? ==> p.queue.ring.size == p.workers
  {
    if p.queue.holder.Some? {
      HolderCanGo(p.queue);
      assert false;
    }
    forall i | 0 <= i < |p.apps|
      ensures p.queue.pcs[i].Outside? || p.queue.pcs[i].Asleep()
    {
      assert !CanGo(p.queue, i);
    }
  }

  /** A worker that neither moves nor has exited waits on an empty queue. */
  lemma IdleWorker(p: Pool, i: nat)
    requires Inv(p.queue) && Roles(p) && i < p.workers
    requires forall t | 0 <= t < |p.apps| :: !CanTurn(p, t)
    ensures p.apps[i].Looping? ==> p.queue.pcs[i].DeqAsleep? && p.queue.ring.size == 0
    ensures p.queue.pcs[i].DeqAsleep? || p.queue.pcs[i] == Outside(None)
  {
    assert RoleOk(p, i) && !CanTurn(p, i);
    forall t | 0 <= t < |p.apps| ensures !CanGo(p.queue, t) { assert !CanTurn(p, t); }
    SleeperMeansFullOrEmpty(p, i);
  }

  /** There is a worker, or nothing to do. */
  predicate CanBeServed(workers: nat, scripts: seq<seq<Work>>) {
    0 < workers || forall s | s in scripts :: s == []
  }

  lemma NobodyAsleepOnFull(p: Pool, scripts: seq<seq<Work>>, t: nat)
    requires PoolInv(p, scripts) && ProperScripts(scripts) && t < |p.apps| && CanBeServed(p.workers, scripts)
    requires forall t | 0 <= t < |p.apps| :: !CanTurn(p, t)
    ensures !p.queue.pcs[t].EnqAsleep?
  {
    if p.queue.pcs[t].EnqAsleep? && p.workers == 0 {
      var w := p.queue.pcs[t].v;
      ScriptedMember(scripts, w);
      ExecutedIsWanted(p, scripts, w);
      TotalContains(AllToEnqueue(p, w), t);
      assert false;
    } else if p.queue.pcs[t].EnqAsleep? {
      forall i | 0 <= i < |p.apps| ensures !CanGo(p.queue, i) { assert !CanTurn(p, i); }
      SleeperMeansFullOrEmpty(p, t);
      assert RoleOk(p, t);
      WorkerLeft(p, scripts, if p.apps[p.Last()].BeforeShutdown? then p.Last() else t);
      var i :| 0 <= i < p.workers && p.apps[i].Looping?;
      IdleWorker(p, i);
    }
  }

  lemma SubmittersMustBeDone(p: Pool, scripts: seq<seq<Work>>)
    requires PoolInv(p, scripts)
    requires forall t | 0 <= t < |p.apps| :: !CanTurn(p, t) && !p.queue.pcs[t].EnqAsleep?
    ensures SubmittersDone(p)
    ensures p.queue.pcs[p.Last()] == Outside(None)
  {
    forall i | 0 <= i < |p.apps| ensures !CanGo(p.queue, i) { assert !CanTurn(p, i); }
    SleeperMeansFullOrEmpty(p, 0);
    forall i | p.workers <= i < |p.apps|
      ensures p.queue.pcs[i] == Outside(None) && (i < p.Last() ==> p.apps[i].Finished?)
    {
      assert RoleOk(p, i) && !CanTurn(p, i);
    }
  }

  /** All poison is out of the queue and in nobody's hand, so every worker has exited. */
  lemma AllExitedWhenJoining(p: Pool, scripts: seq<seq<Work>>)
    requires PoolInv(p, scripts) && ProperScripts(scripts) && p.apps[p.Last()].Joining? && p.queue.ring.size == 0
    requires forall i | 0 <= i < p.workers :: p.queue.pcs[i].DeqAsleep? || p.queue.pcs[i] == Outside(None)
    ensures forall i | 0 <= i < p.workers :: p.apps[i].Exited?
  {
    AllEnqueued(p, scripts, Poison);
    NothingInHand(p, Poison);
    NoTaskIsPoison(scripts);
    assert Account(p, Poison, Wanted(scripts, p.workers, Poison));
    assert p.queue.enqueued == p.queue.dequeued;
    AllExited(p);
  }

  /** With at least one worker, or nothing submitted, and whatever happened so far: until shutdown
      has returned, some thread can take its next step. */
  lemma NeverStuck(p: Pool, scripts: seq<seq<Work>>)
    requires PoolInv(p, scripts) && ProperScripts(scripts) && CanBeServed(p.workers, scripts) && !ShutdownReturned(p)
    ensures exists t :: 0 <= t < |p.apps| && CanTurn(p, t)
  {
    if forall t | 0 <= t < |p.apps| :: !CanTurn(p, t) {
      forall t | 0 <= t < |p.apps| ensures !p.queue.pcs[t].EnqAsleep? { NobodyAsleepOnFull(p, scripts, t); }
      SubmittersMustBeDone(p, scripts);
      var last := p.Last();
      assert RoleOk(p, last) && !CanTurn(p, last);
      var next := p.apps[last].next;
      assert next < p.workers && !p.apps[next].Exited? && RoleOk(p, next);
      forall i | 0 <= i < p.workers
        ensures p.queue.pcs[i].DeqAsleep? || p.queue.pcs[i] == Outside(None)
      {
        IdleWorker(p, i);
      }
      IdleWorker(p, next);
      AllExitedWhenJoining(p, scripts);
    }
  }

  // --- Shutdown terminates ------------------------------------------------------------------

  /** What one broadcast is worth: it can send every other thread back by four steps. */
  function Weight(p: Pool): nat { 5 * |p.apps| + 6 }

  function Rank(pc: PC<Work>, weight: nat): nat {
    match pc
    case Outside(r) => if r.Some? then 6 else 5
    case EnqWant(_) => 4
    case DeqWant => 4
    case EnqTest(_) => 3
    case DeqTest => 3
    case EnqDone => 2 + weight
    case DeqDone(_) => 2 + weight
    case EnqOwes => 1 + weight
    case DeqOwes(_) => 1 + weight
    case _ => 0
  }

  function AppRank(workers: nat, app: App): nat {
    match app
    case Submitting(_) => 1
    case BeforeShutdown => workers + 3
    case Poisoning(_) => workers + 2
    case Joining(next) => if next <= workers then workers + 1 - next else 1
    case _ => 0
  }

  /** How many values a thread has still to put into the queue. */
  function ItemsLeft(workers: nat, pc: PC<Work>, app: App): nat {
    One(pc.EnqWant? || pc.EnqTest? || pc.EnqAsleep?)
    + match app
      case Submitting(todo) => |todo|
      case BeforeShutdown => workers
      case Poisoning(left) => left
      case _ => 0
  }

  function Potential(workers: nat, weight: nat, pc: PC<Work>, app: App): nat {
    Rank(pc, weight) + AppRank(workers, app) + 2 * weight * ItemsLeft(workers, pc, app)
  }

  function Potentials(p: Pool): seq<nat>
    requires |p.apps| == |p.queue.pcs|
  {
    seq(|p.apps|, i requires 0 <= i < |p.apps| => Potential(p.workers, Weight(p), p.queue.pcs[i], p.apps[i]))
  }

  /** Each value still to be inserted stands for two broadcasts, each queued value for one, and a
      thread that owes a broadcast for that one. */
  function Measure(p: Pool): nat
    requires |p.apps| == |p.queue.pcs|
  {
    Total(Potentials(p)) + Weight(p) * p.queue.ring.size
  }

  /** How the stepping thread and the fill of the queue change the measure, without the others. */
  ghost predicate Progresses(workers: nat, w: nat, pc: PC<Work>, app: App, size: nat,
                             pc': PC<Work>, app': App, size': nat)
  {
    var d := Potential(workers, w, pc', app') + w * size' - Potential(workers, w, pc, app) - w * size;
    if pc.EnqOwes? || pc.DeqOwes? then d <= 5 - w else d < 0
  }

  lemma GoProgress(p: Pool, t: nat)
    requires p.queue.ring.Valid() && t < |p.apps| == |p.queue.pcs| && CanGo(p.queue, t)
    ensures var q, q' := p.queue, DoGo(p.queue, t);
      && |q'.pcs| == |q.pcs|
      && Progresses(p.workers, Weight(p), q.pcs[t], p.apps[t], q.ring.size, q'.pcs[t], p.apps[t], q'.ring.size)
  {
    var q, q', w := p.queue, DoGo(p.queue, t), Weight(p);
    var pc, pc', app := q.pcs[t], q'.pcs[t], p.apps[t];
    var n, n' := ItemsLeft(p.workers, pc, app), ItemsLeft(p.workers, pc', app);
    assert pc'.EnqDone? ==> n' == n - 1 && q'.ring.size == q.ring.size + 1;
    assert 2 * w * (n - 1) == 2 * w * n - 2 * w && w * (q.ring.size + 1) == w * q.ring.size + w;
    assert w * (q.ring.size - 1) == w * q.ring.size - w;
    assert !pc'.EnqDone? ==> n' == n || pc.EnqOwes?;
  }

  lemma ActProgress(p: Pool, t: nat)
    requires Roles(p) && Phases(p) && CanAct(p, t)
    ensures var p' := Act(p, t);
      && |p'.apps| == |p'.queue.pcs| == |p.apps| && p'.queue.ring == p.queue.ring
      && Progresses(p.workers, Weight(p), p.queue.pcs[t], p.apps[t], p.queue.ring.size,
                    p'.queue.pcs[t], p'.apps[t], p.queue.ring.size)
  {
    assert RoleOk(p, t);
    var p' := Act(p, t);
    assert ItemsLeft(p.workers, p'.queue.pcs[t], p'.apps[t]) == ItemsLeft(p.workers, p.queue.pcs[t], p.apps[t]);
  }

  lemma {:induction false} QuietStepMeasure(p: Pool, p': Pool, t: nat)
    requires t < |p.apps| == |p.queue.pcs| == |p'.queue.pcs| == |p'.apps| && p'.workers == p.workers
    requires forall i | 0 <= i < |p.apps| && i != t :: p'.queue.pcs[i] == p.queue.pcs[i] && p'.apps[i] == p.apps[i]
    ensures Measure(p') - Measure(p)
         == Potential(p.workers, Weight(p), p'.queue.pcs[t], p'.apps[t]) + Weight(p) * p'.queue.ring.size
          - Potential(p.workers, Weight(p), p.queue.pcs[t], p.apps[t]) - Weight(p) * p.queue.ring.size
  {
    var x := Potential(p.workers, Weight(p), p'.queue.pcs[t], p'.apps[t]);
    assert Potentials(p') == Potentials(p)[t := x];
    TotalUpdate(Potentials(p), t, x);
  }

  lemma WokenPotential(workers: nat, weight: nat, pc: PC<Work>, pc': PC<Work>, app: App)
    requires SameOrWoken(pc, pc')
    ensures Potential(workers, weight, pc', app) <= Potential(workers, weight, pc, app) + 4
  {
    assert ItemsLeft(workers, pc', app) == ItemsLeft(workers, pc, app);
  }

  lemma {:induction false} OthersPotentials(p: Pool, p': Pool, t: nat)
    requires OthersKept(p, p', t) && t < |p.apps| == |p.queue.pcs|
    ensures var x := Potential(p.workers, Weight(p), p'.queue.pcs[t], p'.apps[t]);
            Total(Potentials(p')) <= Total(Potentials(p)[t := x]) + 4 * |p.apps|
  {
    var s := Potentials(p)[t := Potential(p.workers, Weight(p), p'.queue.pcs[t], p'.apps[t])];
    forall i | 0 <= i < |s|
      ensures Potentials(p')[i] <= s[i] + 4
    {
      if i != t { WokenPotential(p.workers, Weight(p), p.queue.pcs[i], p'.queue.pcs[i], p.apps[i]); }
    }
    TotalGrowth(s, Potentials(p'), 4);
  }

  lemma {:induction false} BroadcastMeasure(p: Pool, p': Pool, t: nat)
    requires OthersKept(p, p', t) && t < |p.apps| == |p.queue.pcs| && p'.queue.ring.size == p.queue.ring.size
    requires Potential(p.workers, Weight(p), p'.queue.pcs[t], p'.apps[t])
          <= Potential(p.workers, Weight(p), p.queue.pcs[t], p.apps[t]) + 5 - Weight(p)
    ensures Measure(p') < Measure(p)
  {
    var x := Potential(p.workers, Weight(p), p'.queue.pcs[t], p'.apps[t]);
    OthersPotentials(p, p', t);
    TotalUpdate(Potentials(p), t, x);
  }

  lemma TurnDecreasesMeasure(p: Pool, scripts: seq<seq<Work>>, t: nat)
    requires PoolInv(p, scripts) && CanTurn(p, t)
    ensures var p' := Turn(p, t); |p'.apps| == |p'.queue.pcs| && Measure(p') < Measure(p)
  {
    var p' := Turn(p, t);
    TurnFrame(p, t);
    if CanGo(p.queue, t) {
      GoProgress(p, t);
      if p.queue.pcs[t].EnqOwes? || p.queue.pcs[t].DeqOwes? {
        BroadcastMeasure(p, p', t);
      } else {
        QuietStepMeasure(p, p', t);
      }
    } else {
      ActProgress(p, t);
      ActIsQuiet(p, t);
      QuietStepMeasure(p, p', t);
    }
  }

  lemma ActIsQuiet(p: Pool, t: nat)
    requires |p.apps| == |p.queue.pcs| && CanAct(p, t)
    ensures var p' := Act(p, t);
      && |p'.apps| == |p'.queue.pcs| == |p.apps| && p'.workers == p.workers
      && forall i | 0 <= i < |p.apps| && i != t :: p'.queue.pcs[i] == p.queue.pcs[i] && p'.apps[i] == p.apps[i]
  {}

  lemma WakeIncreasesMeasure(p: Pool, t: nat)
    requires Roles(p) && CanWake(p.queue, t)
    ensures var p' := Wake(p, t); |p'.apps| == |p'.queue.pcs| && Measure(p') <= Measure(p) + 4
  {
    var p' := Wake(p, t);
    QuietStepMeasure(p, p', t);
    WokenPotential(p.workers, Weight(p), p.queue.pcs[t], p'.queue.pcs[t], p.apps[t]);
  }

  // --- The theorems -------------------------------------------------------------------------

  /** How many steps threads took in a run, and how many wake-ups happened for no reason. */
  ghost function Turns(p: Pool, scripts: seq<seq<Work>>, run: seq<Choice>): nat
    requires PoolInv(p, scripts) && ProperScripts(scripts)
    decreases |run|
  {
    if run == [] then 0 else
      var k := |run| - 1;
      Turns(p, scripts, run[..k]) + One(run[k].Next? && Possible(Run(p, scripts, run[..k]), run[k]))
  }

  ghost function Wakeups(p: Pool, scripts: seq<seq<Work>>, run: seq<Choice>): nat
    requires PoolInv(p, scripts) && ProperScripts(scripts)
    decreases |run|
  {
    if run == [] then 0 else
      var k := |run| - 1;
      Wakeups(p, scripts, run[..k]) + One(run[k].Spurious? && Possible(Run(p, scripts, run[..k]), run[k]))
  }

  lemma {:induction false} RunIsBounded(p: Pool, scripts: seq<seq<Work>>, run: seq<Choice>)
    requires PoolInv(p, scripts) && ProperScripts(scripts)
    ensures Turns(p, scripts, run) + Measure(Run(p, scripts, run)) <= Measure(p) + 4 * Wakeups(p, scripts, run)
    decreases |run|
  {
    if run != [] {
      var k := |run| - 1;
      RunIsBounded(p, scripts, run[..k]);
      var last := Run(p, scripts, run[..k]);
      if Possible(last, run[k]) {
        match run[k]
        case Next(t) => TurnDecreasesMeasure(last, scripts, t);
        case Spurious(t) => WakeIncreasesMeasure(last, t);
      }
    }
  }

  lemma StepKeepsWorkers(p: Pool, c: Choice)
    requires p.queue.ring.Valid()
    ensures Step(p, c).workers == p.workers
  {}

  lemma {:induction false} WorkersAreFixed(p: Pool, scripts: seq<seq<Work>>, run: seq<Choice>)
    requires PoolInv(p, scripts) && ProperScripts(scripts)
    ensures Run(p, scripts, run).workers == p.workers
    decreases |run|
  {
    if run != [] {
      WorkersAreFixed(p, scripts, run[..|run| - 1]);
      StepKeepsWorkers(Run(p, scripts, run[..|run| - 1]), run[|run| - 1]);
    }
  }

  /** Whatever the schedule: the threads take a bounded number of steps, and when none is left to
      take, shutdown has returned, every thread has exited, the queue is empty, and every task has
      run exactly once and set its future. */
  lemma {:induction false} ShutdownIsComplete(scripts: seq<seq<Work>>, slots: seq<Work>, run: seq<Choice>)
    requires ProperScripts(scripts)
    requires CanBeServed(|slots|, scripts)
    ensures PoolInv(Start(scripts, slots), scripts)
    ensures var p := Run(Start(scripts, slots), scripts, run);
      && (ShutdownReturned(p) ==> Complete(p, scripts))
      && (!ShutdownReturned(p) ==> exists t :: 0 <= t < |p.apps| && CanTurn(p, t))
    ensures Turns(Start(scripts, slots), scripts, run)
         <= Measure(Start(scripts, slots)) + 4 * Wakeups(Start(scripts, slots), scripts, run)
  {
    StartInv(scripts, slots);
    var start := Start(scripts, slots);
    var p := Run(start, scripts, run);
    RunIsBounded(start, scripts, run);
    WorkersAreFixed(start, scripts, run);
    if ShutdownReturned(p) { ReturnedIsComplete(p, scripts); } else { NeverStuck(p, scripts); }
  }

  /** A pool without workers has a queue without slots: it returns from shutdown only if nothing
      was ever submitted, so the condition of ShutdownIsComplete is the exact one. */
  lemma {:induction false} NoWorkersNoReturn(scripts: seq<seq<Work>>, slots: seq<Work>, run: seq<Choice>)
    requires ProperScripts(scripts)
    ensures PoolInv(Start(scripts, slots), scripts)
    ensures ShutdownReturned(Run(Start(scripts, slots), scripts, run)) ==> CanBeServed(|slots|, scripts)
  {
    StartInv(scripts, slots);
    var p := Run(Start(scripts, slots), scripts, run);
    WorkersAreFixed(Start(scripts, slots), scripts, run);
    if ShutdownReturned(p) && p.workers == 0 {
      forall s | s in scripts
        ensures s == []
      {
        if s != [] {
          AllEnqueued(p, scripts, s[0]);
          ScriptedMember(scripts, s[0]);
          assert false;
        }
      }
    }
  }

  /** Single assignment: after any series of sets a future holds the value it was first given. */
  lemma {:induction false} FirstSetWins(futures: map<nat, int>, id: nat, first: int, later: seq<(nat, int)>)
    requires id !in futures
    ensures id in SetAll(SetFuture(futures, id, first), later)
    ensures SetAll(SetFuture(futures, id, first), later)[id] == first
  {
    SetAllKeeps(SetFuture(futures, id, first), later, id);
  }

  function SetAll(futures: map<nat, int>, sets: seq<(nat, int)>): map<nat, int>
    decreases |sets|
  {
    if sets == [] then futures else SetAll(SetFuture(futures, sets[0].0, sets[0].1), sets[1..])
  }

  lemma {:induction false} SetAllKeeps(futures: map<nat, int>, sets: seq<(nat, int)>, id: nat)
    requires id in futures
    ensures id in SetAll(futures, sets) && SetAll(futures, sets)[id] == futures[id]
    decreases |sets|
  {
    if sets != [] { SetAllKeeps(SetFuture(futures, sets[0].0, sets[0].1), sets[1..], id); }
  }
}
