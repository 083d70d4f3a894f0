/** The bounded work queue of kernel/parallel.hpp: its ring buffer, and the interleavings of any
    number of threads that enqueue and dequeue under one mutex and two condition variables. */
module Ring {

  /** The slot that lies `i` places after slot `head`, around the ring. */
  function Slot(head: nat, i: nat, max: nat): int {
    if head + i < max then head + i else head + i - max
  }

  lemma SlotIsModulo(head: nat, i: nat, max: nat)
    requires head < max && i <= max
    ensures Slot(head, i, max) == (head + i) % max < max
  {
    if max <= head + i { WrapsOnce(head + i - max, max); } else { WrapsNever(head + i, max); }
  }

  lemma WrapsOnce(x: nat, max: nat)
    requires x < max
    ensures (x + max) % max == x
  {
    assert (x + max) / max == 1;
  }

  lemma WrapsNever(x: nat, max: nat)
    requires x < max
    ensures x % max == x
  {
  }

  /** The fields of the queue: `size` values starting at slot `head`, the next free slot being `tail`. */
  datatype Ring<T> = Ring(max: nat, size: nat, tail: nat, head: nat, values: seq<T>) {

    ghost predicate Valid() {
      && |values| == max
      && size <= max
      && (if max == 0 then tail == 0 && head == 0 else tail < max && head < max && tail == Slot(head, size, max))
    }

    /** The queued values, oldest first. */
    ghost function Contents(): (s: seq<T>)
      requires Valid()
      ensures |s| == size
    {
      seq(size, i requires 0 <= i < size => values[Slot(head, i, max)])
    }

    /** The critical section of enqueue once there is room. */
    function Insert(v: T): Ring<T>
      requires size < max && tail < max == |values|
    {
      this.(values := values[tail := v], tail := (tail + 1) % max, size := size + 1)
    }

    /** The critical section of dequeue once there is a value. */
    function Remove(): Ring<T>
      requires 0 < size && 0 < max
    {
      this.(head := (head + 1) % max, size := size - 1)
    }
  }

  /** Inserting keeps the ring consistent and puts the value at the end of the queue. */
  lemma InsertAppends<T>(r: Ring<T>, v: T)
    requires r.Valid() && r.size < r.max
    ensures r.Insert(v).Valid()
    ensures r.Insert(v).Contents() == r.Contents() + [v]
  {
    SlotIsModulo(r.tail, 1, r.max);
  }

  /** Removing keeps the ring consistent and takes the value at the front of the queue. */
  lemma RemoveTakesFirst<T>(r: Ring<T>)
    requires r.Valid() && 0 < r.size
    ensures r.Remove().Valid()
    ensures r.Contents() == [r.values[r.head]] + r.Remove().Contents()
  {
    SlotIsModulo(r.head, 1, r.max);
  }

  /** The queue object. Its two methods are what enqueue and dequeue do between leaving their
      wait loop and unlocking the mutex; waiting itself is part of the interleavings below. */
  class WQueue<T(0)> {
    const max: nat
    var size: nat
    var tail: nat
    var head: nat
    const values: array<T>

    ghost function AsRing(): Ring<T>
      reads this, values
    {
      Ring(max, size, tail, head, values[..])
    }

    ghost predicate Valid()
      reads this, values
    {
      AsRing().Valid()
    }

    constructor (max: nat)
      ensures Valid() && fresh(values)
      ensures this.max == max && AsRing().Contents() == []
    {
      this.max := max;
      size, tail, head := 0, 0, 0;
      values := new T[max];
    }

    method Enqueue(v: T)
      requires Valid() && size < max
      modifies this, values
      ensures Valid()
      ensures AsRing() == old(AsRing()).Insert(v)
      ensures AsRing().Contents() == old(AsRing().Contents()) + [v]
    {
      ghost var before := AsRing();
      values[tail] := v;
      tail := (tail + 1) % max;
      size := size + 1;
      InsertAppends(before, v);
    }

    method Dequeue() returns (v: T)
      requires Valid() && 0 < size
      modifies this
      ensures Valid()
      ensures AsRing() == old(AsRing()).Remove()
      ensures old(AsRing().Contents()) == [v] + AsRing().Contents()
    {
      ghost var before := AsRing();
      v := values[head];
      head := (head + 1) % max;
      size := size - 1;
      RemoveTakesFirst(before);
    }
  }
}

/** Every interleaving of the queue operations, one step at a time. The broadcasts come after the
    unlock, and a waiting thread may also wake up for no reason, as POSIX allows. */
module WorkQueue {
  import opened Options
  import opened Ring

  /** Where a thread stands. */
  datatype PC<T> =
    | Outside(result: Option<T>)  // not in a queue operation; the value its last dequeue returned
    | EnqWant(v: T)               // about to lock the mutex, or woken up and about to relock it
    | EnqTest(v: T)               // holds the mutex, about to test size == max
    | EnqAsleep(v: T)             // waits on the condition `full`
    | EnqDone                     // holds the mutex, value inserted
    | EnqOwes                     // unlocked, has yet to broadcast on `empty`
    | DeqWant
    | DeqTest
    | DeqAsleep                   // waits on the condition `empty`
    | DeqDone(v: T)
    | DeqOwes(v: T)               // unlocked, has yet to broadcast on `full`
  {
    predicate Holds() { EnqTest? || EnqDone? || DeqTest? || DeqDone? }
    predicate OwesEmpty() { EnqDone? || EnqOwes? }
    predicate OwesFull() { DeqDone? || DeqOwes? }
    predicate Asleep() { EnqAsleep? || DeqAsleep? }
  }

  /** The queue, who holds its mutex, where every thread stands, and the values that went in and out. */
  datatype Queue<T> = Queue(ring: Ring<T>, holder: Option<nat>, pcs: seq<PC<T>>, enqueued: seq<T>, dequeued: seq<T>)

  datatype Operation<T> = Enqueue(v: T) | Dequeue

  /** A scheduling choice: let a thread do its next step, start an operation, or wake up spuriously. */
  datatype Event<T> = Go(t: nat) | Start(t: nat, op: Operation<T>) | Spurious(t: nat)

  function Initial<T>(values: seq<T>, threads: nat): Queue<T> {
    Queue(Ring(|values|, 0, 0, 0, values), None, seq(threads, i => Outside(None)), [], [])
  }

  // --- Steps --------------------------------------------------------------------------------

  predicate CanGo<T>(q: Queue<T>, t: nat) {
    t < |q.pcs| &&
    match q.pcs[t]
    case Outside(_) => false
    case EnqAsleep(_) => false
    case DeqAsleep => false
    case EnqWant(_) => q.holder.None?
    case DeqWant => q.holder.None?
    case _ => true
  }

  /** A broadcast on `empty` sends every thread that waits on it back to the mutex. */
  function WakeEmpty<T>(pcs: seq<PC<T>>): (r: seq<PC<T>>)
    ensures |r| == |pcs|
  {
    seq(|pcs|, i requires 0 <= i < |pcs| => if pcs[i].DeqAsleep? then DeqWant else pcs[i])
  }

  function WakeFull<T>(pcs: seq<PC<T>>): (r: seq<PC<T>>)
    ensures |r| == |pcs|
  {
    seq(|pcs|, i requires 0 <= i < |pcs| => if pcs[i].EnqAsleep? then EnqWant(pcs[i].v) else pcs[i])
  }

  function DoGo<T>(q: Queue<T>, t: nat): Queue<T>
    requires q.ring.Valid() && CanGo(q, t)
  {
    match q.pcs[t]
    case EnqWant(v) => q.(holder := Some(t), pcs := q.pcs[t := EnqTest(v)])
    case EnqTest(v) =>
      if q.ring.size == q.ring.max
      then q.(holder := None, pcs := q.pcs[t := EnqAsleep(v)])
      else q.(ring := q.ring.Insert(v), enqueued := q.enqueued + [v], pcs := q.pcs[t := EnqDone])
    case EnqDone => q.(holder := None, pcs := q.pcs[t := EnqOwes])
    case EnqOwes => q.(pcs := WakeEmpty(q.pcs)[t := Outside(None)])
    case DeqWant => q.(holder := Some(t), pcs := q.pcs[t := DeqTest])
    case DeqTest =>
      if q.ring.size == 0
      then q.(holder := None, pcs := q.pcs[t := DeqAsleep])
      else
        var v := q.ring.values[q.ring.head];
        q.(ring := q.ring.Remove(), dequeued := q.dequeued + [v], pcs := q.pcs[t := DeqDone(v)])
    case DeqDone(v) => q.(holder := None, pcs := q.pcs[t := DeqOwes(v)])
    case DeqOwes(v) => q.(pcs := WakeFull(q.pcs)[t := Outside(Some(v))])
  }

  /** The moves of the stepping thread: it inserts a value, takes one, or changes neither log. */
  predicate Moves<T(==)>(pc: PC<T>, pc': PC<T>, e: seq<T>, e': seq<T>, d: seq<T>, d': seq<T>) {
    match pc
    case EnqWant(v) => pc' == EnqTest(v) && e' == e && d' == d
    case EnqTest(v) => d' == d && ((pc' == EnqAsleep(v) && e' == e) || (pc' == EnqDone && e' == e + [v]))
    case EnqDone => pc' == EnqOwes && e' == e && d' == d
    case EnqOwes => pc' == Outside(None) && e' == e && d' == d
    case DeqWant => pc' == DeqTest && e' == e && d' == d
    case DeqTest => e' == e && ((pc' == DeqAsleep && d' == d) || (pc'.DeqDone? && d' == d + [pc'.v]))
    case DeqDone(v) => pc' == DeqOwes(v) && e' == e && d' == d
    case DeqOwes(v) => pc' == Outside(Some(v)) && e' == e && d' == d
    case _ => false
  }

  lemma GoMoves<T>(q: Queue<T>, t: nat)
    requires q.ring.Valid() && CanGo(q, t)
    ensures var q' := DoGo(q, t);
      |q'.pcs| == |q.pcs| && Moves(q.pcs[t], q'.pcs[t], q.enqueued, q'.enqueued, q.dequeued, q'.dequeued)
  {}

  predicate CanStart<T>(q: Queue<T>, t: nat) { t < |q.pcs| && q.pcs[t].Outside? }

  function DoStart<T>(q: Queue<T>, t: nat, op: Operation<T>): Queue<T>
    requires CanStart(q, t)
  {
    q.(pcs := q.pcs[t := match op case Enqueue(v) => EnqWant(v) case Dequeue => DeqWant])
  }

  predicate CanWake<T>(q: Queue<T>, t: nat) { t < |q.pcs| && q.pcs[t].Asleep() }

  function DoWake<T>(q: Queue<T>, t: nat): Queue<T>
    requires CanWake(q, t)
  {
    q.(pcs := q.pcs[t := if q.pcs[t].DeqAsleep? then DeqWant else EnqWant(q.pcs[t].v)])
  }

  predicate Possible<T>(q: Queue<T>, e: Event<T>) {
    match e
    case Go(t) => CanGo(q, t)
    case Start(t, _) => CanStart(q, t)
    case Spurious(t) => CanWake(q, t)
  }

  /** One step of the whole system; an event that is not possible leaves it as it is. */
  function Step<T>(q: Queue<T>, e: Event<T>): Queue<T>
    requires q.ring.Valid()
  {
    if !Possible(q, e) then q else
    match e
    case Go(t) => DoGo(q, t)
    case Start(t, op) => DoStart(q, t, op)
    case Spurious(t) => DoWake(q, t)
  }

  // --- The invariant ------------------------------------------------------------------------

  /** The mutex is held by exactly the thread that is recorded as its holder. */
  ghost predicate OneHolder<T>(q: Queue<T>) {
    forall t | 0 <= t < |q.pcs| :: q.pcs[t].Holds() <==> q.holder == Some(t)
  }

  ghost predicate SomeoneOwesEmpty<T>(q: Queue<T>) {
    exists o :: 0 <= o < |q.pcs| && q.pcs[o].OwesEmpty()
  }

  ghost predicate SomeoneOwesFull<T>(q: Queue<T>) {
    exists o :: 0 <= o < |q.pcs| && q.pcs[o].OwesFull()
  }

  /** A thread sleeps although it could go on only while somebody still owes it a broadcast. */
  ghost predicate NoLostWakeup<T>(q: Queue<T>) {
    && (forall t | 0 <= t < |q.pcs| && q.pcs[t].DeqAsleep? :: q.ring.size == 0 || SomeoneOwesEmpty(q))
    && (forall t | 0 <= t < |q.pcs| && q.pcs[t].EnqAsleep? :: q.ring.size == q.ring.max || SomeoneOwesFull(q))
  }

  /** First in, first out: what came out, followed by what is queued, is what went in. */
  ghost predicate Fifo<T>(q: Queue<T>)
    requires q.ring.Valid()
  {
    q.enqueued == q.dequeued + q.ring.Contents()
  }

  ghost predicate Inv<T>(q: Queue<T>) {
    && q.ring.Valid()
    && (q.holder.Some? ==> q.holder.value < |q.pcs|)
    && OneHolder(q)
    && NoLostWakeup(q)
    && Fifo(q)
    && (q.ring.max == 0 ==> q.enqueued == [])
  }

  lemma InitialInv<T>(values: seq<T>, threads: nat)
    ensures Inv(Initial(values, threads))
  {
    var q := Initial(values, threads);
    assert q.ring.Contents() == [];
  }

  lemma GoKeepsInv<T>(q: Queue<T>, t: nat)
    requires Inv(q) && CanGo(q, t)
    ensures Inv(DoGo(q, t))
  {
    var q' := DoGo(q, t);
    GoKeepsFifo(q, t);
    GoKeepsHolder(q, t);
    GoKeepsWakeups(q, t);
  }

  lemma GoKeepsFifo<T>(q: Queue<T>, t: nat)
    requires Inv(q) && CanGo(q, t)
    ensures var q' := DoGo(q, t); q'.ring.Valid() && Fifo(q') && (q'.ring.max == 0 ==> q'.enqueued == [])
  {
    match q.pcs[t]
    case EnqTest(v) => if q.ring.size < q.ring.max { InsertAppends(q.ring, v); }
    case DeqTest => if 0 < q.ring.size { RemoveTakesFirst(q.ring); }
    case _ =>
  }

  lemma GoKeepsHolder<T>(q: Queue<T>, t: nat)
    requires Inv(q) && CanGo(q, t)
    ensures var q' := DoGo(q, t); OneHolder(q') && (q'.holder.Some? ==> q'.holder.value < |q'.pcs|)
  {
    assert q.pcs[t].Holds() <==> q.holder == Some(t);
  }

  /** Only the broadcast itself settles a debt. */
  lemma GoKeepsDebts<T>(q: Queue<T>, t: nat)
    requires Inv(q) && CanGo(q, t)
    ensures !q.pcs[t].EnqOwes? && SomeoneOwesEmpty(q) ==> SomeoneOwesEmpty(DoGo(q, t))
    ensures !q.pcs[t].DeqOwes? && SomeoneOwesFull(q) ==> SomeoneOwesFull(DoGo(q, t))
  {
    var q' := DoGo(q, t);
    if !q.pcs[t].EnqOwes? && SomeoneOwesEmpty(q) {
      var o :| 0 <= o < |q.pcs| && q.pcs[o].OwesEmpty();
      assert q'.pcs[o].OwesEmpty();
    }
    if !q.pcs[t].DeqOwes? && SomeoneOwesFull(q) {
      var o :| 0 <= o < |q.pcs| && q.pcs[o].OwesFull();
      assert q'.pcs[o].OwesFull();
    }
  }

  lemma GoKeepsWakeups<T>(q: Queue<T>, t: nat)
    requires Inv(q) && CanGo(q, t)
    ensures NoLostWakeup(DoGo(q, t))
  {
    var q' := DoGo(q, t);
    GoKeepsDebts(q, t);
    if q'.pcs[t].OwesEmpty() { assert SomeoneOwesEmpty(q'); }
    if q'.pcs[t].OwesFull() { assert SomeoneOwesFull(q'); }
  }

  lemma StartKeepsInv<T>(q: Queue<T>, t: nat, op: Operation<T>)
    requires Inv(q) && CanStart(q, t)
    ensures Inv(DoStart(q, t, op))
  {
    KeepsDebts(q, DoStart(q, t, op), t);
  }

  lemma WakeKeepsInv<T>(q: Queue<T>, t: nat)
    requires Inv(q) && CanWake(q, t)
    ensures Inv(DoWake(q, t))
  {
    KeepsDebts(q, DoWake(q, t), t);
  }

  /** A step of a thread that owes nothing leaves every owed broadcast owed. */
  lemma KeepsDebts<T>(q: Queue<T>, q': Queue<T>, t: nat)
    requires |q.pcs| == |q'.pcs| && t < |q.pcs| && !q.pcs[t].OwesEmpty() && !q.pcs[t].OwesFull()
    requires forall i | 0 <= i < |q.pcs| && i != t :: q'.pcs[i] == q.pcs[i]
    ensures SomeoneOwesEmpty(q) ==> SomeoneOwesEmpty(q')
    ensures SomeoneOwesFull(q) ==> SomeoneOwesFull(q')
  {
    if SomeoneOwesEmpty(q) {
      var o :| 0 <= o < |q.pcs| && q.pcs[o].OwesEmpty();
      assert q'.pcs[o].OwesEmpty();
    }
    if SomeoneOwesFull(q) {
      var o :| 0 <= o < |q.pcs| && q.pcs[o].OwesFull();
      assert q'.pcs[o].OwesFull();
    }
  }

  lemma StepKeepsInv<T>(q: Queue<T>, e: Event<T>)
    requires Inv(q)
    ensures Inv(Step(q, e))
  {
    if Possible(q, e) {
      match e
      case Go(t) => GoKeepsInv(q, t);
      case Start(t, op) => StartKeepsInv(q, t, op);
      case Spurious(t) => WakeKeepsInv(q, t);
    }
  }

  // --- Whole runs ---------------------------------------------------------------------------

  /** The state after a run: the ring stays consistent, so every step is defined. */
  ghost function Run<T>(q: Queue<T>, run: seq<Event<T>>): (r: Queue<T>)
    requires Inv(q)
    ensures Inv(r)
    decreases |run|
  {
    if run == [] then q else
      var last := Run(q, run[..|run| - 1]);
      StepKeepsInv(last, run[|run| - 1]);
      Step(last, run[|run| - 1])
  }

  /** What each step does to the abstract bounded queue: append, take the first, or nothing. */
  lemma StepRefinesBoundedQueue<T>(q: Queue<T>, e: Event<T>)
    requires Inv(q)
    ensures Inv(Step(q, e)) && Step(q, e).ring.max == q.ring.max
    ensures var q', a, a' := Step(q, e), q.ring.Contents(), Step(q, e).ring.Contents();
      || (a' == a && q'.enqueued == q.enqueued && q'.dequeued == q.dequeued)
      || (exists v :: |a| < q.ring.max && a' == a + [v] && q'.enqueued == q.enqueued + [v] && q'.dequeued == q.dequeued)
      || (a != [] && a' == a[1..] && q'.enqueued == q.enqueued && q'.dequeued == q.dequeued + [a[0]])
  {
    StepKeepsInv(q, e);
    if Possible(q, e) && e.Go? {
      match q.pcs[e.t]
      case EnqTest(v) => if q.ring.size < q.ring.max { InsertAppends(q.ring, v); }
      case DeqTest => if 0 < q.ring.size { RemoveTakesFirst(q.ring); }
      case _ =>
    }
  }

  /** A bounded first in first out queue laid out in a ring. */
  ghost predicate BoundedFifo<T>(q: Queue<T>) {
    && q.ring.Valid()
    && q.ring.size <= q.ring.max
    && (0 < q.ring.max ==> q.ring.tail == (q.ring.head + q.ring.size) % q.ring.max)
    && q.dequeued <= q.enqueued
    && q.enqueued[|q.dequeued|..] == q.ring.Contents()
  }

  lemma InvIsBoundedFifo<T>(q: Queue<T>)
    requires Inv(q)
    ensures BoundedFifo(q)
  {
    if 0 < q.ring.max { SlotIsModulo(q.ring.head, q.ring.size, q.ring.max); }
  }

  /** Over every run of any number of threads the queue is bounded, consistent and first in first out. */
  lemma {:induction false} EveryRunIsFifo<T>(values: seq<T>, threads: nat, run: seq<Event<T>>)
    ensures Inv(Initial(values, threads)) && BoundedFifo(Run(Initial(values, threads), run))
  {
    InitialInv(values, threads);
    InvIsBoundedFifo(Run(Initial(values, threads), run));
  }

  /** Mutual exclusion: no two threads are ever in the critical section together. */
  lemma {:induction false} MutualExclusion<T>(values: seq<T>, threads: nat, run: seq<Event<T>>, t: nat, u: nat)
    ensures Inv(Initial(values, threads))
    ensures var q := Run(Initial(values, threads), run);
      t < |q.pcs| && u < |q.pcs| && q.pcs[t].Holds() && q.pcs[u].Holds() ==> t == u
  {
    InitialInv(values, threads);
  }

  /** In every run, a thread that sleeps on a condition that holds is owed a broadcast, and when the
      mutex is free the thread that owes it has already unlocked. */
  lemma {:induction false} NoRunLosesAWakeup<T>(values: seq<T>, threads: nat, run: seq<Event<T>>, t: nat)
    ensures Inv(Initial(values, threads))
    ensures var q := Run(Initial(values, threads), run);
      t < |q.pcs| && q.holder.None? ==>
        && (q.pcs[t].DeqAsleep? && 0 < q.ring.size ==> exists o :: 0 <= o < |q.pcs| && q.pcs[o].EnqOwes?)
        && (q.pcs[t].EnqAsleep? && q.ring.size < q.ring.max ==> exists o :: 0 <= o < |q.pcs| && q.pcs[o].DeqOwes?)
  {
    InitialInv(values, threads);
    var q := Run(Initial(values, threads), run);
    assert forall o | 0 <= o < |q.pcs| :: q.pcs[o].Holds() <==> q.holder == Some(o);
  }

  /** With a slot in the queue, a producer and a consumer asleep on opposite conditions means that some
      thread still owes a broadcast, and can go on. */
  lemma {:induction false} NeverAllAsleep<T>(values: seq<T>, threads: nat, run: seq<Event<T>>, p: nat, c: nat)
    requires values != []
    ensures Inv(Initial(values, threads))
    ensures var q := Run(Initial(values, threads), run);
      p < |q.pcs| && c < |q.pcs| && q.pcs[p].EnqAsleep? && q.pcs[c].DeqAsleep? ==>
        exists t :: 0 <= t < |q.pcs| && (q.pcs[t].OwesEmpty() || q.pcs[t].OwesFull()) && CanGo(q, t)
  {
    InitialInv(values, threads);
    var q := Run(Initial(values, threads), run);
    MaxIsFixed(Initial(values, threads), run);
    if p < |q.pcs| && c < |q.pcs| && q.pcs[p].EnqAsleep? && q.pcs[c].DeqAsleep? {
      if q.ring.size == 0 {
        var o :| 0 <= o < |q.pcs| && q.pcs[o].OwesFull();
        assert CanGo(q, o);
      } else {
        var o :| 0 <= o < |q.pcs| && q.pcs[o].OwesEmpty();
        assert CanGo(q, o);
      }
    }
  }

  lemma StepKeepsSizes<T>(q: Queue<T>, e: Event<T>)
    requires q.ring.Valid()
    ensures Step(q, e).ring.max == q.ring.max && |Step(q, e).pcs| == |q.pcs|
  {}

  lemma {:induction false} MaxIsFixed<T>(q: Queue<T>, run: seq<Event<T>>)
    requires Inv(q)
    ensures Run(q, run).ring.max == q.ring.max && |Run(q, run).pcs| == |q.pcs|
    decreases |run|
  {
    if run != [] {
      MaxIsFixed(q, run[..|run| - 1]);
      StepKeepsSizes(Run(q, run[..|run| - 1]), run[|run| - 1]);
    }
  }
}
