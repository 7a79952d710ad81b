/**
  The bounded queue: a mutex-protected deque with one semaphore counting free slots and one counting
  queued elements, where the "no more elements" signal is an extra token that every consumer puts back.
  Any number of threads is modelled as a sequence of local states; a run interleaves their atomic steps
  (semaphore operations, the two halves of each critical section) arbitrarily.
 */
module BoundedQueue {

  /** Where a thread stands inside a queue operation. The states named Post hold the mutex. */
  datatype Local<+E> =
    | Idle
    | PushWait(e: E)  // before free_slots_.wait()
    | PushHold(e: E)  // past it, before the mutex
    | PushPost        // element appended, before queued_elems_.post()
    | PopWait         // before queued_elems_.wait()
    | PopHold         // past it, before the mutex
    | PopPost(e: E)   // element removed, before free_slots_.post()
    | EmptyPost       // found the deque empty, before queued_elems_.post()
    | Got(e: E)       // a pop returned e
    | NoMore          // a pop reported that there are no more elements
    | Nothing         // try_pop found no token

  datatype Queue<+E> = Queue(
    freeSlots: nat,
    queued: nat,
    elems: seq<E>,
    mutex: bool,
    threads: seq<Local<E>>,
    maxSize: nat,
    increments: nat,  // history: calls of increment_queue_size, one per slot
    signals: nat,     // history: calls of signal_no_more_elems
    pushed: seq<E>,   // history: elements in the order they entered the deque
    popped: seq<E>    // history: elements in the order they left it
  )

  datatype Action<+E> = BeginPush(e: E) | BeginPop | TryPop | Signal | Increment | Settle | Proceed

  function Init<E>(maxSize: nat, threads: nat): Queue<E> {
    Queue(maxSize, 0, [], false, seq(threads, _ => Idle), maxSize, 0, 0, [], [])
  }

  predicate AtRest<E>(l: Local<E>) { l.Idle? || l.Got? || l.NoMore? || l.Nothing? }

  predicate CanProceed<E>(q: Queue<E>, l: Local<E>) {
    match l
    case PushWait(_) => q.freeSlots > 0
    case PopWait => q.queued > 0
    case PushHold(_) | PopHold => !q.mutex
    case PushPost | PopPost(_) | EmptyPost => true
    case _ => false
  }

  predicate Enabled<E>(q: Queue<E>, t: nat, a: Action<E>) {
    && t < |q.threads|
    && if a.Proceed? then CanProceed(q, q.threads[t]) else AtRest(q.threads[t])
  }

  function Step<E>(q: Queue<E>, t: nat, a: Action<E>): Queue<E>
    requires Enabled(q, t, a)
  {
    match a
    case BeginPush(e) => q.(threads := q.threads[t := PushWait(e)])
    case BeginPop => q.(threads := q.threads[t := PopWait])
    case TryPop =>
      if q.queued > 0 then q.(queued := q.queued - 1, threads := q.threads[t := PopHold])
      else q.(threads := q.threads[t := Nothing])
    case Signal => q.(queued := q.queued + 1, signals := q.signals + 1)
    case Increment => q.(freeSlots := q.freeSlots + 1, increments := q.increments + 1)
    case Settle => q.(threads := q.threads[t := Idle])
    case Proceed => StepInside(q, t)
  }

  function StepInside<E>(q: Queue<E>, t: nat): Queue<E>
    requires t < |q.threads| && CanProceed(q, q.threads[t])
  {
    match q.threads[t]
    case PushWait(e) => q.(freeSlots := q.freeSlots - 1, threads := q.threads[t := PushHold(e)])
    case PushHold(e) =>
      q.(elems := q.elems + [e], mutex := true, pushed := q.pushed + [e], threads := q.threads[t := PushPost])
    case PushPost => q.(queued := q.queued + 1, mutex := false, threads := q.threads[t := Idle])
    case PopWait => q.(queued := q.queued - 1, threads := q.threads[t := PopHold])
    case PopHold =>
      if q.elems != [] then
        q.(elems := q.elems[1..], mutex := true, popped := q.popped + [q.elems[0]],
           threads := q.threads[t := PopPost(q.elems[0])])
      else q.(mutex := true, threads := q.threads[t := EmptyPost])
    case PopPost(e) => q.(freeSlots := q.freeSlots + 1, mutex := false, threads := q.threads[t := Got(e)])
    case EmptyPost => q.(queued := q.queued + 1, mutex := false, threads := q.threads[t := NoMore])
  }

  // ----- counting threads

  /** Threads that hold a queued-element token, or owe one. */
  function Token<E>(l: Local<E>): int { if l.PopHold? || l.EmptyPost? || l.PushPost? then 1 else 0 }

  /** Threads that hold a free-slot token, or owe one. */
  function Slot<E>(l: Local<E>): int { if l.PushHold? || l.PopPost? then 1 else 0 }

  function Holds<E>(l: Local<E>): int { if l.PushPost? || l.PopPost? || l.EmptyPost? then 1 else 0 }

  function Sum<E>(threads: seq<Local<E>>, w: Local<E> -> int): int {
    if threads == [] then 0 else w(threads[0]) + Sum(threads[1..], w)
  }

  lemma {:induction false} SumUpdate<E>(threads: seq<Local<E>>, w: Local<E> -> int, t: nat, l: Local<E>)
    requires t < |threads|
    ensures Sum(threads[t := l], w) == Sum(threads, w) - w(threads[t]) + w(l)
  {
    var after := threads[t := l];
    if t == 0 {
      assert after[1..] == threads[1..];
    } else {
      assert after[1..] == threads[1..][t - 1 := l];
      SumUpdate(threads[1..], w, t - 1, l);
    }
  }

  lemma {:induction false} SumOfIdle<E>(n: nat, w: Local<E> -> int)
    requires w(Idle) == 0
    ensures Sum(seq(n, _ => Idle), w) == 0
  {
    if n > 0 {
      var s: seq<Local<E>> := seq(n, _ => Idle);
      var rest: seq<Local<E>> := seq(n - 1, _ => Idle);
      assert s[1..] == rest;
      SumOfIdle<E>(n - 1, w);
    }
  }

  /** A positive sum has a contributing thread. */
  lemma {:induction false} Witness<E>(threads: seq<Local<E>>, w: Local<E> -> int) returns (t: nat)
    requires Sum(threads, w) > 0
    ensures t < |threads| && w(threads[t]) > 0
  {
    if w(threads[0]) > 0 {
      t := 0;
    } else {
      t := Witness(threads[1..], w);
      t := t + 1;
    }
  }

  lemma {:induction false} SumAtLeast<E>(threads: seq<Local<E>>, w: Local<E> -> int, t: nat)
    requires t < |threads| && forall i :: 0 <= i < |threads| ==> w(threads[i]) >= 0
    ensures Sum(threads, w) >= w(threads[t])
  {
    if |threads| > 1 {
      SumAtLeast(threads[1..], w, if t == 0 then 0 else t - 1);
    }
  }

  // ----- the invariant

  ghost predicate Inv<E>(q: Queue<E>) {
    && q.queued + Sum(q.threads, Token) == |q.elems| + q.signals
    && q.freeSlots + |q.elems| + Sum(q.threads, Slot) == q.maxSize + q.increments
    && Sum(q.threads, Holds) == (if q.mutex then 1 else 0)
    && q.pushed == q.popped + q.elems
  }

  /** What changing the state of thread t does to the three counts. */
  lemma CountsUpdate<E>(threads: seq<Local<E>>, t: nat, l: Local<E>)
    requires t < |threads|
    ensures Sum(threads[t := l], Token) == Sum(threads, Token) - Token(threads[t]) + Token(l)
    ensures Sum(threads[t := l], Slot) == Sum(threads, Slot) - Slot(threads[t]) + Slot(l)
    ensures Sum(threads[t := l], Holds) == Sum(threads, Holds) - Holds(threads[t]) + Holds(l)
    ensures Sum(threads, Holds) >= Holds(threads[t])
  {
    SumUpdate(threads, Token, t, l);
    SumUpdate(threads, Slot, t, l);
    SumUpdate(threads, Holds, t, l);
    SumAtLeast(threads, Holds, t);
  }

  lemma PushKeepsInv<E>(q: Queue<E>, t: nat)
    requires Inv(q) && t < |q.threads| && CanProceed(q, q.threads[t])
    requires var l := q.threads[t]; l.PushWait? || l.PushHold? || l.PushPost?
    ensures Inv(StepInside(q, t))
  {
    CountsUpdate(q.threads, t, StepInside(q, t).threads[t]);
  }

  lemma PopKeepsInv<E>(q: Queue<E>, t: nat)
    requires Inv(q) && t < |q.threads| && CanProceed(q, q.threads[t])
    requires var l := q.threads[t]; l.PopWait? || l.PopHold? || l.PopPost? || l.EmptyPost?
    ensures Inv(StepInside(q, t))
  {
    CountsUpdate(q.threads, t, StepInside(q, t).threads[t]);
    if q.elems != [] {
      assert q.elems == [q.elems[0]] + q.elems[1..];
    }
  }

  lemma StepKeepsInv<E>(q: Queue<E>, t: nat, a: Action<E>)
    requires Inv(q) && Enabled(q, t, a)
    ensures Inv(Step(q, t, a))
  {
    if a.Proceed? {
      var l := q.threads[t];
      if l.PushWait? || l.PushHold? || l.PushPost? {
        PushKeepsInv(q, t);
      } else {
        PopKeepsInv(q, t);
      }
    } else {
      CountsUpdate(q.threads, t, Step(q, t, a).threads[t]);
    }
  }

  /** A run of the queue: which thread took which action, oldest first. */
  predicate IsRun<E>(run: seq<(nat, Action<E>)>, maxSize: nat, n: nat)
    decreases |run|, 0
  {
    run == [] ||
    (var (before, (t, a)) := (run[..|run| - 1], run[|run| - 1]);
     IsRun(before, maxSize, n) && Enabled(After(before, maxSize, n), t, a))
  }

  function After<E>(run: seq<(nat, Action<E>)>, maxSize: nat, n: nat): Queue<E>
    requires IsRun(run, maxSize, n)
    decreases |run|, 1
  {
    if run == [] then Init(maxSize, n)
    else var (t, a) := run[|run| - 1]; Step(After(run[..|run| - 1], maxSize, n), t, a)
  }

  lemma InitInv<E>(maxSize: nat, n: nat)
    ensures Inv(Init<E>(maxSize, n))
  {
    SumOfIdle<E>(n, Token);
    SumOfIdle<E>(n, Slot);
    SumOfIdle<E>(n, Holds);
  }

  /** Both conservation laws hold in every state of every run. */
  lemma {:induction false} RunsKeepInv<E>(run: seq<(nat, Action<E>)>, maxSize: nat, n: nat)
    requires IsRun(run, maxSize, n)
    ensures Inv(After(run, maxSize, n))
    ensures After(run, maxSize, n).maxSize == maxSize && |After(run, maxSize, n).threads| == n
  {
    if run == [] {
      InitInv<E>(maxSize, n);
    } else {
      var before := run[..|run| - 1];
      var (t, a) := run[|run| - 1];
      RunsKeepInv(before, maxSize, n);
      StepKeepsInv(After(before, maxSize, n), t, a);
    }
  }

  lemma SlotsAreCounted<E>(threads: seq<Local<E>>)
    ensures Sum(threads, Slot) >= 0 && Sum(threads, Token) >= 0
  {
    if threads != [] {
      SlotsAreCounted(threads[1..]);
    }
  }

  /** The queue never exceeds its bound, and elements leave in exactly the order in which they entered. */
  lemma BoundedFifo<E>(run: seq<(nat, Action<E>)>, maxSize: nat, n: nat)
    requires IsRun(run, maxSize, n)
    ensures var q := After(run, maxSize, n);
            && |q.elems| <= maxSize + q.increments
            && q.freeSlots <= maxSize + q.increments
            && q.pushed == q.popped + q.elems
  {
    RunsKeepInv(run, maxSize, n);
    SlotsAreCounted(After(run, maxSize, n).threads);
  }

  /** A consumer is told "no more elements" only after a signal, and only when every element that ever
      entered the queue has left it. */
  lemma NoMoreMeansDone<E>(run: seq<(nat, Action<E>)>, maxSize: nat, n: nat, t: nat)
    requires IsRun(run, maxSize, n)
    requires var q := After(run, maxSize, n); Enabled(q, t, Proceed) && StepInside(q, t).threads[t] == EmptyPost
    ensures var q := After(run, maxSize, n); q.signals > 0 && q.popped == q.pushed
  {
    RunsKeepInv(run, maxSize, n);
    var q := After(run, maxSize, n);
    SumAtLeast(q.threads, Token, t);
  }

  /** Conversely, once signalled no consumer waits for ever: when no thread inside an operation can go
      on, no consumer is waiting. */
  lemma SignalledConsumersAdvance<E>(run: seq<(nat, Action<E>)>, maxSize: nat, n: nat)
    requires IsRun(run, maxSize, n)
    requires After(run, maxSize, n).signals > 0
    requires forall t :: !Enabled(After(run, maxSize, n), t, Proceed)
    ensures forall l :: l in After(run, maxSize, n).threads ==> !l.PopWait?
  {
    RunsKeepInv(run, maxSize, n);
    var q := After(run, maxSize, n);
    forall l | l in q.threads ensures !l.PopWait? {
      var t :| 0 <= t < |q.threads| && q.threads[t] == l;
      assert !Enabled(q, t, Proceed);
      if q.queued == 0 {
        var h := TokenHolderAdvances(q);
        assert Enabled(q, h, Proceed);
      }
    }
  }

  /** Someone who holds a token, or the thread in the critical section, can go on. */
  lemma TokenHolderAdvances<E>(q: Queue<E>) returns (t: nat)
    requires Inv(q) && q.queued == 0 && |q.elems| + q.signals > 0
    ensures t < |q.threads| && CanProceed(q, q.threads[t])
  {
    if q.mutex {
      t := Witness(q.threads, Holds);
    } else {
      t := Witness(q.threads, Token);
    }
  }
}
