/**
  The job processor: one thread produces jobs into a bounded queue, signals the end and then works like
  the other threads, each of which fetches and processes jobs until it is told there are no more.
 */
module JobProcessor {
  import opened BoundedQueue

  /** Thread 0 is the thread that called run(); it produces first and becomes a worker afterwards. */
  datatype Pool<+J> = Pool(
    q: Queue<J>,
    producing: bool,
    produced: seq<J>,   // history: jobs passed to add_job
    processed: seq<J>   // history: jobs passed to process_job
  )

  datatype Event<+J> = Produce(job: J) | Finish | Fetch(t: nat) | Advance(t: nat) | Process(t: nat)

  /** workers_no is at least 1, so there are at least two threads. */
  function Start<J>(workers: nat, maxSize: nat): Pool<J> {
    Pool(Init(maxSize, workers + 1), true, [], [])
  }

  predicate Possible<J>(p: Pool<J>, e: Event<J>) {
    match e
    case Produce(_) | Finish => p.producing && 0 < |p.q.threads| && p.q.threads[0].Idle?
    case Fetch(t) => t < |p.q.threads| && p.q.threads[t].Idle? && (t > 0 || !p.producing)
    case Advance(t) => Enabled(p.q, t, Proceed)
    case Process(t) => t < |p.q.threads| && p.q.threads[t].Got?
  }

  function Next<J>(p: Pool<J>, e: Event<J>): Pool<J>
    requires Possible(p, e)
  {
    match e
    case Produce(job) => p.(q := Step(p.q, 0, BeginPush(job)), produced := p.produced + [job])
    case Finish => p.(q := Step(p.q, 0, Signal), producing := false)
    case Fetch(t) => p.(q := Step(p.q, t, BeginPop))
    case Advance(t) => p.(q := Step(p.q, t, Proceed))
    case Process(t) => p.(q := Step(p.q, t, Settle), processed := p.processed + [p.q.threads[t].e])
  }

  predicate IsRun<J>(run: seq<Event<J>>, workers: nat, maxSize: nat)
    decreases |run|, 0
  {
    run == [] || (IsRun(run[..|run| - 1], workers, maxSize)
                  && Possible(After(run[..|run| - 1], workers, maxSize), run[|run| - 1]))
  }

  function After<J>(run: seq<Event<J>>, workers: nat, maxSize: nat): Pool<J>
    requires IsRun(run, workers, maxSize)
    decreases |run|, 1
  {
    if run == [] then Start(workers, maxSize)
    else Next(After(run[..|run| - 1], workers, maxSize), run[|run| - 1])
  }

  // ----- jobs in the hands of threads

  /** How often the job x is in the hands of the threads. */
  ghost function Held<J>(threads: seq<Local<J>>, x: J): nat {
    if threads == [] then 0 else HeldBy(threads[0], x) + Held(threads[1..], x)
  }

  ghost function HeldBy<J>(l: Local<J>, x: J): nat {
    if (l.PopPost? || l.Got?) && l.e == x then 1 else 0
  }

  lemma {:induction false} HeldUpdate<J>(threads: seq<Local<J>>, t: nat, l: Local<J>, x: J)
    requires t < |threads|
    ensures Held(threads[t := l], x) == Held(threads, x) - HeldBy(threads[t], x) + HeldBy(l, x)
  {
    var after := threads[t := l];
    if t == 0 {
      assert after[1..] == threads[1..];
    } else {
      assert after[1..] == threads[1..][t - 1 := l];
      HeldUpdate(threads[1..], t - 1, l, x);
    }
  }

  lemma {:induction false} NothingHeld<J>(threads: seq<Local<J>>, x: J)
    requires forall t :: 0 <= t < |threads| ==> threads[t].Idle? || threads[t].NoMore?
    ensures Held(threads, x) == 0
  {
    if threads != [] {
      NothingHeld(threads[1..], x);
    }
  }

  // ----- the invariant

  predicate RoleOk<J>(producer: bool, l: Local<J>) {
    if producer then l.Idle? || l.PushWait? || l.PushHold? || l.PushPost?
    else l.Idle? || l.PopWait? || l.PopHold? || l.PopPost? || l.EmptyPost? || l.Got? || l.NoMore?
  }

  function Pending<J>(l: Local<J>): seq<J> {
    if l.PushWait? || l.PushHold? then [l.e] else []
  }

  ghost predicate Roles<J>(p: Pool<J>) {
    forall t {:trigger p.q.threads[t]} :: 0 <= t < |p.q.threads| ==>
      && RoleOk(t == 0 && p.producing, p.q.threads[t])
      && (p.q.threads[t].EmptyPost? || p.q.threads[t].NoMore? ==> !p.producing && p.q.elems == [])
  }

  ghost predicate PoolInv<J>(p: Pool<J>) {
    && Inv(p.q) && p.q.maxSize > 0 && |p.q.threads| >= 2
    && p.q.signals == (if p.producing then 0 else 1)
    && Roles(p)
    && p.produced == p.q.pushed + Pending(p.q.threads[0])
  }

  /** Every copy of x that left the queue is processed or in the hands of exactly one thread. */
  ghost predicate Conserved<J>(p: Pool<J>, x: J) {
    multiset(p.q.popped)[x] == multiset(p.processed)[x] + Held(p.q.threads, x)
  }

  /** An empty-handed consumer inside the critical section means that the end was signalled. */
  lemma EmptyMeansSignalled<J>(q: Queue<J>, t: nat)
    requires Inv(q) && t < |q.threads| && q.threads[t].PopHold? && q.elems == []
    ensures q.signals > 0
  {
    SumAtLeast(q.threads, Token, t);
  }

  /** The thread whose state an event changes. */
  function Actor<J>(e: Event<J>): nat { if e.Produce? || e.Finish? then 0 else e.t }

  /** How one event changes the histories and the threads. */
  lemma NextEffect<J>(p: Pool<J>, e: Event<J>)
    requires Possible(p, e)
    ensures var t, n := Actor(e), Next(p, e);
            && n.q.threads == p.q.threads[t := n.q.threads[t]]
            && n.processed == p.processed + (if e.Process? then [p.q.threads[t].e] else [])
            && n.q.popped == p.q.popped + Taken(p.q.threads[t], n.q.threads[t])
            && n.q.pushed == p.q.pushed + Given(p.q.threads[t], n.q.threads[t])
  {
  }

  function Taken<J>(before: Local<J>, now: Local<J>): seq<J> {
    if before.PopHold? && now.PopPost? then [now.e] else []
  }

  function Given<J>(before: Local<J>, now: Local<J>): seq<J> {
    if before.PushHold? then [before.e] else []
  }

  /** Which local states an event can connect. */
  ghost predicate Connects<J>(e: Event<J>, a: Local<J>, b: Local<J>) {
    match e
    case Produce(job) => a.Idle? && b == PushWait(job)
    case Finish => a.Idle? && b.Idle?
    case Fetch(_) => a.Idle? && b.PopWait?
    case Process(_) => a.Got? && b.Idle?
    case Advance(_) =>
      match a {
        case PushWait(j) => b == PushHold(j)
        case PushHold(_) => b.PushPost?
        case PushPost => b.Idle?
        case PopWait => b.PopHold?
        case PopHold => b.PopPost? || b.EmptyPost?
        case PopPost(j) => b == Got(j)
        case EmptyPost => b.NoMore?
        case _ => false
      }
  }

  lemma NextConnects<J>(p: Pool<J>, e: Event<J>)
    requires Possible(p, e)
    ensures Actor(e) < |p.q.threads| == |Next(p, e).q.threads|
    ensures Connects(e, p.q.threads[Actor(e)], Next(p, e).q.threads[Actor(e)])
  {
  }

  /** Each local step moves a job between the three places it can be in. */
  lemma LocalConserves<J>(e: Event<J>, a: Local<J>, b: Local<J>, x: J)
    requires Connects(e, a, b)
    ensures multiset(Taken(a, b))[x] + HeldBy(a, x) ==
            HeldBy(b, x) + multiset(if e.Process? then [a.e] else [])[x]
  {
  }

  lemma NextConserves<J>(p: Pool<J>, e: Event<J>, x: J)
    requires Conserved(p, x) && Possible(p, e)
    ensures Conserved(Next(p, e), x)
  {
    hide Next, Possible, Held, HeldBy, Taken, Connects;
    NextConnects(p, e);
    NextEffect(p, e);
    var a, b := p.q.threads[Actor(e)], Next(p, e).q.threads[Actor(e)];
    LocalConserves(e, a, b, x);
    HeldUpdate(p.q.threads, Actor(e), b, x);
  }

  lemma NextKeepsRoles<J>(p: Pool<J>, e: Event<J>)
    requires Inv(p.q) && Roles(p) && p.q.signals == (if p.producing then 0 else 1) && Possible(p, e)
    ensures Roles(Next(p, e))
  {
    var t, n := Actor(e), Next(p, e);
    assert forall u :: 0 <= u < |p.q.threads| && u != t ==> n.q.threads[u] == p.q.threads[u];
    assert RoleOk(t == 0 && n.producing, n.q.threads[t]);
    if e.Advance? && p.q.threads[t].PopHold? && p.q.elems == [] {
      EmptyMeansSignalled(p.q, t);
    }
  }

  lemma NextKeepsPool<J>(p: Pool<J>, e: Event<J>)
    requires PoolInv(p) && Possible(p, e)
    ensures PoolInv(Next(p, e))
  {
    hide Inv;
    NextKeepsRoles(p, e);
    StepKeepsInv(p.q, Actor(e), Operation(e));
  }

  /** The queue action behind an event. */
  function Operation<J>(e: Event<J>): Action<J> {
    match e
    case Produce(job) => BeginPush(job)
    case Finish => Signal
    case Fetch(_) => BeginPop
    case Advance(_) => Proceed
    case Process(_) => Settle
  }

  lemma {:induction false} RunsKeepPool<J>(run: seq<Event<J>>, workers: nat, maxSize: nat)
    requires IsRun(run, workers, maxSize) && workers > 0 && maxSize > 0
    ensures PoolInv(After(run, workers, maxSize))
  {
    if run == [] {
      InitInv<J>(maxSize, workers + 1);
    } else {
      var before := run[..|run| - 1];
      RunsKeepPool(before, workers, maxSize);
      NextKeepsPool(After(before, workers, maxSize), run[|run| - 1]);
    }
  }

  lemma {:induction false} RunsConserve<J>(run: seq<Event<J>>, workers: nat, maxSize: nat, x: J)
    requires IsRun(run, workers, maxSize)
    ensures Conserved(After(run, workers, maxSize), x)
  {
    if run == [] {
      NothingHeld(Init<J>(maxSize, workers + 1).threads, x);
    } else {
      var before := run[..|run| - 1];
      RunsConserve(before, workers, maxSize, x);
      NextConserves(After(before, workers, maxSize), run[|run| - 1], x);
    }
  }

  // ----- the theorems

  ghost predicate AllReturned<J>(p: Pool<J>) {
    forall l :: l in p.q.threads ==> l.NoMore?
  }

  /** Once every worker has returned, every produced job has been processed exactly once. */
  lemma EveryJobOnce<J>(run: seq<Event<J>>, workers: nat, maxSize: nat)
    requires IsRun(run, workers, maxSize) && workers > 0 && maxSize > 0
    requires AllReturned(After(run, workers, maxSize))
    ensures multiset(After(run, workers, maxSize).processed) == multiset(After(run, workers, maxSize).produced)
  {
    RunsKeepPool(run, workers, maxSize);
    var p := After(run, workers, maxSize);
    assert p.q.threads[0] in p.q.threads;
    assert p.q.elems == [];
    assert p.produced == p.q.pushed == p.q.popped;
    forall x | x in multiset(p.produced) + multiset(p.processed)
      ensures multiset(p.produced)[x] == multiset(p.processed)[x]
    {
      RunsConserve(run, workers, maxSize, x);
      NothingHeld(p.q.threads, x);
    }
  }

  /** Nothing is ever processed that was not produced, or more often than it was produced. */
  lemma NoJobTwice<J>(run: seq<Event<J>>, workers: nat, maxSize: nat)
    requires IsRun(run, workers, maxSize) && workers > 0 && maxSize > 0
    ensures multiset(After(run, workers, maxSize).processed) <= multiset(After(run, workers, maxSize).produced)
  {
    hide After, IsRun, Roles;
    RunsKeepPool(run, workers, maxSize);
    var p := After(run, workers, maxSize);
    assert p.produced == p.q.popped + (p.q.elems + Pending(p.q.threads[0]));
    forall x | x in multiset(p.processed) ensures multiset(p.processed)[x] <= multiset(p.produced)[x] {
      RunsConserve(run, workers, maxSize, x);
    }
  }

  /** As long as some thread has not returned, some thread can go on: the producer is never left blocked
      on a full queue, and no worker waits for ever. */
  lemma NeverAllBlocked<J>(run: seq<Event<J>>, workers: nat, maxSize: nat) returns (e: Event<J>)
    requires IsRun(run, workers, maxSize) && workers > 0 && maxSize > 0
    requires !AllReturned(After(run, workers, maxSize))
    ensures Possible(After(run, workers, maxSize), e)
  {
    RunsKeepPool(run, workers, maxSize);
    e := SomeoneCanGo(After(run, workers, maxSize));
  }

  lemma SomeoneCanGo<J>(p: Pool<J>) returns (e: Event<J>)
    requires PoolInv(p) && !AllReturned(p)
    ensures Possible(p, e)
  {
    var q := p.q;
    if q.mutex {
      var h := Witness(q.threads, Holds);
      return Advance(h);
    }
    if p.producing {
      e := ProducerOrWorker(p);
    } else {
      var t :| 0 <= t < |q.threads| && !q.threads[t].NoMore?;
      e := WorkerCanGo(p, t);
    }
  }

  /** A thread that consumes and has not returned can go on, or another one holds the token it lacks. */
  lemma WorkerCanGo<J>(p: Pool<J>, t: nat) returns (e: Event<J>)
    requires PoolInv(p) && !p.q.mutex && t < |p.q.threads| && !p.q.threads[t].NoMore?
    requires t > 0 || !p.producing
    requires |p.q.elems| + p.q.signals > 0
    ensures Possible(p, e)
  {
    match p.q.threads[t]
    case Idle => e := Fetch(t);
    case Got(_) => e := Process(t);
    case PopWait =>
      if p.q.queued > 0 {
        e := Advance(t);
      } else {
        var h := TokenHolderAdvances(p.q);
        e := Advance(h);
      }
    case _ => e := Advance(t);
  }

  lemma ProducerOrWorker<J>(p: Pool<J>) returns (e: Event<J>)
    requires PoolInv(p) && p.producing && !p.q.mutex
    ensures Possible(p, e)
  {
    var main := p.q.threads[0];
    if main.Idle? {
      e := Finish;
    } else if main.PushWait? && p.q.freeSlots == 0 {
      if p.q.elems != [] {
        e := WorkerCanGo(p, 1);
      } else {
        var h := Witness(p.q.threads, Slot);
        e := Advance(h);
      }
    } else {
      e := Advance(0);
    }
  }

  // ----- every run ends

  /** Steps taken inside an unfinished round of a thread. */
  function Progress<J>(l: Local<J>): int {
    match l
    case Idle | Nothing => 0
    case PushWait(_) => 1
    case PushHold(_) => 2
    case PushPost => -1
    case PopWait => 1
    case PopHold => 2
    case PopPost(_) | EmptyPost => 3
    case Got(_) | NoMore => 4
  }

  ghost predicate Counted<J>(steps: nat, p: Pool<J>) {
    steps == 4 * |p.q.pushed| + 5 * |p.processed| + Sum(p.q.threads, Progress) + (if p.producing then 0 else 1)
  }

  lemma LocalIsCounted<J>(e: Event<J>, a: Local<J>, b: Local<J>)
    requires Connects(e, a, b)
    ensures 1 == 4 * |Given(a, b)| + (if e.Process? then 5 else 0) + Progress(b) - Progress(a) + (if e.Finish? then 1 else 0)
  {
  }

  lemma NextIsCounted<J>(steps: nat, p: Pool<J>, e: Event<J>)
    requires Possible(p, e) && Counted(steps, p)
    ensures Counted(steps + 1, Next(p, e))
  {
    var a, b := p.q.threads[Actor(e)], Next(p, e).q.threads[Actor(e)];
    NextEffect(p, e);
    NextConnects(p, e);
    LocalIsCounted(e, a, b);
    SumUpdate(p.q.threads, Progress, Actor(e), b);
  }

  lemma StartIsCounted<J>(workers: nat, maxSize: nat)
    ensures Counted(0, Start<J>(workers, maxSize))
  {
    SumOfIdle<J>(workers + 1, Progress);
  }

  lemma {:induction false} RunsAreCounted<J>(run: seq<Event<J>>, workers: nat, maxSize: nat)
    requires IsRun(run, workers, maxSize)
    ensures Counted(|run|, After(run, workers, maxSize))
    ensures |After(run, workers, maxSize).q.threads| == workers + 1
  {
    if run == [] {
      StartIsCounted<J>(workers, maxSize);
    } else {
      var before, e := run[..|run| - 1], run[|run| - 1];
      var p := After(before, workers, maxSize);
      RunsAreCounted(before, workers, maxSize);
      NextIsCounted(|before|, p, e);
      NextEffect(p, e);
      assert |run| == |before| + 1 && After(run, workers, maxSize) == Next(p, e);
    }
  }

  lemma {:induction false} ProgressIsBounded<J>(threads: seq<Local<J>>)
    ensures Sum(threads, Progress) <= 4 * |threads|
  {
    if threads != [] {
      ProgressIsBounded(threads[1..]);
    }
  }

  /** A run that produces n jobs takes at most 9 n + 4 (workers + 1) + 1 steps; with NeverAllBlocked, every
      run that stops producing ends with all workers returned. */
  lemma RunsAreBounded<J>(run: seq<Event<J>>, workers: nat, maxSize: nat)
    requires IsRun(run, workers, maxSize) && workers > 0 && maxSize > 0
    ensures |run| <= 9 * |After(run, workers, maxSize).produced| + 4 * (workers + 1) + 1
  {
    var p := After(run, workers, maxSize);
    RunsAreCounted(run, workers, maxSize);
    ProgressIsBounded(p.q.threads);
    assert |p.q.pushed| <= |p.produced| by {
      RunsKeepPool(run, workers, maxSize);
    }
    assert |p.processed| <= |p.produced| by {
      NoJobTwice(run, workers, maxSize);
      var rest := multiset(p.produced) - multiset(p.processed);
      assert multiset(p.produced) == multiset(p.processed) + rest;
    }
  }
}
