/**
  The two-thread handshake of interactive judging. The solution supervisor (the calling thread) and the
  checker supervisor exchange jobs, readiness, the solution's pid and the checker's verdict through four
  promises that their readers re-arm. Both threads are modelled as program counters over shared promises;
  every run is an arbitrary interleaving, and running a sandboxed process is an arbitrary outcome.
 */
module InteractiveJudge {
  import opened Wrappers

  datatype Content<+T> = Empty | Value(v: T) | Exception

  /** A promise and whether its future was already retrieved. */
  datatype Promise<+T> = Promise(content: Content<T>, retrieved: bool) {
    predicate Fresh() { content == Empty && !retrieved }
    predicate Pending() { content != Empty && !retrieved }
  }

  /** Program counters of the solution supervisor; the numbers are lines of judge_worker.cc. */
  datatype SolPc =
    | WaitReady0    // 715
    | ResetReady0   // 716
    | Between       // between tests, inside process_tests
    | SetJob        // 586
    | WaitReady     // 591
    | ResetReady    // 592
    | Run           // 598, after-fork callback not called yet
    | RunPid        // 604, after-fork callback done
    | SetNoPid      // 608
    | ReadFinished  // 614
    | WaitStatus    // 627
    | ResetStatus   // 628
    | Report        // 630-709
    | Done          // 725
    | Catch         // 730
    | Join          // 726, 732
    | SolEnd

  /** Program counters of the checker supervisor. */
  datatype ChkPc =
    | Setup         // 487-494
    | SetReady0     // 496
    | WaitJob       // 500
    | ResetJob      // 501
    | Prepare       // 510-525
    | SetReady      // 527
    | RunChecker    // 532
    | StoreFinished // 536
    | Judge         // 541
    | WaitPid       // 544
    | ResetPid      // 545
    | Kill          // 546
    | SetStatus     // 550
    | SetStatusExc  // 554
    | SetReadyExc   // 559
    | ChkEnd

  /** Jobs, pids and verdicts carry the number of the test they belong to; tests count from 1. The last
      four fields are history: they never influence a step. */
  datatype State = State(
    sol: SolPc,
    chk: ChkPc,
    ready: Promise<()>,
    nextJob: Promise<Option<nat>>,
    pid: Promise<Option<nat>>,
    status: Promise<nat>,
    finished: bool,          // checker_finished
    ces: nat,                // test whose checker run last wrote ces
    test: nat,               // tests begun
    jobs: nat,               // last job taken by the checker
    job: Option<nat>,        // job_opt
    solPid: Option<nat>,     // sol_pid_opt
    perfect: bool,           // the checker's verdict gives the full score
    given: Option<Option<nat>>, // what was put into the pid promise for the current test
    skipped: bool,           // the current test's sandbox.run returned without its after-fork callback
    log: Log,
    misused: bool            // some promise was set twice, read twice or re-armed before it was read
  )

  datatype Log = Log(
    verdicts: seq<nat>,      // verdicts read, one per test
    finishedReads: seq<(nat, bool, nat)>, // (test, checker_finished, ces) at each read of the flag
    kills: seq<(nat, nat)>   // (job, test of the killed solution)
  )

  /** Everything that can happen next. SkipCallback is sandbox.run returning without having called the
      after-fork callback (src/sandbox.cc:1030-1033); ChkWrong is the checker giving less than the full score. */
  datatype Action = SolStep | StartTest | SolThrow | SkipCallback | ChkStep | ChkWrong | ChkThrow

  function FreshPromise<T>(): Promise<T> { Promise(Empty, false) }

  function Init(): State {
    State(WaitReady0, Setup, FreshPromise(), FreshPromise(), FreshPromise(), FreshPromise(),
          false, 0, 0, 0, None, None, false, None, false, Log([], [], []), false)
  }

  predicate Enabled(s: State, a: Action) {
    match a
    case SolStep =>
      match s.sol {
        case WaitReady0 | WaitReady => s.ready.content != Empty
        case WaitStatus => s.status.content != Empty
        case Join => s.chk == ChkEnd
        case SolEnd => false
        case _ => true
      }
    case StartTest => s.sol == Between
    case SolThrow => (s.sol.Between? || s.sol.Run? || s.sol.RunPid? || s.sol.Report?)
    case SkipCallback => s.sol == Run
    case ChkStep =>
      match s.chk {
        case WaitJob => s.nextJob.content != Empty
        case WaitPid => s.pid.content != Empty
        case ChkEnd => false
        case _ => true
      }
    case ChkWrong => s.chk == Judge
    case ChkThrow => (s.chk.Setup? || s.chk.Prepare? || s.chk.RunChecker? || s.chk.Judge?)
  }

  /** set_value or set_exception: throws promise_already_satisfied when the promise is already set. */
  function Put<T>(p: Promise<T>, c: Content<T>): (r: (Promise<T>, bool)) {
    if p.content == Empty then (p.(content := c), false) else (p, true)
  }

  /** get_future().get(): throws future_already_retrieved on a second retrieval. */
  function Take<T>(p: Promise<T>): (r: (Promise<T>, bool)) {
    (p.(retrieved := true), p.retrieved)
  }

  /** promise = {}: a promise re-armed before it was read would break its reader. */
  function Rearm<T>(p: Promise<T>): (r: (Promise<T>, bool)) {
    (FreshPromise(), p.content == Empty || !p.retrieved)
  }

  function Step(s: State, a: Action): State
    requires Enabled(s, a)
  {
    match a
    case SolStep => StepSolution(s)
    case StartTest => s.(sol := SetJob, test := s.test + 1, given := None, skipped := false)
    case SolThrow => s.(sol := if s.sol == Run then SetNoPid else Catch)
    case SkipCallback => s.(sol := ReadFinished, skipped := true)
    case ChkStep => StepChecker(s)
    case ChkWrong => s.(chk := WaitPid, perfect := false)
    case ChkThrow => s.(chk := if s.chk.Setup? || s.chk.Prepare? then SetReadyExc else SetStatusExc)
  }

  function StepSolution(s: State): State
    requires Enabled(s, SolStep)
  {
    match s.sol
    case WaitReady0 | WaitReady =>
      var (p, bad) := Take(s.ready);
      var next := if p.content == Exception then Catch else if s.sol == WaitReady0 then ResetReady0 else ResetReady;
      s.(sol := next, ready := p, misused := s.misused || bad)
    case ResetReady0 | ResetReady =>
      var (p, bad) := Rearm(s.ready);
      s.(sol := if s.sol == ResetReady0 then Between else Run, ready := p, misused := s.misused || bad)
    case Between => s.(sol := Done)
    case SetJob =>
      var (p, bad) := Put(s.nextJob, Value(Some(s.test)));
      s.(sol := WaitReady, nextJob := p, misused := s.misused || bad)
    case Run =>
      var (p, bad) := Put(s.pid, Value(Some(s.test)));
      s.(sol := RunPid, pid := p, given := Some(Some(s.test)), misused := s.misused || bad)
    case SetNoPid =>
      var (p, bad) := Put(s.pid, Value(None));
      s.(sol := Catch, pid := p, given := Some(None), misused := s.misused || bad)
    case RunPid => s.(sol := ReadFinished)
    case ReadFinished =>
      s.(sol := WaitStatus, log := s.log.(finishedReads := s.log.finishedReads + [(s.test, s.finished, s.ces)]))
    case WaitStatus =>
      var (p, bad) := Take(s.status);
      if p.content == Exception then s.(sol := Catch, status := p, misused := s.misused || bad)
      else s.(sol := ResetStatus, status := p, log := s.log.(verdicts := s.log.verdicts + [p.content.v]), misused := s.misused || bad)
    case ResetStatus =>
      var (p, bad) := Rearm(s.status);
      s.(sol := Report, status := p, misused := s.misused || bad)
    case Report => s.(sol := Between)
    case Done | Catch =>
      var (p, bad) := Put(s.nextJob, Value(None));
      s.(sol := Join, nextJob := p, misused := s.misused || bad)
    case Join => s.(sol := SolEnd)
  }

  function StepChecker(s: State): State
    requires Enabled(s, ChkStep)
  {
    match s.chk
    case Setup => s.(chk := SetReady0)
    case SetReady0 | SetReady =>
      var (p, bad) := Put(s.ready, Value(()));
      s.(chk := if s.chk == SetReady0 then WaitJob else RunChecker, ready := p, misused := s.misused || bad)
    case WaitJob =>
      var (p, bad) := Take(s.nextJob);
      var got := if p.content.Value? then p.content.v else None;
      s.(chk := ResetJob, nextJob := p, job := got, jobs := if got.Some? then got.value else s.jobs,
         misused := s.misused || bad)
    case ResetJob =>
      var (p, bad) := Rearm(s.nextJob);
      s.(chk := if s.job == None then ChkEnd else Prepare, nextJob := p, misused := s.misused || bad)
    case Prepare => s.(chk := SetReady, finished := false)
    case RunChecker => s.(chk := StoreFinished, ces := s.jobs)
    case StoreFinished => s.(chk := Judge, finished := true)
    case Judge => s.(chk := WaitPid, perfect := true)
    case WaitPid =>
      var (p, bad) := Take(s.pid);
      s.(chk := ResetPid, pid := p, solPid := if p.content.Value? then p.content.v else None, misused := s.misused || bad)
    case ResetPid =>
      var (p, bad) := Rearm(s.pid);
      s.(chk := Kill, pid := p, misused := s.misused || bad)
    case Kill =>
      if s.solPid.Some? && !s.perfect then
        s.(chk := SetStatus, log := s.log.(kills := s.log.kills + [(s.jobs, s.solPid.value)]))
      else s.(chk := SetStatus)
    case SetStatus =>
      var (p, bad) := Put(s.status, Value(s.jobs));
      s.(chk := WaitJob, status := p, misused := s.misused || bad)
    case SetStatusExc =>
      var (p, bad) := Put(s.status, Exception);
      s.(chk := WaitJob, status := p, misused := s.misused || bad)
    case SetReadyExc =>
      var (p, bad) := Put(s.ready, Exception);
      s.(chk := ChkEnd, ready := p, misused := s.misused || bad)
  }

  /** A run is the sequence of actions taken, oldest first. */
  predicate IsRun(run: seq<Action>)
    decreases |run|, 0
  {
    run == [] || (IsRun(run[..|run| - 1]) && Enabled(After(run[..|run| - 1]), run[|run| - 1]))
  }

  function After(run: seq<Action>): State
    requires IsRun(run)
    decreases |run|, 1
  {
    if run == [] then Init() else Step(After(run[..|run| - 1]), run[|run| - 1])
  }

  // ----- the invariant

  predicate InJob(c: ChkPc) {
    (c.RunChecker? || c.StoreFinished? || c.Judge? || c.WaitPid? || c.ResetPid? || c.Kill? || c.SetStatus? || c.SetStatusExc?)
  }

  /** The checker executes the job of the current test; the pid promise has been given s.given or, when
      that is None, nothing yet. */
  ghost predicate OnJob(s: State) {
    && InJob(s.chk) && s.job == Some(s.test) && s.jobs == s.test && s.status.Fresh() && FinishedOk(s)
    && match s.chk {
         case ResetPid => s.given.Some? && s.pid == Promise(Value(s.given.value), true) && s.solPid == s.given.value
         case Kill | SetStatus => s.given.Some? && s.pid.Fresh() && s.solPid == s.given.value
         case _ => PidWaits(s)
       }
  }

  ghost predicate PidWaits(s: State) {
    if s.given == None then s.pid.Fresh() else s.pid == Promise(Value(s.given.value), false)
  }

  /** The flag can only be up when ces already belongs to the current test. */
  ghost predicate FinishedOk(s: State) {
    && (s.finished ==> s.ces == s.test)
    && ((s.chk.SetReady? || s.chk.RunChecker? || s.chk.StoreFinished?) ==> !s.finished)
    && ((s.chk.StoreFinished? || s.chk.Judge? || s.chk.WaitPid? || s.chk.ResetPid? || s.chk.Kill? || s.chk.SetStatus?) ==> s.ces == s.test)
  }

  /** The checker has answered the current test and waits for the next job. */
  ghost predicate Answered(s: State) {
    && s.chk == WaitJob && s.jobs == s.test
    && (s.finished ==> s.ces == s.test)
    && (|| (s.status == Promise(Exception, false) && PidWaits(s))
        || (s.status == Promise(Value(s.test), false) && s.given.Some? && s.pid.Fresh() && s.ces == s.test))
  }

  ghost predicate PidAndStatusFresh(s: State) { s.pid.Fresh() && s.status.Fresh() }

  ghost predicate Idle(s: State) {
    s.chk == WaitJob && s.ready.Fresh() && s.nextJob.Fresh() && PidAndStatusFresh(s)
  }

  ghost predicate Joint(s: State) {
    match s.sol
    case WaitReady0 =>
      && s.nextJob.Fresh() && PidAndStatusFresh(s) && s.test == s.jobs == 0
      && (|| ((s.chk.Setup? || s.chk.SetReady0? || s.chk.SetReadyExc?) && s.ready.Fresh())
          || (s.chk == WaitJob && s.ready == Promise(Value(()), false))
          || (s.chk == ChkEnd && s.ready == Promise(Exception, false)))
    case ResetReady0 =>
      s.chk == WaitJob && s.ready == Promise(Value(()), true) && s.nextJob.Fresh() && PidAndStatusFresh(s) && s.test == s.jobs == 0
    case Between | Report | Done => Idle(s) && s.jobs == s.test
    case SetJob => Idle(s) && s.jobs + 1 == s.test && !s.skipped && s.given == None
    case WaitReady =>
      && !s.skipped && s.given == None && s.test > 0
      && (|| (PidAndStatusFresh(s) && Accepting(s))
          || (s.ready == Promise(Value(()), false) && s.nextJob.Fresh() && (OnJob(s) || Answered(s))))
    case ResetReady =>
      && !s.skipped && s.given == None && s.test > 0
      && s.ready == Promise(Value(()), true) && s.nextJob.Fresh() && (OnJob(s) || Answered(s))
    case Run | SetNoPid => !s.skipped && s.given == None && s.test > 0 && s.ready.Fresh() && s.nextJob.Fresh() && (OnJob(s) || Answered(s))
    case RunPid =>
      !s.skipped && s.given == Some(Some(s.test)) && s.test > 0 && s.ready.Fresh() && s.nextJob.Fresh() && (OnJob(s) || Answered(s))
    case ReadFinished | WaitStatus =>
      && s.given == (if s.skipped then None else Some(Some(s.test))) && s.test > 0
      && s.ready.Fresh() && s.nextJob.Fresh() && (OnJob(s) || Answered(s))
    case ResetStatus =>
      && s.chk == WaitJob && s.ready.Fresh() && s.nextJob.Fresh() && s.pid.Fresh() && s.jobs == s.test
      && s.status == Promise(Value(s.test), true)
    case Catch => s.jobs <= s.test && s.nextJob.Fresh() && ((s.chk.ChkEnd? || s.chk.WaitJob?) || Orphan(s))
    case Join =>
      && s.jobs <= s.test
      && (|| s.chk == ChkEnd
          || (s.nextJob == Promise(Value(None), false) && (s.chk == WaitJob || Orphan(s)))
          || (s.chk == ResetJob && s.job == None && s.nextJob == Promise(Value(None), true)))
    case SolEnd => s.jobs <= s.test && s.chk == ChkEnd
  }

  /** The checker takes the job of the current test, up to the point where it reports ready. */
  ghost predicate Accepting(s: State) {
    match s.chk
    case WaitJob => s.ready.Fresh() && s.nextJob == Promise(Value(Some(s.test)), false) && s.jobs + 1 == s.test
    case ResetJob => s.ready.Fresh() && s.nextJob == Promise(Value(Some(s.test)), true) && TookJob(s)
    case Prepare | SetReadyExc => s.ready.Fresh() && s.nextJob.Fresh() && TookJob(s)
    case SetReady => s.ready.Fresh() && s.nextJob.Fresh() && TookJob(s) && !s.finished
    case ChkEnd => s.ready == Promise(Exception, false) && s.nextJob.Fresh() && s.jobs == s.test
    case _ => false
  }

  ghost predicate TookJob(s: State) { s.job == Some(s.test) && s.jobs == s.test }

  /** A job whose solution supervisor has given up; its pid is known, so the checker can finish it. */
  ghost predicate Orphan(s: State) {
    OnJob(s) && (s.given == Some(None) || s.given == Some(Some(s.test)))
  }

  predicate InOrder(verdicts: seq<nat>) { forall i :: 0 <= i < |verdicts| ==> verdicts[i] == i + 1 }

  /** A verdict is read for every test, after the waiting and before the report. */
  predicate Counted(p: SolPc, verdicts: nat, test: nat) {
    && ((p.WaitReady0? || p.ResetReady0? || p.ResetStatus? || p.Report? || p.Between? || p.Done?) ==> verdicts == test)
    && ((p.SetJob? || p.WaitReady? || p.ResetReady? || p.Run? || p.RunPid? || p.SetNoPid? || p.ReadFinished? || p.WaitStatus?) ==> verdicts + 1 == test)
  }

  predicate OwnReads(rs: seq<(nat, bool, nat)>) {
    forall i :: 0 <= i < |rs| ==> rs[i].1 ==> rs[i].2 == rs[i].0
  }

  predicate OwnKills(kills: seq<(nat, nat)>) { forall i :: 0 <= i < |kills| ==> kills[i].0 == kills[i].1 }

  ghost predicate History(s: State) {
    && InOrder(s.log.verdicts) && Counted(s.sol, |s.log.verdicts|, s.test)
    && OwnReads(s.log.finishedReads) && OwnKills(s.log.kills)
  }

  ghost predicate Inv(s: State) { !s.misused && Joint(s) && History(s) }

  predicate StartsTest(p: SolPc) {
    p.WaitReady0? || p.ResetReady0? || p.Between? || p.SetJob? || p.WaitReady? || p.ResetReady?
  }

  lemma StartKeepsJoint(s: State)
    requires !s.misused && Joint(s) && Enabled(s, SolStep) && StartsTest(s.sol)
    ensures !StepSolution(s).misused && Joint(StepSolution(s))
  {
    hide InJob;
    match s.sol
    case WaitReady0 =>
    case ResetReady0 =>
    case Between =>
    case SetJob =>
    case WaitReady =>
    case ResetReady =>
  }

  lemma JudgingKeepsJoint(s: State)
    requires !s.misused && Joint(s) && Enabled(s, SolStep) && (s.sol.Run? || s.sol.RunPid? || s.sol.SetNoPid? || s.sol.ReadFinished?)
    ensures !StepSolution(s).misused && Joint(StepSolution(s))
  {
    hide InJob, TookJob;
    match s.sol
    case Run =>
    case RunPid =>
    case SetNoPid =>
    case ReadFinished =>
  }

  lemma SolutionKeepsJoint(s: State)
    requires !s.misused && Joint(s) && Enabled(s, SolStep)
    ensures !StepSolution(s).misused && Joint(StepSolution(s))
  {
    hide TookJob;
    if StartsTest(s.sol) {
      StartKeepsJoint(s);
    } else if s.sol.Run? || s.sol.RunPid? || s.sol.SetNoPid? || s.sol.ReadFinished? {
      JudgingKeepsJoint(s);
    } else {
      match s.sol
      case WaitStatus =>
      case ResetStatus =>
      case Report =>
      case Done =>
      case Catch =>
      case Join =>
    }
  }

  lemma CheckerAnswerKeepsJoint(s: State)
    requires !s.misused && Joint(s) && Enabled(s, ChkStep) && (s.chk.SetStatus? || s.chk.SetStatusExc?)
    ensures !StepChecker(s).misused && Joint(StepChecker(s))
  {
    hide TookJob;
    assert OnJob(s);
  }

  lemma CheckerPidKeepsJoint(s: State)
    requires !s.misused && Joint(s) && Enabled(s, ChkStep) && (s.chk.WaitPid? || s.chk.ResetPid? || s.chk.Kill?)
    ensures !StepChecker(s).misused && Joint(StepChecker(s))
  {
    hide TookJob;
    assert OnJob(s);
  }

  lemma CheckerInJobKeepsJoint(s: State)
    requires !s.misused && Joint(s) && Enabled(s, ChkStep) && InJob(s.chk)
    ensures !StepChecker(s).misused && Joint(StepChecker(s))
  {
    hide TookJob;
    if s.chk.SetStatus? || s.chk.SetStatusExc? {
      CheckerAnswerKeepsJoint(s);
    } else if s.chk.WaitPid? || s.chk.ResetPid? || s.chk.Kill? {
      CheckerPidKeepsJoint(s);
    } else {
      assert OnJob(s);
    }
  }

  lemma CheckerTakesJob(s: State)
    requires !s.misused && Joint(s) && Enabled(s, ChkStep) && (s.chk.WaitJob? || s.chk.ResetJob?)
    ensures !StepChecker(s).misused && Joint(StepChecker(s))
  {
    hide FinishedOk;
  }

  lemma CheckerKeepsJoint(s: State)
    requires !s.misused && Joint(s) && Enabled(s, ChkStep)
    ensures !StepChecker(s).misused && Joint(StepChecker(s))
  {
    if InJob(s.chk) {
      CheckerInJobKeepsJoint(s);
    } else if s.chk.WaitJob? || s.chk.ResetJob? {
      CheckerTakesJob(s);
    }
  }

  lemma ThrowsKeepJoint(s: State, a: Action)
    requires !s.misused && Joint(s) && Enabled(s, a) && (a == SolThrow || a == ChkThrow)
    ensures !Step(s, a).misused && Joint(Step(s, a))
  {
  }

  lemma StepKeepsJoint(s: State, a: Action)
    requires !s.misused && Joint(s) && Enabled(s, a)
    ensures !Step(s, a).misused && Joint(Step(s, a))
  {
    match a
    case SolStep => SolutionKeepsJoint(s);
    case ChkStep => CheckerKeepsJoint(s);
    case SolThrow => ThrowsKeepJoint(s, a);
    case ChkThrow => ThrowsKeepJoint(s, a);
    case StartTest =>
    case SkipCallback =>
    case ChkWrong =>
  }

  /** What is about to be recorded belongs to the test it will be recorded for. */
  ghost predicate Matched(s: State) {
    && (s.sol == WaitStatus && s.status.content.Value? ==> s.status.content.v == s.test)
    && (s.sol == ReadFinished && s.finished ==> s.ces == s.test)
    && (s.chk == Kill && s.solPid.Some? ==> s.solPid.value == s.jobs)
  }

  lemma JointMatched(s: State)
    requires Joint(s)
    ensures Matched(s)
  {
  }

  /** Where the solution supervisor goes next. */
  function SolNext(s: State): SolPc
    requires Enabled(s, SolStep)
  {
    match s.sol
    case WaitReady0 => if s.ready.content == Exception then Catch else ResetReady0
    case WaitReady => if s.ready.content == Exception then Catch else ResetReady
    case ResetReady0 => Between
    case ResetReady => Run
    case Between => Done
    case SetJob => WaitReady
    case Run => RunPid
    case SetNoPid => Catch
    case RunPid => ReadFinished
    case ReadFinished => WaitStatus
    case WaitStatus => if s.status.content == Exception then Catch else ResetStatus
    case ResetStatus => Report
    case Report => Between
    case Done | Catch => Join
    case Join => SolEnd
  }

  /** What a step of the solution supervisor does besides using promises. */
  predicate SolEffect(s: State, t: State)
    requires Enabled(s, SolStep)
  {
    && t.sol == SolNext(s) && t.chk == s.chk && t.finished == s.finished && t.ces == s.ces && t.test == s.test && t.jobs == s.jobs
    && t.job == s.job && t.perfect == s.perfect && t.skipped == s.skipped && t.log.kills == s.log.kills
    && t.given == (if s.sol == Run then Some(Some(s.test)) else if s.sol == SetNoPid then Some(None) else s.given)
    && t.log.finishedReads ==
       (if s.sol == ReadFinished then s.log.finishedReads + [(s.test, s.finished, s.ces)] else s.log.finishedReads)
    && t.log.verdicts ==
       (if s.sol == WaitStatus && s.status.content.Value? then s.log.verdicts + [s.status.content.v] else s.log.verdicts)
  }

  lemma StartEffect(s: State)
    requires Enabled(s, SolStep) && StartsTest(s.sol)
    ensures SolEffect(s, StepSolution(s))
  {
    hide Put, Rearm;
  }

  lemma SolutionEffect(s: State)
    requires Enabled(s, SolStep)
    ensures SolEffect(s, StepSolution(s))
  {
    if StartsTest(s.sol) {
      StartEffect(s);
    } else {
      hide Put, Rearm;
      match s.sol
      case Run =>
      case SetNoPid =>
      case RunPid =>
      case ReadFinished =>
      case WaitStatus =>
      case ResetStatus =>
      case Report =>
      case Done =>
      case Catch =>
      case Join =>
    }
  }

  /** Where the checker supervisor goes next. */
  function ChkNext(s: State): ChkPc
    requires Enabled(s, ChkStep)
  {
    match s.chk
    case Setup => SetReady0
    case SetReady0 => WaitJob
    case WaitJob => ResetJob
    case ResetJob => if s.job == None then ChkEnd else Prepare
    case Prepare => SetReady
    case SetReady => RunChecker
    case RunChecker => StoreFinished
    case StoreFinished => Judge
    case Judge => WaitPid
    case WaitPid => ResetPid
    case ResetPid => Kill
    case Kill => SetStatus
    case SetStatus | SetStatusExc => WaitJob
    case SetReadyExc => ChkEnd
  }

  function JobNext(s: State): Option<nat> {
    if s.chk == WaitJob then (if s.nextJob.content.Value? then s.nextJob.content.v else None) else s.job
  }

  /** What a step of the checker supervisor does besides using promises. */
  predicate ChkEffect(s: State, t: State)
    requires Enabled(s, ChkStep)
  {
    && t.chk == ChkNext(s) && t.sol == s.sol && t.test == s.test && t.given == s.given && t.skipped == s.skipped
    && t.log.verdicts == s.log.verdicts && t.log.finishedReads == s.log.finishedReads
    && t.finished == (if s.chk == Prepare then false else if s.chk == StoreFinished then true else s.finished)
    && t.perfect == (if s.chk == Judge then true else s.perfect)
    && t.job == JobNext(s) && t.jobs == (if s.chk == WaitJob && JobNext(s).Some? then JobNext(s).value else s.jobs)
    && t.log.kills ==
       (if s.chk == Kill && s.solPid.Some? && !s.perfect then s.log.kills + [(s.jobs, s.solPid.value)] else s.log.kills)
  }

  lemma JobEffect(s: State)
    requires Enabled(s, ChkStep) && InJob(s.chk)
    ensures ChkEffect(s, StepChecker(s))
  {
    hide Put, Rearm;
  }

  lemma CheckerEffect(s: State)
    requires Enabled(s, ChkStep)
    ensures ChkEffect(s, StepChecker(s))
  {
    if InJob(s.chk) {
      JobEffect(s);
    } else {
      hide Put, Rearm;
      match s.chk
      case Setup =>
      case SetReady0 =>
      case WaitJob =>
      case ResetJob =>
      case Prepare =>
      case SetReady =>
      case SetReadyExc =>
    }
  }

  lemma SolutionKeepsCount(s: State)
    requires Counted(s.sol, |s.log.verdicts|, s.test) && Enabled(s, SolStep)
    ensures var t := StepSolution(s);
            Counted(t.sol, |t.log.verdicts|, t.test)
  {
    hide StepSolution;
    SolutionEffect(s);
  }

  lemma SolutionKeepsHistory(s: State)
    requires Matched(s) && History(s) && Enabled(s, SolStep)
    ensures History(StepSolution(s))
  {
    hide StepSolution, Counted, SolNext;
    SolutionKeepsCount(s);
    SolutionEffect(s);
    if s.sol == WaitStatus {
      WaitingCount(s);
    }
  }

  lemma WaitingCount(s: State)
    requires s.sol == WaitStatus && Counted(s.sol, |s.log.verdicts|, s.test)
    ensures |s.log.verdicts| + 1 == s.test
  {
  }

  lemma CheckerKeepsHistory(s: State)
    requires Matched(s) && History(s) && Enabled(s, ChkStep)
    ensures History(StepChecker(s))
  {
    hide StepChecker, Counted, ChkNext;
    CheckerEffect(s);
  }

  lemma StepKeepsHistory(s: State, a: Action)
    requires Matched(s) && History(s) && Enabled(s, a)
    ensures History(Step(s, a))
  {
    match a
    case SolStep => SolutionKeepsHistory(s);
    case ChkStep => CheckerKeepsHistory(s);
    case _ =>
  }

  lemma StepKeepsInv(s: State, a: Action)
    requires Inv(s) && Enabled(s, a)
    ensures Inv(Step(s, a))
  {
    assert History(Step(s, a)) by {
      JointMatched(s);
      StepKeepsHistory(s, a);
    }
    StepKeepsJoint(s, a);
  }

  lemma {:induction false} RunsKeepInv(run: seq<Action>)
    requires IsRun(run)
    ensures Inv(After(run))
  {
    if run != [] {
      var before := run[..|run| - 1];
      RunsKeepInv(before);
      StepKeepsInv(After(before), run[|run| - 1]);
    }
  }

  // ----- the theorems

  /** No promise is ever set twice, read twice or re-armed too early; the i-th verdict read is that of the
      i-th test; a raised checker_finished is never a left-over of an earlier test; only the solution of
      the checker's own test is killed. */
  lemma PromisesAreUsedOnce(run: seq<Action>)
    requires IsRun(run)
    ensures var s := After(run);
            && !s.misused
            && (forall i :: 0 <= i < |s.log.verdicts| ==> s.log.verdicts[i] == i + 1)
            && (forall i :: 0 <= i < |s.log.finishedReads| ==> s.log.finishedReads[i].1 ==> s.log.finishedReads[i].2 == s.log.finishedReads[i].0)
            && (forall i :: 0 <= i < |s.log.kills| ==> s.log.kills[i].0 == s.log.kills[i].1)
  {
    RunsKeepInv(run);
  }

  predicate Finished(s: State) { s.sol == SolEnd && s.chk == ChkEnd }

  ghost predicate Stuck(s: State) { !Finished(s) && forall a :: !Enabled(s, a) }

  /** Both threads block exactly when the sandbox returned without calling the after-fork callback and
      the checker has come to ask for the pid. */
  lemma StuckIffCallbackSkipped(run: seq<Action>)
    requires IsRun(run)
    ensures var s := After(run);
            Stuck(s) <==> s.sol == WaitStatus && s.chk == WaitPid && s.skipped
  {
    RunsKeepInv(run);
    var s := After(run);
    if s.sol == WaitStatus && s.chk == WaitPid && s.skipped {
      forall a ensures !Enabled(s, a) {
      }
    } else if !Finished(s) {
      assert Enabled(s, SolStep) || Enabled(s, ChkStep);
    }
  }

  lemma {:induction false} NeverSkipped(run: seq<Action>)
    requires IsRun(run) && SkipCallback !in run
    ensures !After(run).skipped
  {
    if run != [] {
      hide Step, Enabled;
      NeverSkipped(run[..|run| - 1]);
      assert run[|run| - 1] in run;
      SkippedStep(After(run[..|run| - 1]), run[|run| - 1]);
    }
  }

  lemma SkippedStep(s: State, a: Action)
    requires Enabled(s, a)
    ensures Step(s, a).skipped ==> s.skipped || a == SkipCallback
  {
    hide StepSolution, StepChecker;
    match a
    case SolStep => SolutionEffect(s);
    case ChkStep => CheckerEffect(s);
    case _ =>
  }

  /** If every solution run calls its callback or throws, no reachable state blocks both threads. */
  lemma NoDeadlock(run: seq<Action>)
    requires IsRun(run) && SkipCallback !in run
    ensures !Stuck(After(run))
  {
    StuckIffCallbackSkipped(run);
    NeverSkipped(run);
  }

  lemma Extend(run: seq<Action>, a: Action) returns (longer: seq<Action>)
    requires IsRun(run) && Enabled(After(run), a)
    ensures longer == run + [a] && IsRun(longer) && After(longer) == Step(After(run), a)
  {
    longer := run + [a];
    assert longer[..|longer| - 1] == run;
  }

  /** A run that hands the first job to the checker. */
  lemma FirstJobSent() returns (run: seq<Action>)
    ensures IsRun(run)
    ensures After(run) == Init().(sol := WaitReady, chk := WaitJob, test := 1, nextJob := Promise(Value(Some(1)), false))
  {
    run := Extend([], ChkStep);
    run := Extend(run, ChkStep);
    run := Extend(run, SolStep);
    run := Extend(run, SolStep);
    run := Extend(run, StartTest);
    run := Extend(run, SolStep);
  }

  /** A run that starts the solution and the checker of the first test. */
  lemma FirstTestRuns() returns (run: seq<Action>)
    ensures IsRun(run)
    ensures After(run) == Init().(sol := Run, chk := RunChecker, test := 1, jobs := 1, job := Some(1))
  {
    run := FirstJobSent();
    run := Extend(run, ChkStep);
    run := Extend(run, ChkStep);
    run := Extend(run, ChkStep);
    run := Extend(run, ChkStep);
    run := Extend(run, SolStep);
    run := Extend(run, SolStep);
  }

  /** The condition is needed: one skipped callback can leave both threads waiting for each other. */
  lemma SkippedCallbackDeadlocks() returns (run: seq<Action>)
    ensures IsRun(run) && Stuck(After(run))
  {
    run := FirstTestRuns();
    run := Extend(run, SkipCallback);
    run := Extend(run, SolStep);
    run := Extend(run, ChkStep);
    run := Extend(run, ChkStep);
    run := Extend(run, ChkStep);
    StuckIffCallbackSkipped(run);
  }

  /** The checker has thrown on the current test, so that it will answer without knowing the pid. */
  predicate Answering(s: State) { s.chk.SetStatusExc? || s.chk.WaitJob? }

  /** The callback was skipped, the solution supervisor is on its way to wait for the verdict, and the checker
      on its way to wait for the pid. */
  predicate Doomed(s: State) {
    s.skipped && (s.sol.ReadFinished? || s.sol.WaitStatus?) && OnItsWay(s.chk)
  }

  predicate OnItsWay(c: ChkPc) { c.RunChecker? || c.StoreFinished? || c.Judge? || c.WaitPid? }

  /** What the invariant says about the checker while a solution runs. */
  predicate Attended(s: State) {
    && (s.sol.RunPid? ==> !s.skipped)
    && (s.sol.Run? ==> OnItsWay(s.chk) || Answering(s))
    && (s.sol.ReadFinished? || s.sol.WaitStatus? ==> !s.chk.SetReady?)
    && (Doomed(s) ==> s.pid.content == Empty && s.status.content == Empty)
  }

  lemma JointAttended(s: State)
    requires Joint(s)
    ensures Attended(s)
  {
    hide FinishedOk, TookJob;
  }

  lemma DoomedStep(s: State, a: Action)
    requires Attended(s) && Enabled(s, a)
    ensures Doomed(Step(s, a)) <==> if a == SkipCallback then !Answering(s) else Doomed(s) && a != ChkThrow
  {
    hide StepSolution, StepChecker;
    match a
    case SolStep => SolutionEffect(s);
    case ChkStep => CheckerEffect(s);
    case _ =>
  }

  /** The callback is skipped at step k while the checker has not thrown, and it does not throw later. */
  ghost predicate SkipSticks(run: seq<Action>, k: nat) {
    && k < |run| && run[k] == SkipCallback && ChkThrow !in run[k..]
    && IsRun(run[..k]) && !Answering(After(run[..k]))
  }

  lemma SkipSticksSnoc(before: seq<Action>, a: Action, k: nat)
    requires k < |before|
    ensures SkipSticks(before + [a], k) <==> SkipSticks(before, k) && a != ChkThrow
  {
    var run := before + [a];
    assert run[..k] == before[..k] && run[k..] == before[k..] + [a];
  }

  /** A run has doomed the test exactly when some skip sticks. */
  lemma {:induction false} DoomedIff(run: seq<Action>)
    requires IsRun(run)
    ensures Doomed(After(run)) <==> exists k :: SkipSticks(run, k)
  {
    if run != [] {
      hide Joint, History, Enabled, Step, Doomed, Answering, Attended;
      var n := |run| - 1;
      var before, a := run[..n], run[n];
      DoomedIff(before);
      RunsKeepInv(before);
      JointAttended(After(before));
      DoomedStep(After(before), a);
      if a == SkipCallback {
        DoomedDoesNotSkip(After(before));
      }
      SticksAtEnd(before, a);
      assert run == before + [a];
    }
  }

  lemma SticksAtEnd(before: seq<Action>, a: Action)
    requires IsRun(before)
    ensures (exists k :: SkipSticks(before + [a], k)) <==>
            || (a == SkipCallback && !Answering(After(before)))
            || (a != ChkThrow && exists k :: SkipSticks(before, k))
  {
    hide IsRun, After, Answering;
    var run, n := before + [a], |before|;
    assert run[..n] == before && run[n..] == [a];
    assert SkipSticks(run, n) <==> a == SkipCallback && !Answering(After(before));
    forall k: nat | k < n ensures SkipSticks(run, k) <==> SkipSticks(before, k) && a != ChkThrow {
      SkipSticksSnoc(before, a, k);
    }
    if k: nat :| SkipSticks(before, k) {
      assert SkipSticks(run, k) <==> a != ChkThrow;
    }
  }

  lemma DoomedDoesNotSkip(s: State)
    requires Enabled(s, SkipCallback)
    ensures !Doomed(s)
  {
  }

  /** The deadlock told from the run alone: a run in which nothing more can happen has ended in a deadlock
      exactly when some skip sticks, and has finished both threads otherwise. */
  lemma CompleteRunStuckIff(run: seq<Action>)
    requires IsRun(run) && forall a :: !Enabled(After(run), a)
    ensures Stuck(After(run)) <==> exists k :: SkipSticks(run, k)
    ensures Finished(After(run)) <==> !exists k :: SkipSticks(run, k)
  {
    DoomedIff(run);
    StuckIffCallbackSkipped(run);
    var s := After(run);
    if Doomed(s) {
      assert !Enabled(s, SolStep) && !Enabled(s, ChkStep);
    }
  }

  // ----- what a run says about the flag and about killing

  /** Things that happen for a test: its checker has ended and its supervisor stores that in checker_finished;
      its checker gives less than the full score; its solution is forked and the pid handed over. */
  datatype Mark = Stores(test: nat) | FindsWrong(test: nat) | Forks(test: nat)

  /** Taking action a in state s is m. */
  predicate Is(s: State, a: Action, m: Mark) {
    match m
    case Stores(k) => a == ChkStep && s.chk == StoreFinished && s.jobs == k
    case FindsWrong(k) => a == ChkWrong && s.jobs == k
    case Forks(k) => a == SolStep && s.sol == Run && s.test == k
  }

  ghost predicate HappensAt(run: seq<Action>, p: nat, m: Mark) {
    p < |run| && IsRun(run[..p]) && Is(After(run[..p]), run[p], m)
  }

  ghost predicate Happened(run: seq<Action>, m: Mark) { exists p :: HappensAt(run, p, m) }

  lemma HappenedSnoc(run: seq<Action>, a: Action, m: Mark)
    requires IsRun(run)
    ensures Happened(run + [a], m) <==> Happened(run, m) || Is(After(run), a, m)
  {
    hide IsRun, After, Is;
    var longer, n := run + [a], |run|;
    assert longer[..n] == run;
    assert HappensAt(longer, n, m) <==> Is(After(run), a, m);
    forall p: nat | p < n ensures HappensAt(longer, p, m) <==> HappensAt(run, p, m) {
      assert longer[..p] == run[..p];
    }
    if p: nat :| HappensAt(run, p, m) {
      assert HappensAt(longer, p, m);
    }
  }

  /** How the checker's place, the flag and the verdict go with what has happened for the checker's job. */
  predicate CheckerTold(c: ChkPc, finished: bool, perfect: bool, job: Option<nat>, stored: bool, wrong: bool) {
    && (c.Setup? || c.SetReady0? || c.SetReady? || c.RunChecker? || c.StoreFinished? ==> !finished)
    && (c.Setup? || c.SetReady0? || c.Prepare? || c.SetReady? || c.RunChecker? || c.StoreFinished? ==> !stored && !wrong)
    && (c.ResetJob? && job.Some? ==> !stored && !wrong)
    && (c.Judge? ==> finished && stored && !wrong)
    && (c.WaitPid? || c.ResetPid? || c.Kill? ==> finished && stored && (perfect <==> !wrong))
    && (c.SetStatus? ==> finished && stored)
    && (c.SetStatusExc? || c.WaitJob? ==> (finished <==> stored))
  }

  predicate Told(s: State, stored: bool, wrong: bool, forked: bool) {
    && CheckerTold(s.chk, s.finished, s.perfect, s.job, stored, wrong)
    && (s.given == Some(Some(s.test)) <==> forked)
  }

  ghost predicate RunTold(run: seq<Action>)
    requires IsRun(run)
  {
    var s := After(run);
    && Told(s, Happened(run, Stores(s.jobs)), Happened(run, FindsWrong(s.jobs)), Happened(run, Forks(s.test)))
    && (forall k :: k > s.jobs ==> !Happened(run, Stores(k)) && !Happened(run, FindsWrong(k)))
    && (forall k :: k > s.test ==> !Happened(run, Forks(k)))
  }

  /** What the invariant says about given where it changes. */
  predicate GivenOk(s: State) {
    && (s.sol.Run? || s.sol.SetNoPid? ==> s.given == None)
    && (s.chk.WaitJob? && s.nextJob.content.Value? && s.nextJob.content.v.Some? ==> s.nextJob.content.v.value > s.jobs)
  }

  lemma JointGivenOk(s: State)
    requires Joint(s)
    ensures GivenOk(s)
  {
    hide FinishedOk;
  }

  lemma SolutionTold(s: State, forked: bool)
    requires GivenOk(s) && Enabled(s, SolStep) && (s.given == Some(Some(s.test)) <==> forked)
    ensures var t := StepSolution(s);
            && t.chk == s.chk && t.finished == s.finished && t.perfect == s.perfect && t.job == s.job && t.jobs == s.jobs
            && t.test == s.test && (t.given == Some(Some(t.test)) <==> forked || s.sol == Run)
  {
    hide StepSolution, SolNext;
    SolutionEffect(s);
  }

  lemma CheckerStepTold(s: State, stored: bool, wrong: bool)
    requires GivenOk(s) && Enabled(s, ChkStep) && CheckerTold(s.chk, s.finished, s.perfect, s.job, stored, wrong)
    ensures var t := StepChecker(s);
            && t.given == s.given && t.test == s.test && t.jobs >= s.jobs
            && CheckerTold(t.chk, t.finished, t.perfect, t.job,
                           t.jobs == s.jobs && (stored || s.chk == StoreFinished), t.jobs == s.jobs && wrong)
  {
    hide StepChecker;
    CheckerEffect(s);
  }

  /** The step a in state s, in which the three things have happened so far as told. */
  lemma StepTold(s: State, a: Action, stored: bool, wrong: bool, forked: bool)
    requires GivenOk(s) && Enabled(s, a) && Told(s, stored, wrong, forked)
    ensures var t := Step(s, a);
            && t.jobs >= s.jobs && t.test >= s.test
            && Told(t, t.jobs == s.jobs && (stored || Is(s, a, Stores(s.jobs))),
                    t.jobs == s.jobs && (wrong || Is(s, a, FindsWrong(s.jobs))),
                    t.test == s.test && (forked || Is(s, a, Forks(s.test))))
  {
    hide StepSolution, StepChecker;
    match a
    case SolStep => SolutionTold(s, forked);
    case ChkStep => CheckerStepTold(s, stored, wrong);
    case _ =>
  }

  lemma {:induction false} RunsTell(run: seq<Action>)
    requires IsRun(run)
    ensures RunTold(run)
  {
    if run == [] {
      assert forall m :: !Happened(run, m);
    } else {
      hide Told, Joint, History, Enabled, Step, Is, Happened;
      var n := |run| - 1;
      var before, a := run[..n], run[n];
      assert run == before + [a];
      RunsTell(before);
      RunsKeepInv(before);
      JointGivenOk(After(before));
      SnocTold(before, a);
    }
  }

  lemma SnocTold(before: seq<Action>, a: Action)
    requires IsRun(before) && Enabled(After(before), a) && GivenOk(After(before)) && RunTold(before)
    ensures IsRun(before + [a]) && RunTold(before + [a])
  {
    hide Told, GivenOk, Happened, Step;
    var s := After(before);
    var run := Extend(before, a);
    var t := After(run);
    StepTold(s, a, Happened(before, Stores(s.jobs)), Happened(before, FindsWrong(s.jobs)), Happened(before, Forks(s.test)));
    forall m ensures Happened(run, m) <==> Happened(before, m) || Is(s, a, m) {
      HappenedSnoc(before, a, m);
    }
  }

  /** checker_finished is read as raised exactly when the checker of that very test has ended before. */
  lemma FlagReadIff(run: seq<Action>)
    requires IsRun(run) && After(run).sol == ReadFinished
    ensures var s := After(run);
            && IsRun(run + [SolStep])
            && After(run + [SolStep]).log.finishedReads ==
               s.log.finishedReads + [(s.test, Happened(run, Stores(s.test)), s.ces)]
  {
    hide Happened;
    RunsKeepInv(run);
    RunsTell(run);
    var longer := Extend(run, SolStep);
  }

  /** After a verdict the solution is killed exactly when its checker gave less than the full score and it had
      been forked. */
  lemma KilledIff(run: seq<Action>)
    requires IsRun(run) && After(run).chk == Kill
    ensures var s := After(run);
            && IsRun(run + [ChkStep])
            && After(run + [ChkStep]).log.kills ==
               s.log.kills + (if Happened(run, FindsWrong(s.jobs)) && Happened(run, Forks(s.jobs)) then [(s.jobs, s.jobs)] else [])
  {
    hide Happened;
    RunsKeepInv(run);
    RunsTell(run);
    var s := After(run);
    var longer := Extend(run, ChkStep);
    assert s.log.kills + [] == s.log.kills;
  }

  /** How far a thread has come; each of its steps moves it strictly forward. */
  function SolRank(s: State): nat { 12 * s.test + SolAt(s.sol) }

  function SolAt(p: SolPc): nat {
    match p
      case WaitReady0 => 0 case ResetReady0 => 1 case SetJob => 2 case WaitReady => 3 case ResetReady => 4
      case Run => 5 case RunPid => 6 case SetNoPid => 6 case ReadFinished => 7 case WaitStatus => 8
      case ResetStatus => 9 case Report => 10 case Between => 11 case Done => 12 case Catch => 12
      case Join => 13 case SolEnd => 14
  }

  function ChkRank(s: State): nat {
    12 * s.jobs + match s.chk
      case Setup => 0 case ResetJob => if s.job == None then 12 else 0
      case SetReady0 => 1 case Prepare => 1 case SetReady => 2 case SetReadyExc => 3 case RunChecker => 3
      case StoreFinished => 4 case Judge => 5 case WaitPid => 6 case ResetPid => 7 case Kill => 8
      case SetStatus => 9 case SetStatusExc => 9 case WaitJob => 11 case ChkEnd => 13
  }

  /** The job on offer is always newer than the last one taken. */
  ghost predicate JobIsNew(s: State) {
    && s.jobs <= s.test
    && (s.chk == WaitJob && s.nextJob.content.Value? && s.nextJob.content.v.Some? ==> s.nextJob.content.v.value > s.jobs)
  }

  lemma JointJobIsNew(s: State)
    requires Joint(s)
    ensures JobIsNew(s)
  {
  }

  lemma StepAdvances(s: State, a: Action)
    requires JobIsNew(s) && Enabled(s, a)
    ensures SolRank(Step(s, a)) + ChkRank(Step(s, a)) > SolRank(s) + ChkRank(s)
  {
    match a
    case SolStep => SolutionAdvances(s);
    case ChkStep => CheckerAdvances(s);
    case _ =>
  }

  lemma SolutionMoves(s: State)
    requires Enabled(s, SolStep)
    ensures SolAt(StepSolution(s).sol) > SolAt(s.sol)
  {
    hide StepSolution;
    SolutionEffect(s);
  }

  lemma SolutionAdvances(s: State)
    requires Enabled(s, SolStep)
    ensures SolRank(StepSolution(s)) > SolRank(s) && ChkRank(StepSolution(s)) == ChkRank(s)
  {
    hide SolAt, StepSolution, SolNext;
    SolutionMoves(s);
    SolutionEffect(s);
  }

  lemma CheckerMoves(s: State)
    requires JobIsNew(s) && Enabled(s, ChkStep)
    ensures ChkRank(StepChecker(s)) > ChkRank(s)
  {
    hide StepChecker;
    CheckerEffect(s);
  }

  lemma CheckerAdvances(s: State)
    requires JobIsNew(s) && Enabled(s, ChkStep)
    ensures ChkRank(StepChecker(s)) > ChkRank(s) && SolRank(StepChecker(s)) == SolRank(s)
  {
    hide ChkRank, SolAt, StepChecker, ChkNext;
    CheckerMoves(s);
    CheckerEffect(s);
  }

  lemma {:induction false} RankCountsSteps(run: seq<Action>)
    requires IsRun(run)
    ensures |run| <= SolRank(After(run)) + ChkRank(After(run))
  {
    if run != [] {
      var before := run[..|run| - 1];
      RankCountsSteps(before);
      RunsKeepInv(before);
      JointJobIsNew(After(before));
      StepAdvances(After(before), run[|run| - 1]);
    }
  }

  /** Over n tests the two threads take at most 24 n + 27 steps together; so with NoDeadlock every run
      that begins finitely many tests ends with both threads finished. */
  lemma RunsAreBounded(run: seq<Action>)
    requires IsRun(run)
    ensures |run| <= 24 * After(run).test + 27
  {
    RankCountsSteps(run);
    assert After(run).jobs <= After(run).test by {
      RunsKeepInv(run);
      JointJobIsNew(After(run));
    }
  }

  /** When process_tests ends without an exception, every test begun has had its verdict read. */
  lemma NormalEndHasAllVerdicts(run: seq<Action>)
    requires IsRun(run) && After(run).sol == Done
    ensures |After(run).log.verdicts| == After(run).test
    ensures forall i :: 0 <= i < |After(run).log.verdicts| ==> After(run).log.verdicts[i] == i + 1
    ensures After(run).chk == WaitJob
  {
    RunsKeepInv(run);
  }
}
