/**
  The event queue: handlers run at a time or when a file descriptor is ready. Handlers live in a map;
  timed ones also in an ordered set, file ones in a poll array with a parallel array of handler ids. One
  pass over the poll array compacts it in place while the callbacks it runs add and remove handlers.

  Callbacks, the clock, ppoll and pause requests from other threads come from a World that supplies
  arbitrary outcomes.
 */
module EventQueue {

  /** What ppoll reports for one descriptor. */
  datatype Revents = Revents(pollin: bool, pollout: bool, errOrHup: bool, priOrRdhup: bool, other: bool)

  const NO_EVENT := Revents(false, false, false, false, false)

  datatype FileEvents = FileEvents(readable: bool, writeable: bool, closed: bool)

  /** Nanoseconds. */
  const TIME_QUANTUM := 6000

  const NO_FILE_EVENTS := FileEvents(false, false, false)

  function ToFileEvents(r: Revents): FileEvents { FileEvents(r.pollin, r.pollout, r.errOrHup) }

  /** What a handler for these events asks ppoll for; closing is reported unasked. */
  function ToPollEvents(e: FileEvents): Revents { Revents(e.readable, e.writeable, false, false, false) }

  /** A handler is told of exactly what it asked for and ppoll reports. */
  lemma AskedComesBack(e: FileEvents)
    ensures ToFileEvents(ToPollEvents(e)) == e.(closed := false)
    ensures ToPollEvents(FileEvents(true, false, false)).pollin && !ToPollEvents(FileEvents(true, false, false)).pollout
    ensures ToPollEvents(FileEvents(false, true, false)).pollout && !ToPollEvents(FileEvents(false, true, false)).pollin
  {
  }

  datatype PollFd = PollFd(fd: int, revents: Revents)

  predicate Live(p: PollFd) { p.fd >= 0 }

  datatype Handler = Timed(time: int) | File(pollIdx: nat)

  /** What a callback does: any operations on the queue, then it may throw. */
  datatype Op = AddTimed(tp: int) | AddFile(fd: nat) | Remove(id: nat) | Pause

  datatype Script = Script(ops: seq<Op>, throws: bool)

  /** How a piece of the event loop ends. Returned covers an immediate pause too, as in the source, where
      the caller asks for it again; Unknown means that the observed behaviour stops here. */
  datatype Outcome = Returned | Threw | Unknown

  // ----- history

  /** What happened, oldest first. */
  datatype Event =
    | AddedTimed(id: nat, tp: int)
    | AddedFile(id: nat)
    | Removed(id: nat)
    | Fired(id: nat, tp: int, now: int)
    | Called(id: nat, events: FileEvents)
    | Entered // run() was called
    | Polled(reports: map<nat, FileEvents>) // what ppoll reported, by file handler
    | TimersDone(start: int, now: int) // a round of timed handlers ended by itself

  /** Timed handlers still waiting after the events in log. */
  ghost function Pending(log: seq<Event>): set<(int, nat)> {
    if log == [] then {} else
      var rest, e := Pending(log[..|log| - 1]), log[|log| - 1];
      match e
      case AddedTimed(id, tp) => rest + {(tp, id)}
      case Removed(id) => set p | p in rest && p.1 != id
      case Fired(id, tp, _) => rest - {(tp, id)}
      case _ => rest
  }

  /** File handlers registered after the events in log. */
  ghost function Files(log: seq<Event>): set<nat> {
    if log == [] then {} else
      var rest, e := Files(log[..|log| - 1]), log[|log| - 1];
      match e
      case AddedFile(id) => rest + {id}
      case Removed(id) => rest - {id}
      case _ => rest
  }

  /** What the last ppoll reported. */
  ghost function Reported(log: seq<Event>): map<nat, FileEvents> {
    if log == [] then map[]
    else if log[|log| - 1].Polled? then log[|log| - 1].reports
    else Reported(log[..|log| - 1])
  }

  /** The file handlers called since the last ppoll. */
  ghost function CalledSince(log: seq<Event>): set<nat> {
    if log == [] || log[|log| - 1].Polled? then {}
    else CalledSince(log[..|log| - 1]) + (if log[|log| - 1].Called? then {log[|log| - 1].id} else {})
  }

  /** A round of timed handlers has ended since the last ppoll. */
  ghost predicate TimersSince(log: seq<Event>) {
    log != [] && !log[|log| - 1].Polled? && (log[|log| - 1].TimersDone? || TimersSince(log[..|log| - 1]))
  }

  /** A timed handler has fired in the current round. */
  ghost predicate FiredSince(log: seq<Event>) {
    && log != [] && !log[|log| - 1].Polled? && !log[|log| - 1].TimersDone? && !log[|log| - 1].Entered?
    && (log[|log| - 1].Fired? || FiredSince(log[..|log| - 1]))
  }

  /** No ppoll since run() was called. */
  ghost predicate Resumed(log: seq<Event>) {
    log != [] && !log[|log| - 1].Polled? && (log[|log| - 1].Entered? || Resumed(log[..|log| - 1]))
  }

  /** Whoever the last ppoll reported something for has been called, or is gone. */
  ghost predicate Delivered(log: seq<Event>) {
    forall h :: h in Reported(log) && Reported(log)[h] != NO_FILE_EVENTS && h in Files(log) ==> h in CalledSince(log)
  }

  /** Nothing is left to do before the next ppoll. */
  ghost predicate TurnDone(log: seq<Event>) {
    Resumed(log) || (TimersSince(log) && Delivered(log))
  }

  predicate NotAfter(a: (int, nat), b: (int, nat)) { a.0 < b.0 || (a.0 == b.0 && a.1 <= b.1) }

  /** A file callback runs only while its handler is registered, for what the last ppoll reported for it, only
      once after that ppoll, and only after a round of timed handlers; a timed one only while it is pending,
      not before its time, and only when it is the earliest of those pending. A round of timed handlers ends
      when none is due, or when the time quantum has passed and one has fired. The next ppoll comes only when
      the turn is done. */
  ghost predicate EventOk(before: seq<Event>, e: Event) {
    match e
    case Called(id, events) =>
      && id in Files(before) && events != NO_FILE_EVENTS && id !in CalledSince(before)
      && id in Reported(before) && Reported(before)[id] == events && TimersSince(before)
    case Polled(reports) => TurnDone(before) && reports.Keys <= Files(before)
    case TimersDone(start, now) => RoundOver(Pending(before), before, start, now)
    case Fired(id, tp, now) =>
      (tp, id) in Pending(before) && tp <= now && forall p :: p in Pending(before) ==> NotAfter((tp, id), p)
    case _ => true
  }

  /** None is due at now, or the time quantum has passed and one has fired. */
  ghost predicate RoundOver(timed: set<(int, nat)>, log: seq<Event>, start: int, now: int) {
    (forall p :: p in timed ==> p.0 > now) || (now > start + TIME_QUANTUM && FiredSince(log))
  }

  ghost predicate Sound(log: seq<Event>) {
    log == [] || (Sound(log[..|log| - 1]) && EventOk(log[..|log| - 1], log[|log| - 1]))
  }

  ghost predicate EndsWith(log: seq<Event>, e: Event) { log != [] && log[|log| - 1] == e }

  lemma Append(log: seq<Event>, e: Event)
    ensures (log + [e])[..|log + [e]| - 1] == log && (log + [e])[|log + [e]| - 1] == e
  {
  }

  // ----- the cross-indexing invariant

  /** Live poll slots and file handlers are in bijection through pollIdx and hids. */
  ghost predicate SlotsOk(handlers: map<nat, Handler>, polls: seq<PollFd>, hids: seq<nat>) {
    && |polls| == |hids|
    && (forall h {:trigger handlers[h]} :: h in handlers && handlers[h].File? ==>
          handlers[h].pollIdx < |polls| && Live(polls[handlers[h].pollIdx]) && hids[handlers[h].pollIdx] == h)
    && (forall i {:trigger polls[i]} {:trigger hids[i]} :: 0 <= i < |polls| && Live(polls[i]) ==>
          hids[i] in handlers && handlers[hids[i]] == File(i))
  }

  ghost predicate TimersOk(handlers: map<nat, Handler>, timed: set<(int, nat)>) {
    && (forall h {:trigger handlers[h]} :: h in handlers && handlers[h].Timed? ==> (handlers[h].time, h) in timed)
    && (forall p :: p in timed ==> p.1 in handlers && handlers[p.1] == Timed(p.0))
  }

  ghost predicate LogOk(handlers: map<nat, Handler>, timed: set<(int, nat)>, nextId: nat, log: seq<Event>) {
    && Sound(log)
    && timed == Pending(log)
    && (forall h :: h in Files(log) <==> h in handlers && handlers[h].File?)
    && (forall h :: h in handlers ==> h < nextId)
    && (forall h :: h in Reported(log) ==> h < nextId)
  }

  /** The fields of a queue, as a value. */
  datatype Snap = Snap(
    handlers: map<nat, Handler>, timed: set<(int, nat)>, polls: seq<PollFd>, hids: seq<nat>, nextId: nat, log: seq<Event>)

  ghost predicate Ok(s: Snap) {
    && SlotsOk(s.handlers, s.polls, s.hids)
    && TimersOk(s.handlers, s.timed)
    && LogOk(s.handlers, s.timed, s.nextId, s.log)
  }

  /** What callbacks may do between a and b: old handlers go or stay as they are, new ones get fresh ids and
      slots at the end without events, and no file callback runs. */
  ghost predicate Edited(a: Snap, b: Snap) {
    && SlotsEdited(a.polls, a.hids, a.nextId, b.polls, b.hids)
    && a.nextId <= b.nextId
    && (forall h {:trigger b.handlers[h]} :: h in b.handlers && h < a.nextId ==> h in a.handlers && b.handlers[h] == a.handlers[h])
    && NoCalls(a.log, b.log)
  }

  ghost predicate SlotsEdited(polls: seq<PollFd>, hids: seq<nat>, nextId: nat, polls': seq<PollFd>, hids': seq<nat>) {
    && |polls| == |hids| <= |polls'| == |hids'|
    && (forall i {:trigger polls'[i]} {:trigger hids'[i]} :: 0 <= i < |polls| ==>
          && hids'[i] == hids[i] && polls'[i].revents == polls[i].revents
          && (polls'[i].fd == polls[i].fd || !Live(polls'[i])))
    && (forall i {:trigger polls'[i]} {:trigger hids'[i]} :: |polls| <= i < |polls'| ==>
          hids'[i] >= nextId && polls'[i].revents == NO_EVENT)
  }

  ghost predicate NoCalls(log: seq<Event>, log': seq<Event>) {
    log <= log' && forall i {:trigger log'[i]} :: |log| <= i < |log'| ==> !log'[i].Called? && !log'[i].Polled?
  }

  /** Only handlers were added and removed. */
  ghost predicate OnlyEdits(log: seq<Event>, log': seq<Event>) {
    log <= log' && forall i {:trigger log'[i]} :: |log| <= i < |log'| ==> log'[i].AddedTimed? || log'[i].AddedFile? || log'[i].Removed?
  }

  /** One timed handler fired and left the queue. */
  ghost predicate FiredOne(a: Snap, b: Snap, now: int) {
    exists p :: p in a.timed && b.timed == a.timed - {p} && b.handlers == a.handlers - {p.1} && b.log == a.log + [Fired(p.1, p.0, now)]
  }

  lemma EmptyOk()
    ensures Ok(Snap(map[], {}, [], [], 0, []))
  {
  }

  lemma OkIsSound(a: Snap)
    requires Ok(a)
    ensures Sound(a.log)
  {
  }

  lemma SameLengths(a: Snap)
    requires Ok(a)
    ensures |a.polls| == |a.hids|
  {
  }

  lemma EditedReflexive(a: Snap)
    requires |a.polls| == |a.hids|
    ensures Edited(a, a)
  {
  }

  lemma EditedTransitive(a: Snap, b: Snap, c: Snap)
    requires Edited(a, b) && Edited(b, c)
    ensures Edited(a, c)
  {
  }

  lemma EarliestExists(s: set<(int, nat)>) returns (first: (int, nat))
    requires s != {}
    ensures first in s && forall p :: p in s ==> NotAfter(first, p)
  {
    var x :| x in s;
    if s == {x} {
      first := x;
    } else {
      var other := EarliestExists(s - {x});
      first := if NotAfter(other, x) then other else x;
      forall p | p in s ensures NotAfter(first, p) {
        assert p == x || p in s - {x};
      }
    }
  }

  /** A single operation: some old handlers gone or one with the next id come, poll slots accordingly. */
  lemma OneEdit(a: Snap, b: Snap, e: Event)
    requires |a.polls| == |a.hids| && b.log == a.log + [e] && !e.Called? && !e.Polled?
    requires forall h :: h in a.handlers ==> h < a.nextId
    requires (b.nextId == a.nextId && b.handlers.Keys <= a.handlers.Keys) || (b.nextId == a.nextId + 1 && b.handlers.Keys == a.handlers.Keys + {a.nextId})
    requires forall h :: h in a.handlers && h in b.handlers ==> b.handlers[h] == a.handlers[h]
    requires SlotsEdited(a.polls, a.hids, a.nextId, b.polls, b.hids)
    ensures Edited(a, b)
  {
  }

  // ----- what each operation does to the three parts of the invariant

  lemma SlotsAfterAddTimed(handlers: map<nat, Handler>, polls: seq<PollFd>, hids: seq<nat>, id: nat, tp: int)
    requires SlotsOk(handlers, polls, hids) && id !in handlers
    ensures SlotsOk(handlers[id := Timed(tp)], polls, hids)
  {
  }

  lemma TimersAfterAddTimed(handlers: map<nat, Handler>, timed: set<(int, nat)>, id: nat, tp: int)
    requires TimersOk(handlers, timed) && id !in handlers
    ensures TimersOk(handlers[id := Timed(tp)], timed + {(tp, id)})
  {
  }

  lemma LogAfterAddTimed(handlers: map<nat, Handler>, timed: set<(int, nat)>, id: nat, log: seq<Event>, tp: int)
    requires LogOk(handlers, timed, id, log)
    ensures LogOk(handlers[id := Timed(tp)], timed + {(tp, id)}, id + 1, log + [AddedTimed(id, tp)])
  {
    Append(log, AddedTimed(id, tp));
    assert id !in handlers;
    assert Files(log + [AddedTimed(id, tp)]) == Files(log) && Reported(log + [AddedTimed(id, tp)]) == Reported(log);
  }

  lemma SlotsAfterAddFile(handlers: map<nat, Handler>, polls: seq<PollFd>, hids: seq<nat>, id: nat, fd: int)
    requires SlotsOk(handlers, polls, hids) && id !in handlers
    ensures SlotsOk(handlers[id := File(|polls|)], polls + [PollFd(fd, NO_EVENT)], hids + [id]) <==> fd >= 0
  {
    var handlers' := handlers[id := File(|polls|)];
    assert handlers'[id].pollIdx == |polls|;
  }

  /** A negative descriptor breaks even an empty queue: handler 0 points to a slot that looks removed. */
  lemma NegativeDescriptorBreaks()
    ensures SlotsOk(map[], [], []) && !SlotsOk(map[0 := File(0)], [PollFd(-1, NO_EVENT)], [0])
  {
    SlotsAfterAddFile(map[], [], [], 0, -1);
    assert [] + [PollFd(-1, NO_EVENT)] == [PollFd(-1, NO_EVENT)] && map[][0 := File(0)] == map[0 := File(0)];
  }

  lemma TimersAfterAddFile(handlers: map<nat, Handler>, timed: set<(int, nat)>, id: nat, i: nat)
    requires TimersOk(handlers, timed) && id !in handlers
    ensures TimersOk(handlers[id := File(i)], timed)
  {
  }

  lemma LogAfterAddFile(handlers: map<nat, Handler>, timed: set<(int, nat)>, id: nat, log: seq<Event>, i: nat)
    requires LogOk(handlers, timed, id, log)
    ensures LogOk(handlers[id := File(i)], timed, id + 1, log + [AddedFile(id)])
  {
    Append(log, AddedFile(id));
    assert Files(log + [AddedFile(id)]) == Files(log) + {id} && Reported(log + [AddedFile(id)]) == Reported(log);
  }

  lemma SlotsAfterRemove(handlers: map<nat, Handler>, polls: seq<PollFd>, hids: seq<nat>, id: nat)
    requires SlotsOk(handlers, polls, hids) && id in handlers
    ensures SlotsOk(handlers - {id}, PollsAfterRemove(handlers, polls, id), hids)
  {
  }

  ghost function PollsAfterRemove(handlers: map<nat, Handler>, polls: seq<PollFd>, id: nat): seq<PollFd>
    requires id in handlers && (handlers[id].File? ==> handlers[id].pollIdx < |polls|)
  {
    match handlers[id]
    case Timed(_) => polls
    case File(i) => polls[i := polls[i].(fd := -1)]
  }

  lemma TimersAfterRemove(handlers: map<nat, Handler>, timed: set<(int, nat)>, id: nat)
    requires TimersOk(handlers, timed) && id in handlers
    ensures TimersOk(handlers - {id}, set p | p in timed && p.1 != id)
    ensures (set p | p in timed && p.1 != id) == if handlers[id].Timed? then timed - {(handlers[id].time, id)} else timed
  {
  }

  lemma LogAfterRemove(handlers: map<nat, Handler>, timed: set<(int, nat)>, nextId: nat, log: seq<Event>, id: nat)
    requires LogOk(handlers, timed, nextId, log) && id in handlers
    ensures LogOk(handlers - {id}, (set p | p in timed && p.1 != id), nextId, log + [Removed(id)])
  {
    Append(log, Removed(id));
    assert Files(log + [Removed(id)]) == Files(log) - {id};
  }

  lemma LogAfterFire(handlers: map<nat, Handler>, timed: set<(int, nat)>, nextId: nat, log: seq<Event>, tp: int, id: nat, now: int)
    requires LogOk(handlers, timed, nextId, log) && TimersOk(handlers, timed)
    requires (tp, id) in timed && tp <= now && forall p :: p in timed ==> NotAfter((tp, id), p)
    ensures LogOk(handlers - {id}, timed - {(tp, id)}, nextId, log + [Fired(id, tp, now)])
  {
    Append(log, Fired(id, tp, now));
    assert Files(log + [Fired(id, tp, now)]) == Files(log);
    assert id !in Files(log);
  }

  lemma LogAfterCall(handlers: map<nat, Handler>, timed: set<(int, nat)>, nextId: nat, log: seq<Event>, id: nat, events: FileEvents)
    requires LogOk(handlers, timed, nextId, log) && id in handlers && handlers[id].File? && events != NO_FILE_EVENTS
    requires id !in CalledSince(log) && id in Reported(log) && Reported(log)[id] == events && TimersSince(log)
    ensures LogOk(handlers, timed, nextId, log + [Called(id, events)])
  {
    Append(log, Called(id, events));
    assert Files(log + [Called(id, events)]) == Files(log);
  }

  lemma LogAfterPoll(handlers: map<nat, Handler>, timed: set<(int, nat)>, nextId: nat, log: seq<Event>, reports: map<nat, FileEvents>)
    requires LogOk(handlers, timed, nextId, log) && TurnDone(log)
    requires forall h :: h in reports ==> h in handlers && handlers[h].File?
    ensures LogOk(handlers, timed, nextId, log + [Polled(reports)])
    ensures Reported(log + [Polled(reports)]) == reports && CalledSince(log + [Polled(reports)]) == {}
  {
    Append(log, Polled(reports));
    assert Files(log + [Polled(reports)]) == Files(log);
  }

  lemma LogAfterTimers(handlers: map<nat, Handler>, timed: set<(int, nat)>, nextId: nat, log: seq<Event>, start: int, now: int)
    requires LogOk(handlers, timed, nextId, log) && RoundOver(timed, log, start, now)
    ensures LogOk(handlers, timed, nextId, log + [TimersDone(start, now)]) && TimersSince(log + [TimersDone(start, now)])
  {
    Append(log, TimersDone(start, now));
    assert Files(log + [TimersDone(start, now)]) == Files(log);
  }

  lemma LogAfterEnter(handlers: map<nat, Handler>, timed: set<(int, nat)>, nextId: nat, log: seq<Event>)
    requires LogOk(handlers, timed, nextId, log)
    ensures LogOk(handlers, timed, nextId, log + [Entered]) && TurnDone(log + [Entered])
  {
    Append(log, Entered);
    assert Files(log + [Entered]) == Files(log);
  }

  /** ppoll only writes the reported events. */
  lemma PolledOk(b: Snap, polls: seq<PollFd>)
    requires Ok(b) && |polls| == |b.polls| && forall i :: 0 <= i < |polls| ==> polls[i].fd == b.polls[i].fd
    ensures Ok(b.(polls := polls))
  {
    forall i | 0 <= i < |polls| ensures Live(polls[i]) == Live(b.polls[i]) {
    }
  }

  /** The ordered set holds exactly one entry per timed handler, so comparing sizes tells whether there is
      a file handler. */
  lemma {:induction false} FileHandlersBySize(handlers: map<nat, Handler>, timed: set<(int, nat)>)
    requires TimersOk(handlers, timed)
    ensures |handlers| > |timed| <==> exists h :: h in handlers && handlers[h].File?
    ensures |handlers| >= |timed|
    decreases |timed|
  {
    if timed == {} {
      assert forall h :: h in handlers ==> handlers[h].File?;
      if h :| h in handlers {
        assert h in handlers.Keys;
      }
    } else {
      var p :| p in timed;
      var handlers', timed' := handlers - {p.1}, timed - {p};
      assert handlers.Keys == handlers'.Keys + {p.1};
      assert TimersOk(handlers', timed');
      FileHandlersBySize(handlers', timed');
      assert forall h :: h in handlers && handlers[h].File? <==> h in handlers' && handlers'[h].File?;
    }
  }

  // ----- one pass over the poll array

  /** Moves the live slot idx to the dead slot n. */
  ghost function Moved(b: Snap, idx: nat, n: nat): Snap
    requires n <= idx < |b.polls| == |b.hids|
  {
    if n == idx then b else
      var hid := b.hids[idx];
      b.(polls := b.polls[n := b.polls[idx]][idx := b.polls[idx].(fd := -1)],
         hids := b.hids[n := hid],
         handlers := b.handlers[hid := File(n)])
  }

  lemma MovedOk(b: Snap, idx: nat, n: nat)
    requires Ok(b) && n <= idx < |b.polls| && Live(b.polls[idx]) && (n < idx ==> !Live(b.polls[n]))
    ensures Ok(Moved(b, idx, n))
    ensures Moved(b, idx, n).handlers[b.hids[idx]] == File(n)
  {
    var c, hid := Moved(b, idx, n), b.hids[idx];
    assert b.handlers[hid] == File(idx);
    if n < idx {
      MovedSlotsOk(b.handlers, b.polls, b.hids, idx, n);
      assert c.handlers.Keys == b.handlers.Keys;
      assert forall h :: h in b.handlers ==> c.handlers[h].Timed? == b.handlers[h].Timed?;
    }
  }

  lemma MovedSlotsOk(handlers: map<nat, Handler>, polls: seq<PollFd>, hids: seq<nat>, idx: nat, n: nat)
    requires SlotsOk(handlers, polls, hids) && n < idx < |polls| && Live(polls[idx]) && !Live(polls[n])
    ensures SlotsOk(handlers[hids[idx] := File(n)], polls[n := polls[idx]][idx := polls[idx].(fd := -1)], hids[n := hids[idx]])
  {
    assert handlers[hids[idx]] == File(idx);
  }

  /** The final resize to n slots, all later ones being dead. */
  lemma ResizeOk(b: Snap, n: nat)
    requires Ok(b) && n <= |b.polls| && forall i :: n <= i < |b.polls| ==> !Live(b.polls[i])
    ensures |b.hids| == |b.polls| && Ok(Resized(b, n))
  {
  }

  /** Slot j of the start state had a live handler with something to report. */
  ghost predicate Wanted(a: Snap, j: nat) {
    j < |a.polls| == |a.hids| && Live(a.polls[j]) && ToFileEvents(a.polls[j].revents) != NO_FILE_EVENTS
  }

  /** The call that slot j of the start state deserves. */
  ghost function CallOf(a: Snap, j: nat): Event
    requires j < |a.polls| == |a.hids|
  {
    Called(a.hids[j], ToFileEvents(a.polls[j].revents))
  }

  /** Every call since a is the call of one of the first done slots, and there was no ppoll since. */
  ghost predicate CallsFrom(a: Snap, log: seq<Event>, done: nat) {
    && |a.polls| == |a.hids| && a.log <= log
    && (forall k {:trigger log[k]} :: |a.log| <= k < |log| ==> !log[k].Polled?)
    && forall k {:trigger log[k]} :: |a.log| <= k < |log| && log[k].Called? ==>
         exists j :: 0 <= j < done && Wanted(a, j) && CallOf(a, j) == log[k]
  }

  /** No handler was called twice since a. */
  ghost predicate CalledOnce(a: Snap, log: seq<Event>) {
    forall k, l :: |a.log| <= k < l < |log| && log[k].Called? && log[l].Called? ==> log[k].id != log[l].id
  }

  /** Each of the first done slots has had its call, unless its handler is gone. */
  ghost predicate CallsMade(a: Snap, b: Snap, done: nat) {
    && |a.polls| == |a.hids| && a.log <= b.log
    && forall j {:trigger Wanted(a, j)} :: 0 <= j < done && Wanted(a, j) && a.hids[j] in b.handlers ==> CallOf(a, j) in b.log[|a.log|..]
  }

  /** Slots not visited yet are as at the start, or dead, or new and without events. */
  ghost predicate Unvisited(a: Snap, b: Snap, visited: nat) {
    && |a.polls| == |a.hids| <= |b.polls| == |b.hids|
    && forall i {:trigger b.polls[i]} {:trigger b.hids[i]} :: visited <= i < |b.polls| ==>
         if i < |a.polls| then
           && b.hids[i] == a.hids[i] && b.polls[i].revents == a.polls[i].revents
           && (b.polls[i].fd == a.polls[i].fd || !Live(b.polls[i]))
         else b.hids[i] >= a.nextId && b.polls[i].revents == NO_EVENT
  }

  /** Handlers of the start state that are still there; those of unvisited slots have not moved. */
  ghost predicate OldHandlers(a: Snap, b: Snap, visited: nat) {
    && a.nextId <= b.nextId
    && forall h {:trigger b.handlers[h]} {:trigger h in b.handlers} :: h in b.handlers && h < a.nextId ==>
         && h in a.handlers && b.handlers[h].File? == a.handlers[h].File?
         && (a.handlers[h].File? && a.handlers[h].pollIdx >= visited ==> b.handlers[h] == a.handlers[h])
  }

  /** The kept slots belong to handlers that were alive at the start of the pass or came during it. */
  ghost predicate KeptSlots(a: Snap, b: Snap, n: nat) {
    n <= |b.hids| && forall i :: 0 <= i < n ==> b.hids[i] in a.handlers || b.hids[i] >= a.nextId
  }

  /** n slots kept, visited slots looked at, and the first done of them dealt with. */
  ghost predicate PassInv(a: Snap, b: Snap, n: nat, visited: nat, done: nat) {
    && n <= visited <= |b.polls| && done <= visited
    && (forall i {:trigger b.polls[i]} :: n <= i < visited ==> !Live(b.polls[i]))
    && Unvisited(a, b, visited)
    && OldHandlers(a, b, visited)
    && KeptSlots(a, b, n)
    && CallsFrom(a, b.log, done) && CalledOnce(a, b.log) && CallsMade(a, b, done)
  }

  lemma PassStart(a: Snap)
    requires Ok(a)
    ensures PassInv(a, a, 0, 0, 0)
  {
  }

  lemma PassSkipDead(a: Snap, b: Snap, n: nat, idx: nat)
    requires Ok(a) && Ok(b) && PassInv(a, b, n, idx, idx) && idx < |b.polls| && !Live(b.polls[idx])
    ensures PassInv(a, b, n, idx + 1, idx + 1)
  {
    if Wanted(a, idx) {
      assert a.handlers[a.hids[idx]] == File(idx);
    }
  }

  lemma PassVisit(a: Snap, b: Snap, n: nat, idx: nat)
    requires Ok(a) && Ok(b) && PassInv(a, b, n, idx, idx) && idx < |b.polls| && Live(b.polls[idx])
    ensures PassInv(a, Moved(b, idx, n), n + 1, idx + 1, idx)
    ensures idx < |a.polls| ==> Live(a.polls[idx]) && a.polls[idx].revents == b.polls[idx].revents && a.hids[idx] == b.hids[idx]
    ensures idx >= |a.polls| ==> b.polls[idx].revents == NO_EVENT
  {
    assert b.handlers[b.hids[idx]] == File(idx);
  }

  lemma PassEdit(a: Snap, b: Snap, c: Snap, n: nat, visited: nat, done: nat)
    requires Ok(a) && Ok(b) && PassInv(a, b, n, visited, done) && Edited(b, c)
    ensures PassInv(a, c, n, visited, done)
  {
    assert b.log[|a.log|..] <= c.log[|a.log|..];
    forall j | 0 <= j < done && Wanted(a, j) && a.hids[j] in c.handlers ensures CallOf(a, j) in c.log[|a.log|..] {
      assert a.handlers[a.hids[j]] == File(j);
    }
  }

  /** The slot at hand needs no call. */
  lemma PassNoCall(a: Snap, b: Snap, n: nat, idx: nat)
    requires PassInv(a, b, n, idx + 1, idx) && !Wanted(a, idx)
    ensures PassInv(a, b, n, idx + 1, idx + 1) && idx < |b.polls|
  {
  }

  /** The handler at hand was removed meanwhile. */
  lemma PassDrop(a: Snap, b: Snap, n: nat, idx: nat)
    requires PassInv(a, b, n + 1, idx + 1, idx) && !Live(b.polls[n])
    requires idx < |a.polls| ==> a.hids[idx] !in b.handlers
    ensures PassInv(a, b, n, idx + 1, idx + 1) && idx < |b.polls|
  {
  }

  /** A handler whose slot died through edits is gone. */
  lemma GoneWithSlot(b: Snap, c: Snap, slot: nat)
    requires Ok(b) && Ok(c) && Edited(b, c) && slot < |b.polls| && Live(b.polls[slot])
    ensures slot < |c.polls| && c.hids[slot] == b.hids[slot]
    ensures !Live(c.polls[slot]) ==> c.hids[slot] !in c.handlers
  {
    assert b.handlers[b.hids[slot]] == File(slot);
  }

  /** What holds wherever a pass that began in a stops: at most one call each, and only calls due. */
  ghost predicate CallsDue(a: Snap, log: seq<Event>) {
    CallsFrom(a, log, |a.polls|) && CalledOnce(a, log)
  }

  lemma PassCallsDue(a: Snap, b: Snap, n: nat, visited: nat, done: nat)
    requires PassInv(a, b, n, visited, done)
    ensures CallsDue(a, b.log) && visited <= |b.polls|
  {
  }

  ghost function Resized(b: Snap, n: nat): Snap
    requires n <= |b.polls| && n <= |b.hids|
  {
    b.(polls := b.polls[..n], hids := b.hids[..n])
  }

  ghost predicate StillThere(a: Snap, b: Snap) {
    forall h {:trigger b.handlers[h]} {:trigger h in b.handlers} :: h in b.handlers && h < a.nextId ==>
      h in a.handlers && b.handlers[h].File? == a.handlers[h].File?
  }

  /** A pass that has visited everything. */
  ghost predicate PassDone(a: Snap, b: Snap) {
    CallsMade(a, b, |a.polls|) && KeptSlots(a, b, |b.hids|) && StillThere(a, b)
  }

  lemma PassEnds(a: Snap, b: Snap, n: nat)
    requires Ok(b) && PassInv(a, b, n, |b.polls|, |b.polls|)
    ensures n <= |b.polls| == |b.hids| && Ok(Resized(b, n)) && CallsDue(a, b.log) && PassDone(a, Resized(b, n))
  {
    ResizeOk(b, n);
  }

  lemma PassCall(a: Snap, b: Snap, n: nat, idx: nat)
    requires Ok(a) && PassInv(a, b, n, idx + 1, idx) && Wanted(a, idx)
    ensures PassInv(a, b.(log := b.log + [CallOf(a, idx)]), n, idx + 1, idx + 1)
  {
    assert (b.log + [CallOf(a, idx)])[|a.log|..] == b.log[|a.log|..] + [CallOf(a, idx)];
  }

  // ----- calls and what ppoll reported

  /** The reports of the live slots, by handler. */
  ghost function Reports(b: Snap): map<nat, FileEvents>
    requires Ok(b)
  {
    map h | h in b.handlers && b.handlers[h].File? :: ToFileEvents(b.polls[b.handlers[h].pollIdx].revents)
  }

  /** The poll array still shows what the last ppoll reported, and nobody has been called for it. */
  ghost predicate Fresh(a: Snap) {
    && CalledSince(a.log) == {} && |a.polls| == |a.hids|
    && forall j {:trigger a.polls[j]} {:trigger a.hids[j]} :: 0 <= j < |a.polls| && Live(a.polls[j]) ==>
         ToFileEvents(a.polls[j].revents) == ReportFor(a.log, a.hids[j])
  }

  ghost function ReportFor(log: seq<Event>, h: nat): FileEvents {
    if h in Reported(log) then Reported(log)[h] else NO_FILE_EVENTS
  }

  /** A pass over the poll array may begin. */
  ghost predicate Armed(a: Snap) { Fresh(a) && TimersSince(a.log) }

  lemma FreshAfterPoll(b: Snap)
    requires Ok(b) && TurnDone(b.log)
    ensures Ok(b.(log := b.log + [Polled(Reports(b))])) && Fresh(b.(log := b.log + [Polled(Reports(b))]))
  {
    LogAfterPoll(b.handlers, b.timed, b.nextId, b.log, Reports(b));
    forall j | 0 <= j < |b.polls| && Live(b.polls[j]) ensures b.hids[j] in Reports(b) {
      assert b.handlers[b.hids[j]] == File(j);
    }
  }

  /** Calls are all that changes after a ppoll. */
  lemma {:induction false} SincePoll(was: seq<Event>, log: seq<Event>)
    requires was <= log && forall k {:trigger log[k]} :: |was| <= k < |log| ==> !log[k].Polled?
    ensures Reported(log) == Reported(was) && (TimersSince(was) ==> TimersSince(log))
    ensures forall id :: id in CalledSince(log) ==>
              id in CalledSince(was) || exists k :: |was| <= k < |log| && log[k].Called? && log[k].id == id
    decreases |log|
  {
    if |was| < |log| {
      var n := |log| - 1;
      SincePoll(was, log[..n]);
      forall id | id in CalledSince(log) && id !in CalledSince(was)
        ensures exists k :: |was| <= k < |log| && log[k].Called? && log[k].id == id
      {
        if id in CalledSince(log[..n]) {
          var k :| |was| <= k < n && log[..n][k].Called? && log[..n][k].id == id;
          assert log[k].Called? && log[k].id == id;
        } else {
          assert log[n].Called? && log[n].id == id;
        }
      }
    } else {
      assert was == log;
    }
  }

  lemma {:induction false} CallsCount(log: seq<Event>, k: nat)
    requires k < |log| && log[k].Called? && forall i {:trigger log[i]} :: k < i < |log| ==> !log[i].Polled?
    ensures log[k].id in CalledSince(log)
    decreases |log|
  {
    var n := |log| - 1;
    if k < n {
      CallsCount(log[..n], k);
    }
  }

  lemma {:induction false} RoundGoesOn(was: seq<Event>, log: seq<Event>)
    requires FiredSince(was) && OnlyEdits(was, log)
    ensures FiredSince(log)
    decreases |log|
  {
    if |was| < |log| {
      var n := |log| - 1;
      RoundGoesOn(was, log[..n]);
    } else {
      assert was == log;
    }
  }

  lemma FreshAfterEdit(b: Snap, c: Snap)
    requires Ok(b) && Fresh(b) && Edited(b, c)
    ensures Fresh(c)
  {
    SincePoll(b.log, c.log);
    forall j | 0 <= j < |c.polls| && Live(c.polls[j])
      ensures ToFileEvents(c.polls[j].revents) == ReportFor(c.log, c.hids[j])
    {
      if j < |b.polls| {
        assert Live(b.polls[j]);
      }
    }
  }

  /** A pass that has run through has delivered all that ppoll reported. */
  lemma PassDelivers(a: Snap, b: Snap)
    requires Ok(a) && Ok(b) && Fresh(a) && CallsDue(a, b.log) && PassDone(a, b)
    ensures Delivered(b.log)
  {
    hide Sound, Pending;
    SincePoll(a.log, b.log);
    forall h | h in Reported(b.log) && Reported(b.log)[h] != NO_FILE_EVENTS && h in Files(b.log) ensures h in CalledSince(b.log) {
      assert h in b.handlers && h < a.nextId;
      var j := a.handlers[h].pollIdx;
      assert Live(a.polls[j]) && a.hids[j] == h;
      assert Wanted(a, j);
      assert CallOf(a, j) in b.log[|a.log|..];
      var k :| 0 <= k < |b.log[|a.log|..]| && b.log[|a.log|..][k] == CallOf(a, j);
      CallsCount(b.log, |a.log| + k);
    }
  }

  /** In a pass that began in a, the handler at hand is due for a call and has not had it. */
  lemma DueInPass(a: Snap, log: seq<Event>, idx: nat)
    requires Ok(a) && Armed(a) && CallsFrom(a, log, idx) && Wanted(a, idx)
    ensures var id := a.hids[idx];
            && id !in CalledSince(log) && id in Reported(log) && Reported(log)[id] == ToFileEvents(a.polls[idx].revents)
            && TimersSince(log)
  {
    hide Sound, Pending, Files;
    SincePoll(a.log, log);
    var id := a.hids[idx];
    assert a.handlers[id] == File(idx);
    forall k | |a.log| <= k < |log| && log[k].Called? ensures log[k].id != id {
      var j :| 0 <= j < idx && Wanted(a, j) && CallOf(a, j) == log[k];
      assert a.handlers[a.hids[j]] == File(j);
    }
  }

  /** Recording the call keeps the queue consistent and the pass going. */
  lemma CalledInPass(a: Snap, b: Snap, n: nat, idx: nat, slot: nat)
    requires Ok(a) && Armed(a) && Ok(b) && PassInv(a, b, n, idx + 1, idx) && Wanted(a, idx)
    requires slot < |b.polls| && Live(b.polls[slot]) && slot < |b.hids| && a.hids[idx] == b.hids[slot]
    ensures Ok(b.(log := b.log + [CallOf(a, idx)])) && PassInv(a, b.(log := b.log + [CallOf(a, idx)]), n, idx + 1, idx + 1)
  {
    PassCall(a, b, n, idx);
    DueInPass(a, b.log, idx);
    hide PassInv, Armed, LogOk;
    assert b.handlers[b.hids[slot]].File?;
    LogAfterCall(b.handlers, b.timed, b.nextId, b.log, a.hids[idx], ToFileEvents(a.polls[idx].revents));
  }

  lemma {:induction false} SoundAt(log: seq<Event>, i: nat)
    requires Sound(log) && i < |log|
    ensures Sound(log[..i]) && EventOk(log[..i], log[i])
    decreases |log|
  {
    var n := |log| - 1;
    if i < n {
      SoundAt(log[..n], i);
      assert log[..n][..i] == log[..i];
    }
  }

  /** In every sound history each file callback goes back to a report of ppoll: the last ppoll before it
      reported exactly these events for this handler, and the handler was not called in between. */
  lemma CallsFollowReports(log: seq<Event>, i: nat) returns (k: nat)
    requires Sound(log) && i < |log| && log[i].Called?
    ensures k < i && log[k].Polled? && log[i].id in log[k].reports && log[k].reports[log[i].id] == log[i].events
    ensures forall j :: k < j < i ==> !log[j].Polled? && !(log[j].Called? && log[j].id == log[i].id)
  {
    SoundAt(log, i);
    k := LastReport(log[..i], log[i].id);
    forall j | k < j < i ensures !log[j].Polled? && !(log[j].Called? && log[j].id == log[i].id) {
      assert log[..i][j] == log[j];
    }
  }

  lemma {:induction false} LastReport(log: seq<Event>, id: nat) returns (k: nat)
    requires id in Reported(log) && id !in CalledSince(log)
    ensures k < |log| && log[k].Polled? && log[k].reports == Reported(log)
    ensures forall j :: k < j < |log| ==> !log[j].Polled? && !(log[j].Called? && log[j].id == id)
  {
    var n := |log| - 1;
    if log[n].Polled? {
      k := n;
    } else {
      k := LastReport(log[..n], id);
      forall j | k < j < n ensures !log[j].Polled? && !(log[j].Called? && log[j].id == id) {
        assert log[..n][j] == log[j];
      }
    }
  }

  /** So between two ppoll returns a handler is called at most once. */
  lemma OneCallPerPoll(log: seq<Event>, i: nat, j: nat) returns (k: nat)
    requires Sound(log) && i < j < |log| && log[i].Called? && log[j].Called? && log[i].id == log[j].id
    ensures i < k < j && log[k].Polled?
  {
    k := CallsFollowReports(log, j);
  }

  lemma {:induction false} LastPoll(log: seq<Event>, i: nat)
    requires i < |log| && log[i].Polled? && forall j {:trigger log[j]} :: i < j < |log| ==> !log[j].Polled? && !log[j].Entered?
    ensures Reported(log) == log[i].reports && !Resumed(log)
    ensures forall h :: h in CalledSince(log) ==> exists j :: i < j < |log| && log[j].Called? && log[j].id == h
    ensures TimersSince(log) ==> exists j :: i < j < |log| && log[j].TimersDone?
    decreases |log|
  {
    var n := |log| - 1;
    if i < n {
      var rest := log[..n];
      LastPoll(rest, i);
      forall h | h in CalledSince(log) ensures exists j :: i < j < |log| && log[j].Called? && log[j].id == h {
        if h in CalledSince(rest) {
          var j :| i < j < n && rest[j].Called? && rest[j].id == h;
          assert log[j].Called? && log[j].id == h;
        } else {
          assert log[n].Called? && log[n].id == h;
        }
      }
      if TimersSince(rest) {
        var j :| i < j < n && rest[j].TimersDone?;
        assert log[j].TimersDone?;
      } else if TimersSince(log) {
        assert log[n].TimersDone?;
      }
    }
  }

  lemma {:induction false} GoneIsRemoved(log: seq<Event>, i: nat, h: nat)
    requires i <= |log| && h in Files(log[..i]) && h !in Files(log)
    ensures exists j :: i <= j < |log| && log[j] == Removed(h)
    decreases |log|
  {
    var n := |log| - 1;
    assert log[..|log|] == log;
    if h in Files(log[..n]) {
      assert log[n] == Removed(h);
    } else {
      assert log[..n][..i] == log[..i];
      GoneIsRemoved(log[..n], i, h);
      var j :| i <= j < n && log[..n][j] == Removed(h);
      assert log[j] == Removed(h);
    }
  }

  /** In every sound history what one ppoll reports for a handler is delivered before the next ppoll of the
      same run, with exactly the reported events, unless the handler is removed in between. */
  lemma ReportsAreDelivered(log: seq<Event>, i: nat, k: nat, h: nat)
    requires Sound(log) && i < k < |log| && log[i].Polled? && log[k].Polled?
    requires forall j {:trigger log[j]} :: i < j < k ==> !log[j].Polled? && !log[j].Entered?
    requires h in log[i].reports && log[i].reports[h] != NO_FILE_EVENTS
    ensures exists j :: i < j < k && (log[j] == Called(h, log[i].reports[h]) || log[j] == Removed(h))
  {
    SoundAt(log, k);
    LastPoll(log[..k], i);
    if h in Files(log[..k]) {
      var j :| i < j < k && log[..k][j].Called? && log[..k][j].id == h;
      SoundAt(log, j);
      LastPoll(log[..j], i);
      assert log[j] == Called(h, log[i].reports[h]);
    } else {
      SoundAt(log, i);
      assert log[..k][..i] == log[..i];
      GoneIsRemoved(log[..k], i, h);
      var j :| i <= j < k && log[..k][j] == Removed(h);
      assert log[j] == Removed(h);
    }
  }

  /** Nor does the next ppoll of a run come before a round of timed handlers. It ended either with nothing
      due, or with a handler fired and the time quantum used up. */
  lemma TimersComeFirst(log: seq<Event>, i: nat, k: nat) returns (j: nat)
    requires Sound(log) && i < k < |log| && log[i].Polled? && log[k].Polled?
    requires forall j {:trigger log[j]} :: i < j < k ==> !log[j].Polled? && !log[j].Entered?
    ensures i < j < k && log[j].TimersDone? && forall p :: p in Pending(log[..j]) && p.0 <= log[j].now ==>
              log[j].now > log[j].start + TIME_QUANTUM && FiredSince(log[..j])
  {
    SoundAt(log, k);
    LastPoll(log[..k], i);
    j :| i < j < k && log[..k][j].TimersDone?;
    SoundAt(log, j);
  }

  // ----- the world outside

  /** A return of ppoll: -1 on error, else the number of ready descriptors. */
  datatype PollResult = PollResult(ready: int, interrupted: bool, revents: nat -> Revents)

  /** An event that no handler takes. */
  predicate Invalid(r: Revents) { r != NO_EVENT && ToFileEvents(r) == NO_FILE_EVENTS && !r.priOrRdhup }

  predicate PollFails(r: PollResult) { r.ready == -1 && !r.interrupted }

  ghost predicate Rejected(r: PollResult) { PollFails(r) || exists i :: Invalid(r.revents(i)) }

  ghost predicate SomeRejected(results: seq<PollResult>) { exists k :: 0 <= k < |results| && Rejected(results[k]) }

  /** The poll array holds what ppoll has written. */
  ghost predicate Shows(polls: seq<PollFd>, r: PollResult) {
    r.ready > 0 && forall i :: 0 <= i < |polls| && Live(polls[i]) ==> polls[i].revents == r.revents(i)
  }

  /** The last ppoll reported nothing. */
  ghost predicate Quiet(log: seq<Event>) {
    forall h :: h in Reported(log) ==> Reported(log)[h] == NO_FILE_EVENTS
  }

  ghost predicate Rejects(a: Snap) { exists i :: 0 <= i < |a.polls| && Live(a.polls[i]) && Invalid(a.polls[i].revents) }

  ghost predicate HasFiles(handlers: map<nat, Handler>) { exists h :: h in handlers && handlers[h].File? }

  /** What a return of ppoll reports, by file handler; nothing when it was interrupted or not called. */
  ghost function PollReports(handlers: map<nat, Handler>, r: PollResult): map<nat, FileEvents> {
    if !HasFiles(handlers) || r.ready < 0 then map[]
    else map h | h in handlers && handlers[h].File? ::
           if r.ready > 0 then ToFileEvents(r.revents(handlers[h].pollIdx)) else NO_FILE_EVENTS
  }

  /** The scripts of callbacks not run yet, how often another thread has asked for a pause, and whether a pause
      is requested. */
  datatype Outside = Outside(scripts: seq<Script>, asks: nat, paused: bool)

  predicate Pauses(s: Script) { Pause in s.ops }

  /** Between a and b callbacks ran, each by the next script. Once a pause is requested none runs, so that a
      callback that requests one is the last; so is one that throws, and then that is the outcome. A pause
      comes from a callback or another thread, and an exception from the last callback or for the reason
      given. */
  ghost predicate Went(a: Outside, b: Outside, o: Outcome, reason: bool) {
    var n := |a.scripts| - |b.scripts|;
    && 0 <= n && b.scripts == a.scripts[n..] && a.asks <= b.asks
    && (a.paused ==> n == 0)
    && (forall i :: 0 <= i < n && Pauses(a.scripts[i]) ==> i == n - 1)
    && (b.paused <==> a.paused || a.asks < b.asks || exists i :: 0 <= i < n && Pauses(a.scripts[i]))
    && (forall i :: 0 <= i < n && a.scripts[i].throws ==> i == n - 1 && o == Threw)
    && (o == Threw ==> reason || (n > 0 && a.scripts[n - 1].throws))
    && (o == Unknown ==> b.scripts == [])
  }

  lemma WentNowhere(a: Outside, o: Outcome, reason: bool)
    requires o == Returned || (o == Threw && reason)
    ensures Went(a, a, o, reason)
  {
  }

  lemma WentOn(a: Outside, b: Outside, c: Outside, o: Outcome, reason: bool)
    requires Went(a, b, Returned, false) && Went(b, c, o, reason)
    ensures Went(a, c, o, reason)
  {
    var n, m := |a.scripts| - |b.scripts|, |b.scripts| - |c.scripts|;
    assert c.scripts == a.scripts[n + m..];
    forall i | n <= i < n + m ensures a.scripts[i] == b.scripts[i - n] {
    }
    if i :| 0 <= i < m && Pauses(b.scripts[i]) {
      assert Pauses(a.scripts[n + i]);
    }
  }

  lemma PollFailed(a: Outside, r: PollResult)
    requires PollFails(r)
    ensures Went(a, a, Threw, Rejected(r))
  {
  }

  lemma WentBy(a: Outside, b: Outside, o: Outcome, reason: bool, reason': bool)
    requires Went(a, b, o, reason) && (o == Threw && reason ==> reason')
    ensures Went(a, b, o, reason') && (o == Unknown ==> Went(a, b, Returned, reason'))
  {
  }

  /** Another thread may have asked for a pause. */
  lemma WentQuery(a: Outside, b: Outside)
    requires b.scripts == a.scripts && a.asks <= b.asks && b.paused == (a.paused || a.asks < b.asks)
    ensures Went(a, b, Returned, false)
  {
  }

  /** A callback ran by the next script. */
  ghost predicate RanNext(was: seq<Script>, now: seq<Script>, o: Outcome) {
    if was == [] then o == Unknown && now == [] else o == (if was[0].throws then Threw else Returned) && now == was[1..]
  }

  lemma WentCallback(a: Outside, b: Outside, o: Outcome)
    requires !a.paused && b.asks == a.asks
    requires RanNext(a.scripts, b.scripts, o) && b.paused == (a.scripts != [] && Pauses(a.scripts[0]))
    ensures Went(a, b, o, false)
  {
    if a.scripts != [] {
      assert Pauses(a.scripts[0]) == Pauses(a.scripts[0]);
    }
  }

  /** How many returns of ppoll a history holds. */
  ghost function Polls(log: seq<Event>): nat {
    if log == [] then 0 else Polls(log[..|log| - 1]) + (if log[|log| - 1].Polled? then 1 else 0)
  }

  lemma {:induction false} PollsSame(was: seq<Event>, log: seq<Event>)
    requires was <= log && forall k {:trigger log[k]} :: |was| <= k < |log| ==> !log[k].Polled?
    ensures Polls(log) == Polls(was)
    decreases |log|
  {
    if |was| < |log| {
      PollsSame(was, log[..|log| - 1]);
    } else {
      assert was == log;
    }
  }

  lemma ReportsAre(b: Snap, r: PollResult)
    requires Ok(b) && HasFiles(b.handlers) && r.ready >= 0
    requires forall i :: 0 <= i < |b.polls| && Live(b.polls[i]) ==> b.polls[i].revents == if r.ready > 0 then r.revents(i) else NO_EVENT
    ensures Reports(b) == PollReports(b.handlers, r)
  {
  }

  /** What an edited queue rejects was rejected by ppoll. */
  lemma RejectsReported(b: Snap, c: Snap, r: PollResult)
    requires Ok(b) && Edited(b, c) && Shows(b.polls, r)
    ensures Rejects(c) ==> Rejected(r)
  {
    if !Rejects(c) {
      return;
    }
    var i :| 0 <= i < |c.polls| && Live(c.polls[i]) && Invalid(c.polls[i].revents);
    assert i < |b.polls| && Live(b.polls[i]);
    assert Invalid(r.revents(i));
  }

  /** A round of timed handlers completes a turn in which nothing was reported. */
  lemma QuietTurn(b: Snap, c: Snap)
    requires Edited(b, c) && TimersSince(c.log) && Quiet(b.log)
    ensures TurnDone(c.log)
  {
    SincePoll(b.log, c.log);
  }

  lemma BusyTurn(a: Snap, b: Snap)
    requires Ok(a) && Ok(b) && Armed(a) && CallsDue(a, b.log) && PassDone(a, b)
    ensures TurnDone(b.log)
  {
    PassDelivers(a, b);
    SincePoll(a.log, b.log);
  }

  lemma AfterPoll(log: seq<Event>, reports: map<nat, FileEvents>)
    ensures Polls(log + [Polled(reports)]) == Polls(log) + 1 && Reported(log + [Polled(reports)]) == reports
  {
    Append(log, Polled(reports));
  }

  lemma EditedPolls(b: Snap, c: Snap)
    requires Edited(b, c)
    ensures Polls(c.log) == Polls(b.log) && b.log <= c.log
  {
    PollsSame(b.log, c.log);
  }

  lemma PassPolls(a: Snap, log: seq<Event>)
    requires CallsDue(a, log)
    ensures Polls(log) == Polls(a.log) && a.log <= log
  {
    PollsSame(a.log, log);
  }

  /** Supplies one script per callback, the clock, and whether another thread has asked for a pause. */
  class World {
    var scripts: seq<Script>
    var queries: nat
    ghost var asks: nat
    const clock: nat -> int
    const pauseAsked: nat -> bool

    constructor (scripts: seq<Script>, clock: nat -> int, pauseAsked: nat -> bool)
      ensures this.scripts == scripts && this.clock == clock && this.pauseAsked == pauseAsked
    {
      this.scripts, this.queries, this.asks, this.clock, this.pauseAsked := scripts, 0, 0, clock, pauseAsked;
    }

    /** The clock at a query. */
    function Reading(q: nat): int { clock(q) }

    function Asks(q: nat): nat { if pauseAsked(q) then 1 else 0 }

    /** The round recorded last began with the given reading and ended with the last one before to. */
    ghost predicate Timed(log: seq<Event>, from: nat, to: nat) {
      to > 0 && EndsWith(log, TimersDone(Reading(from), Reading(to - 1)))
    }

    lemma IsTimed(log: seq<Event>, from: nat, to: nat, start: int, now: int)
      requires EndsWith(log, TimersDone(start, now)) && start == Reading(from) && to > 0 && now == Reading(to - 1)
      ensures Timed(log, from, to)
    {
    }

    method Now() returns (t: int)
      modifies this`queries
      ensures t == Reading(old(queries)) && queries == old(queries) + 1
    {
      t := clock(queries);
      queries := queries + 1;
    }

    method PauseAsked() returns (b: bool)
      modifies this`queries, this`asks
      ensures b == pauseAsked(old(queries)) && queries == old(queries) + 1 && asks == old(asks) + Asks(old(queries))
    {
      b := pauseAsked(queries);
      queries := queries + 1;
      asks := asks + if b then 1 else 0;
    }
  }

  class EventQueue {
    var nextId: nat
    var handlers: map<nat, Handler>
    var timed: set<(int, nat)>
    var polls: seq<PollFd>
    var hids: seq<nat>
    var immediatePause: bool
    ghost var log: seq<Event>

    ghost function Now(): Snap reads this {
      Snap(handlers, timed, polls, hids, nextId, log)
    }

    ghost function Seen(world: World): Outside reads this, world {
      Outside(world.scripts, world.asks, immediatePause)
    }

    ghost predicate Valid() reads this {
      Ok(Now())
    }

    /** Registers the handler that makes ppoll wake on a pause request. */
    constructor (immediatePauseFd: nat)
      ensures Valid() && handlers == map[0 := File(0)] && timed == {} && polls == [PollFd(immediatePauseFd, NO_EVENT)]
      ensures log == [AddedFile(0)] && !immediatePause
    {
      nextId, handlers, timed, polls, hids, immediatePause, log := 0, map[], {}, [], [], false, [];
      new;
      hide Ok, Edited;
      EmptyOk();
      var id := AddFileHandler(immediatePauseFd);
    }

    method NewHandlerId() returns (id: nat)
      modifies this`nextId
      ensures id == old(nextId) && nextId == id + 1
    {
      id := nextId;
      nextId := nextId + 1;
    }

    method AddTimeHandler(tp: int) returns (id: nat)
      requires Valid()
      modifies this
      ensures Valid() && id == old(nextId) && log == old(log) + [AddedTimed(id, tp)]
      ensures handlers == old(handlers)[id := Timed(tp)] && id !in old(handlers)
      ensures polls == old(polls) && hids == old(hids) && immediatePause == old(immediatePause)
      ensures Edited(old(Now()), Now())
    {
      SlotsAfterAddTimed(handlers, polls, hids, nextId, tp);
      TimersAfterAddTimed(handlers, timed, nextId, tp);
      LogAfterAddTimed(handlers, timed, nextId, log, tp);
      id := NewHandlerId();
      handlers := handlers[id := Timed(tp)];
      timed := timed + {(tp, id)};
      log := log + [AddedTimed(id, tp)];
      OneEdit(old(Now()), Now(), AddedTimed(id, tp));
    }

    /** The cross-indexing survives exactly when the descriptor is not negative: a negative one makes the
        new slot look removed. */
    method AddFileHandler(fd: int) returns (id: nat)
      requires Valid()
      modifies this
      ensures Valid() <==> fd >= 0
      ensures id == old(nextId) && log == old(log) + [AddedFile(id)]
      ensures handlers == old(handlers)[id := File(|old(polls)|)] && id !in old(handlers)
      ensures polls == old(polls) + [PollFd(fd, NO_EVENT)] && hids == old(hids) + [id]
      ensures immediatePause == old(immediatePause) && Edited(old(Now()), Now())
    {
      SlotsAfterAddFile(handlers, polls, hids, nextId, fd);
      TimersAfterAddFile(handlers, timed, nextId, |polls|);
      LogAfterAddFile(handlers, timed, nextId, log, |polls|);
      id := NewHandlerId();
      handlers := handlers[id := File(|polls|)];
      hids := hids + [id];
      polls := polls + [PollFd(fd, NO_EVENT)];
      log := log + [AddedFile(id)];
      OneEdit(old(Now()), Now(), AddedFile(id));
    }

    method RemoveHandler(id: nat)
      requires Valid() && id in handlers
      modifies this
      ensures Valid() && log == old(log) + [Removed(id)]
      ensures handlers == old(handlers) - {id} && hids == old(hids)
      ensures polls == PollsAfterRemove(old(handlers), old(polls), id)
      ensures immediatePause == old(immediatePause) && nextId == old(nextId) && Edited(old(Now()), Now())
    {
      SlotsAfterRemove(handlers, polls, hids, id);
      TimersAfterRemove(handlers, timed, id);
      LogAfterRemove(handlers, timed, nextId, log, id);
      match handlers[id] {
        case Timed(tp) => timed := timed - {(tp, id)};
        case File(i) => polls := polls[i := polls[i].(fd := -1)];
      }
      handlers := handlers - {id};
      log := log + [Removed(id)];
      OneEdit(old(Now()), Now(), Removed(id));
    }

    /** immediate_pause_was_requested(): another thread may have asked in the meantime. */
    method PauseRequested(world: World, ghost seen: Outside) returns (b: bool)
      requires Went(seen, Seen(world), Returned, false)
      modifies this`immediatePause, world`queries, world`asks
      ensures b == immediatePause == (old(immediatePause) || old(world.asks) < world.asks)
      ensures world.asks == old(world.asks) + world.Asks(old(world.queries))
      ensures world.queries == old(world.queries) + 1
      ensures Went(seen, Seen(world), Returned, false)
    {
      b := world.PauseAsked();
      b := b || immediatePause;
      immediatePause := b;
      WentQuery(old(Seen(world)), Seen(world));
      WentOn(seen, old(Seen(world)), Seen(world), Returned, false);
    }

    method ReadClock(world: World, ghost seen: Outside) returns (t: int)
      requires Went(seen, Seen(world), Returned, false)
      modifies world`queries
      ensures t == world.Reading(old(world.queries)) && world.queries == old(world.queries) + 1
      ensures Went(seen, Seen(world), Returned, false)
    {
      t := world.Now();
    }

    /** One operation of a callback; removing a handler that is not there is forbidden and skipped. */
    method Perform(op: Op)
      requires Valid()
      modifies this
      ensures Valid() && Edited(old(Now()), Now()) && OnlyEdits(old(log), log)
      ensures immediatePause == (old(immediatePause) || op.Pause?)
    {
      match op {
        case AddTimed(tp) => var id := AddTimeHandler(tp);
        case AddFile(fd) => var id := AddFileHandler(fd);
        case Remove(id) =>
          if id in handlers {
            RemoveHandler(id);
          } else {
            EditedReflexive(Now());
          }
        case Pause =>
          immediatePause := true;
          EditedReflexive(Now());
      }
    }

    /** Runs the next callback of the world. */
    method RunCallback(world: World) returns (o: Outcome)
      requires Valid() && !immediatePause
      modifies this, world`scripts
      ensures Valid() && Edited(old(Now()), Now()) && OnlyEdits(old(log), log)
      ensures RanNext(old(world.scripts), world.scripts, o)
      ensures |world.scripts| <= |old(world.scripts)| && (o == Returned ==> |world.scripts| < |old(world.scripts)|)
      ensures Went(old(Seen(world)), Seen(world), o, false)
    {
      if world.scripts == [] {
        WentCallback(old(Seen(world)), Seen(world), Unknown);
        return Unknown;
      }
      var script := world.scripts[0];
      world.scripts := world.scripts[1..];
      for k := 0 to |script.ops|
        invariant Valid() && Edited(old(Now()), Now()) && OnlyEdits(old(log), log)
        invariant immediatePause == (Pause in script.ops[..k])
        invariant world.scripts == old(world.scripts[1..])
      {
        ghost var before := Now();
        Perform(script.ops[k]);
        assert script.ops[..k + 1] == script.ops[..k] + [script.ops[k]];
        EditedTransitive(old(Now()), before, Now());
      }
      assert script.ops[..|script.ops|] == script.ops;
      o := if script.throws then Threw else Returned;
      WentCallback(old(Seen(world)), Seen(world), o);
    }

    /** Takes the earliest timed handler out of the queue when its time has come. */
    method TakeFirst(now: int) returns (due: bool)
      requires Valid() && timed != {}
      modifies this
      ensures Valid() && immediatePause == old(immediatePause) && polls == old(polls)
      ensures due == exists p :: p in old(timed) && p.0 <= now
      ensures if due then Edited(old(Now()), Now()) && FiredOne(old(Now()), Now(), now) && FiredSince(log) else Now() == old(Now())
    {
      ghost var earliest := EarliestExists(timed);
      var first :| first in timed && forall p :: p in timed ==> NotAfter(first, p);
      var (tp, id) := first;
      if tp > now {
        forall p | p in timed ensures p.0 > now {
          assert NotAfter(first, p);
        }
        return false;
      }
      SlotsAfterRemove(handlers, polls, hids, id);
      TimersAfterRemove(handlers, timed, id);
      LogAfterFire(handlers, timed, nextId, log, tp, id, now);
      timed := timed - {first};
      handlers := handlers - {id};
      log := log + [Fired(id, tp, now)];
      Append(old(log), Fired(id, tp, now));
      OneEdit(old(Now()), Now(), Fired(id, tp, now));
      return true;
    }

    /** Records that a round of timed handlers has ended. */
    ghost method FinishRound(start: int, now: int, entry: Snap)
      requires Valid() && Edited(entry, Now()) && RoundOver(timed, log, start, now)
      modifies this`log
      ensures Valid() && Edited(entry, Now()) && EndsWith(log, TimersDone(start, now)) && TimersSince(log)
    {
      LogAfterTimers(handlers, timed, nextId, log, start, now);
      log := log + [TimersDone(start, now)];
      OneEdit(old(Now()), Now(), TimersDone(start, now));
      EditedTransitive(entry, old(Now()), Now());
    }

    /** Runs the callback of the handler that has just fired. */
    method FireCallback(world: World, ghost entry: Snap, ghost seen: Outside) returns (o: Outcome)
      requires Valid() && Edited(entry, Now()) && FiredSince(log) && !immediatePause
      requires Went(seen, Seen(world), Returned, false)
      modifies this, world
      ensures Valid() && Edited(entry, Now()) && FiredSince(log) && Went(seen, Seen(world), o, false)
      ensures |world.scripts| <= |old(world.scripts)| && (o == Returned ==> |world.scripts| < |old(world.scripts)|)
    {
      hide Ok, Edited, Went, FiredSince, OnlyEdits, RanNext, World.Asks;
      o := RunCallback(world);
      EditedTransitive(entry, old(Now()), Now());
      RoundGoesOn(old(log), log);
      WentOn(seen, old(Seen(world)), Seen(world), o, false);
      if o == Returned {
        var pause := PauseRequested(world, seen);
      }
    }

    /** Fires the earliest timed handler if it is due. */
    method FireFirst(world: World, now: int, ghost entry: Snap, ghost seen: Outside) returns (due: bool, o: Outcome)
      requires Valid() && Edited(entry, Now()) && !immediatePause && timed != {}
      requires Went(seen, Seen(world), Returned, false)
      modifies this, world
      ensures Valid() && Edited(entry, Now()) && Went(seen, Seen(world), o, false)
      ensures due ==> FiredSince(log) && |world.scripts| <= |old(world.scripts)| && (o == Returned ==> |world.scripts| < |old(world.scripts)|)
      ensures !due ==> o == Returned && Now() == old(Now()) && Seen(world) == old(Seen(world)) && world.queries == old(world.queries)
      ensures !due ==> forall p :: p in timed ==> p.0 > now
    {
      hide Ok, Edited, Went, FiredSince, FiredOne;
      o := Returned;
      due := TakeFirst(now);
      if due {
        EditedTransitive(entry, old(Now()), Now());
        o := FireCallback(world, entry, seen);
      }
    }

    /** Fires due handlers one after another. */
    method FireRound(world: World, start: int, ghost entry: Snap, ghost seen: Outside) returns (o: Outcome, now: int)
      requires Valid() && Edited(entry, Now()) && !immediatePause
      requires Went(seen, Seen(world), Returned, false)
      requires world.queries > 0 && start == world.Reading(world.queries - 1)
      modifies this, world
      ensures Valid() && Edited(entry, Now()) && Went(seen, Seen(world), o, false)
      ensures |world.scripts| < |old(world.scripts)| || (|world.scripts| == |old(world.scripts)| && (o == Returned ==> polls == old(polls)))
      ensures o == Returned && !immediatePause ==> RoundOver(timed, log, start, now)
      ensures o == Returned && !immediatePause ==> world.queries > 0 && now == world.Reading(world.queries - 1)
    {
      hide Ok, Edited, Went, FiredSince, World.Reading, World.Asks;
      o, now := Returned, start;
      while timed != {}
        invariant Valid() && Edited(entry, Now()) && !immediatePause && o == Returned
        invariant Went(seen, Seen(world), Returned, false)
        invariant world.queries > 0 && now == world.Reading(world.queries - 1)
        invariant |world.scripts| < |old(world.scripts)| || (|world.scripts| == |old(world.scripts)| && polls == old(polls))
        decreases |world.scripts|
      {
        var due;
        due, o := FireFirst(world, now, entry, seen);
        if !due || o != Returned || immediatePause {
          return;
        }
        now := ReadClock(world, seen);
        if now > start + TIME_QUANTUM {
          return;
        }
      }
    }

    /** Fires due handlers one after another until none is due at the last reading of the clock, the time
        quantum has passed since the first one, a pause is requested or a callback throws. */
    method ProcessTimedHandlers(world: World) returns (o: Outcome)
      requires Valid()
      modifies this, world
      ensures Valid() && Edited(old(Now()), Now())
      ensures Went(old(Seen(world)), Seen(world), o, false)
      ensures |world.scripts| < |old(world.scripts)| || (|world.scripts| == |old(world.scripts)| && (o == Returned ==> polls == old(polls)))
      ensures o == Returned && !immediatePause ==> TimersSince(log)
      ensures o == Returned && !immediatePause && old(timed) != {} ==> world.Timed(log, old(world.queries) + 1, world.queries)
    {
      SameLengths(Now());
      ghost var entry, seen := Now(), Seen(world);
      hide Ok, Edited, Went, TimersSince, EndsWith, World.Timed;
      EditedReflexive(entry);
      WentNowhere(seen, Returned, false);
      if timed == {} {
        FinishRound(0, 0, entry);
        return Returned;
      }
      o := TimedRound(world, entry, seen);
    }

    /** The same when there are timed handlers. */
    method TimedRound(world: World, ghost entry: Snap, ghost seen: Outside) returns (o: Outcome)
      requires Valid() && Edited(entry, Now()) && Went(seen, Seen(world), Returned, false)
      modifies this, world
      ensures Valid() && Edited(entry, Now()) && Went(seen, Seen(world), o, false)
      ensures |world.scripts| < |old(world.scripts)| || (|world.scripts| == |old(world.scripts)| && (o == Returned ==> polls == old(polls)))
      ensures o == Returned && !immediatePause ==> TimersSince(log) && world.Timed(log, old(world.queries) + 1, world.queries)
    {
      hide Ok, Edited, Went, TimersSince, EndsWith, RoundOver, World.Reading, World.Timed, World.Asks;
      var pause := PauseRequested(world, seen);
      if pause {
        return Returned;
      }
      var start := ReadClock(world, seen);
      var now;
      o, now := FireRound(world, start, entry, seen);
      if o == Returned && !immediatePause {
        FinishRound(start, now, entry);
        world.IsTimed(log, old(world.queries) + 1, world.queries, start, now);
      }
    }

    /** Compacts the poll array and calls the handlers with events. However callbacks change the queue, and
        wherever the pass stops, each handler is called at most once, with the events reported for it, and
        only if it was there when the pass began; a pass that runs through calls every such handler that
        is not removed, and leaves no slot of a handler removed before the pass. */
    method ProcessFileEvents(world: World) returns (o: Outcome)
      requires Valid() && (immediatePause || Armed(Now()))
      modifies this, world
      ensures Valid() && CallsDue(old(Now()), log)
      ensures Went(old(Seen(world)), Seen(world), o, Rejects(old(Now())))
      ensures o == Returned && !immediatePause ==> !old(immediatePause) && PassDone(old(Now()), Now())
    {
      hide Ok, PassInv, CallsDue, PassDone, Armed, Went, Rejects, World.Asks, World.Reading;
      ghost var a, seen := Now(), Seen(world);
      PassStart(a);
      PassCallsDue(a, a, 0, 0, 0);
      WentNowhere(seen, Returned, false);
      var pause := PauseRequested(world, seen);
      WentBy(seen, Seen(world), Returned, false, Rejects(a));
      if pause {
        return Returned;
      }
      var quantumStart := ReadClock(world, seen);
      o := VisitSlots(world, quantumStart, a, seen);
    }

    /** The pass itself. */
    method VisitSlots(world: World, quantumStart: int, ghost a: Snap, ghost seen: Outside) returns (o: Outcome)
      requires Valid() && a == Now() && Armed(a) && !immediatePause && Went(seen, Seen(world), Returned, false)
      modifies this, world
      ensures Valid() && CallsDue(a, log) && Went(seen, Seen(world), o, Rejects(a))
      ensures o == Returned && !immediatePause ==> PassDone(a, Now())
    {
      hide Ok, PassInv, CallsDue, PassDone, Armed, Went, Rejects;
      PassStart(a);
      var n: nat, idx: nat, quantumStart := 0, 0, quantumStart;
      while idx < |polls|
        invariant Valid() && PassInv(a, Now(), n, idx, idx) && !immediatePause && idx <= |polls|
        invariant Went(seen, Seen(world), Returned, false)
        decreases |world.scripts|, |polls| - idx
      {
        if polls[idx].fd < 0 {
          PassSkipDead(a, Now(), n, idx);
        } else {
          assert Live(polls[idx]);
          var stop;
          o, stop, n, quantumStart := VisitSlot(world, idx, n, quantumStart, a, seen);
          if stop {
            return;
          }
        }
        idx := idx + 1;
      }
      PassEnds(a, Now(), n);
      WentBy(seen, Seen(world), Returned, false, Rejects(a));
      polls := polls[..n];
      hids := hids[..n];
      o := Returned;
    }

    /** The loop body for a live slot: move it, then call its handler if it has events. */
    method VisitSlot(world: World, idx: nat, n: nat, quantumStart: int, ghost a: Snap, ghost seen: Outside)
      returns (o: Outcome, stop: bool, kept: nat, quantumStart': int)
      requires Valid() && Ok(a) && Armed(a) && !immediatePause
      requires idx < |polls| && Live(polls[idx]) && PassInv(a, Now(), n, idx, idx)
      requires Went(seen, Seen(world), Returned, false)
      modifies this, world
      ensures Valid()
      ensures if stop then CallsDue(a, log) && (o == Returned ==> immediatePause) && Went(seen, Seen(world), o, Rejects(a))
              else !immediatePause && PassInv(a, Now(), kept, idx + 1, idx + 1) && idx < |polls| && Went(seen, Seen(world), Returned, false)
      ensures !stop ==> |world.scripts| < |old(world.scripts)| || (|world.scripts| == |old(world.scripts)| && |polls| == |old(polls)|)
    {
      hide Ok, PassInv, CallsDue, Armed, Went, Rejects, World.Asks, World.Reading;
      o, stop, kept, quantumStart' := Returned, false, n + 1, quantumStart;
      MoveSlot(idx, n, a);
      var revents := polls[n].revents;
      if revents == NO_EVENT {
        PassNoCall(a, Now(), n + 1, idx);
        return;
      }
      var t := ReadClock(world, seen);
      if t > quantumStart + TIME_QUANTUM {
        o, stop := TimersInPass(world, n, a, idx, seen);
        if stop {
          PassCallsDue(a, Now(), n + 1, idx + 1, idx);
          WentBy(seen, Seen(world), o, false, Rejects(a));
          return;
        }
        quantumStart' := ReadClock(world, seen);
        if polls[n].fd < 0 {
          PassDrop(a, Now(), n, idx);
          kept := n;
          return;
        }
      }
      o, stop := Deliver(world, n, revents, a, n + 1, idx, seen);
      PassCallsDue(a, Now(), n + 1, idx + 1, idx + 1);
    }

    /** Calls the handler of a slot for what ppoll reported, or rejects an event it cannot handle. */
    method Deliver(world: World, slot: nat, revents: Revents, ghost a: Snap, ghost n: nat, ghost idx: nat, ghost seen: Outside)
      returns (o: Outcome, stop: bool)
      requires Valid() && Ok(a) && Armed(a) && !immediatePause && PassInv(a, Now(), n, idx + 1, idx)
      requires slot < |polls| && Live(polls[slot]) && revents != NO_EVENT
      requires idx < |a.polls| && Live(a.polls[idx]) && a.polls[idx].revents == revents && a.hids[idx] == hids[slot]
      requires Went(seen, Seen(world), Returned, false)
      modifies this, world
      ensures Valid() && PassInv(a, Now(), n, idx + 1, idx + 1)
      ensures if stop then (o == Returned ==> immediatePause) && Went(seen, Seen(world), o, Rejects(a))
              else !immediatePause && Went(seen, Seen(world), Returned, false)
      ensures !stop ==> |world.scripts| < |old(world.scripts)| || (|world.scripts| == |old(world.scripts)| && |polls| == |old(polls)|)
    {
      hide Went, PassInv, Armed, World.Asks, World.Reading;
      var events := ToFileEvents(revents);
      if events != NO_FILE_EVENTS {
        o := CallHandler(world, slot, events, a, n, idx);
        WentOn(seen, old(Seen(world)), Seen(world), o, false);
        if o != Returned {
          WentBy(seen, Seen(world), o, false, Rejects(a));
          return o, true;
        }
        stop := PauseRequested(world, seen);
        WentBy(seen, Seen(world), Returned, false, Rejects(a));
      } else {
        PassNoCall(a, Now(), n, idx);
        if revents.priOrRdhup {
          o, stop := Returned, false;
        } else {
          assert Rejects(a);
          WentNowhere(Seen(world), Threw, true);
          WentOn(seen, Seen(world), Seen(world), Threw, true);
          o, stop := Threw, true;
        }
      }
    }

    /** Timed handlers run in the middle of a pass, between looking at a slot and calling its handler. */
    method TimersInPass(world: World, slot: nat, ghost a: Snap, ghost idx: nat, ghost seen: Outside) returns (o: Outcome, stop: bool)
      requires Valid() && Ok(a) && !immediatePause && PassInv(a, Now(), slot + 1, idx + 1, idx)
      requires slot < |polls| && Live(polls[slot])
      requires Went(seen, Seen(world), Returned, false)
      modifies this, world
      ensures Valid() && PassInv(a, Now(), slot + 1, idx + 1, idx) && slot < |polls|
      ensures Went(seen, Seen(world), o, false)
      ensures !stop ==> o == Returned && !immediatePause
      ensures stop && o == Returned ==> immediatePause
      ensures hids[slot] == old(hids[slot])
      ensures !Live(polls[slot]) ==> hids[slot] !in handlers
      ensures !stop ==> |world.scripts| < |old(world.scripts)| || (|world.scripts| == |old(world.scripts)| && |polls| == |old(polls)|)
    {
      hide Ok, PassInv, Edited, Went, World.Asks, World.Reading;
      o := ProcessTimedHandlers(world);
      PassEdit(a, old(Now()), Now(), slot + 1, idx + 1, idx);
      GoneWithSlot(old(Now()), Now(), slot);
      WentOn(seen, old(Seen(world)), Seen(world), o, false);
      if o != Returned {
        return o, true;
      }
      stop := PauseRequested(world, seen);
    }

    /** Moves a live slot to the front part of the array. */
    method MoveSlot(idx: nat, newIdx: nat, ghost a: Snap)
      requires Valid() && Ok(a) && idx < |polls| && Live(polls[idx]) && PassInv(a, Now(), newIdx, idx, idx)
      modifies this`polls, this`hids, this`handlers
      ensures Valid() && PassInv(a, Now(), newIdx + 1, idx + 1, idx) && |polls| == |old(polls)|
      ensures Live(polls[newIdx]) && hids[newIdx] == old(hids[idx]) && handlers[hids[newIdx]] == File(newIdx)
      ensures idx < |a.polls| ==> Live(a.polls[idx]) && a.polls[idx].revents == polls[newIdx].revents && a.hids[idx] == hids[newIdx]
      ensures idx >= |a.polls| ==> polls[newIdx].revents == NO_EVENT
    {
      PassVisit(a, Now(), newIdx, idx);
      MovedOk(Now(), idx, newIdx);
      if newIdx != idx {
        polls := polls[newIdx := polls[idx]];
        var handlerId := hids[idx];
        hids := hids[newIdx := handlerId];
        handlers := handlers[handlerId := File(newIdx)];
        polls := polls[idx := polls[idx].(fd := -1)];
      }
      assert Now() == Moved(old(Now()), idx, newIdx);
    }

    ghost method RecordCall(slot: nat, events: FileEvents, a: Snap, n: nat, idx: nat)
      requires Valid() && Ok(a) && Armed(a) && PassInv(a, Now(), n, idx + 1, idx) && slot < |polls| && Live(polls[slot])
      requires Wanted(a, idx) && slot < |hids| && a.hids[idx] == hids[slot] && CallOf(a, idx) == Called(hids[slot], events)
      modifies this`log
      ensures Valid() && PassInv(a, Now(), n, idx + 1, idx + 1) && log == old(log) + [Called(hids[slot], events)]
    {
      hide Ok, PassInv, Armed, Wanted, CallOf;
      CalledInPass(a, Now(), n, idx, slot);
      log := log + [Called(hids[slot], events)];
    }

    /** Calls the handler of a slot; the ghost parameters tell where the pass that began in a stands. */
    method CallHandler(world: World, slot: nat, events: FileEvents, ghost a: Snap, ghost n: nat, ghost idx: nat)
      returns (o: Outcome)
      requires Valid() && Ok(a) && Armed(a) && !immediatePause && PassInv(a, Now(), n, idx + 1, idx) && slot < |polls| && Live(polls[slot])
      requires Wanted(a, idx) && slot < |hids| && a.hids[idx] == hids[slot] && CallOf(a, idx) == Called(hids[slot], events)
      modifies this, world`scripts
      ensures Valid() && PassInv(a, Now(), n, idx + 1, idx + 1)
      ensures Went(old(Seen(world)), Seen(world), o, false)
      ensures o == Returned ==> |world.scripts| < |old(world.scripts)|
    {
      hide Ok, PassInv, Armed, Edited, Wanted, CallOf, Went, OnlyEdits, RanNext;
      RecordCall(slot, events, a, n, idx);
      ghost var before := Now();
      o := RunCallback(world);
      PassEdit(a, before, Now(), n, idx + 1, idx + 1);
    }

    /** are_there_file_file_handlers() */
    method AreThereFileHandlers() returns (b: bool)
      requires Valid()
      ensures b == HasFiles(handlers)
    {
      FileHandlersBySize(handlers, timed);
      b := |handlers| > |timed|;
    }

    /** Records a turn in which ppoll reported nothing, being interrupted or not called. */
    ghost method NothingPolled()
      requires Valid() && TurnDone(log)
      modifies this`log
      ensures Valid() && log == old(log) + [Polled(map[])]
    {
      LogAfterPoll(handlers, timed, nextId, log, map[]);
      log := log + [Polled(map[])];
    }

    /** ppoll has returned without an error: it has written the events of every live slot. */
    method ApplyPoll(result: PollResult)
      requires Valid() && TurnDone(log) && HasFiles(handlers) && result.ready >= 0
      modifies this`polls, this`log
      ensures Valid() && Fresh(Now()) && |polls| == |old(polls)|
      ensures forall i :: 0 <= i < |polls| && Live(polls[i]) ==> polls[i].revents == if result.ready > 0 then result.revents(i) else NO_EVENT
      ensures log == old(log) + [Polled(PollReports(handlers, result))]
    {
      var ps := polls;
      var polled := seq(|ps|, i requires 0 <= i < |ps| =>
                          PollFd(ps[i].fd, if Live(ps[i]) && result.ready > 0 then result.revents(i) else NO_EVENT));
      PolledOk(Now(), polled);
      polls := polled;
      FreshAfterPoll(Now());
      ReportsAre(Now(), result);
      log := log + [Polled(Reports(Now()))];
    }

    /** Waits in ppoll, which fills in the events; without file handlers ppoll is not called. */
    method Wait(result: PollResult) returns (failed: bool, ready: int)
      requires Valid() && TurnDone(log)
      modifies this`polls, this`log
      ensures Valid() && failed == (HasFiles(handlers) && PollFails(result))
      ensures if failed then log == old(log)
              else
                && old(log) + [Polled(PollReports(handlers, result))] <= log && Polls(log) == Polls(old(log)) + 1
                && (if ready > 0 then Fresh(Now()) && Shows(polls, result) else Quiet(log))
    {
      hide Ok, TurnDone, Polls, Fresh;
      failed, ready := false, 0;
      var polling := AreThereFileHandlers();
      if polling {
        ready := result.ready;
        if ready == -1 && !result.interrupted {
          failed := true;
          return;
        }
      }
      AfterPoll(log, PollReports(handlers, result));
      if polling && ready >= 0 {
        ApplyPoll(result);
      } else {
        NothingPolled();
      }
    }

    /** One turn of the event loop: what ppoll reports is delivered, after a round of timed handlers, unless an
        exception or a pause comes first. */
    method Turn(world: World, result: PollResult) returns (o: Outcome)
      requires Valid() && TurnDone(log)
      modifies this, world
      ensures Valid() && old(log) <= log
      ensures Went(old(Seen(world)), Seen(world), o, Rejected(result))
      ensures if HasFiles(old(handlers)) && PollFails(result) then o == Threw && log == old(log)
              else old(log) + [Polled(PollReports(old(handlers), result))] <= log && Polls(log) == Polls(old(log)) + 1
      ensures o == Returned && !immediatePause ==> TurnDone(log)
    {
      ghost var seen := Seen(world);
      hide Ok, Went, TurnDone, Polls, Edited, Fresh, Shows, Quiet, Rejected, PollReports, TimersSince;
      var failed, ready := Wait(result);
      if failed {
        PollFailed(seen, result);
        return Threw;
      }
      ghost var before := Now();
      o := ProcessTimedHandlers(world);
      EditedPolls(before, Now());
      WentBy(seen, Seen(world), o, false, Rejected(result));
      if o != Returned || ready <= 0 {
        if o == Returned && !immediatePause {
          QuietTurn(before, Now());
        }
        return;
      }
      FreshAfterEdit(before, Now());
      RejectsReported(before, Now(), result);
      o := DeliverReports(world, result, seen);
    }

    /** The second half of a turn in which ppoll has reported something. */
    method DeliverReports(world: World, ghost result: PollResult, ghost seen: Outside) returns (o: Outcome)
      requires Valid() && Fresh(Now()) && (immediatePause || TimersSince(log)) && (Rejects(Now()) ==> Rejected(result))
      requires Went(seen, Seen(world), Returned, false)
      modifies this, world
      ensures Valid() && old(log) <= log && Polls(log) == Polls(old(log))
      ensures Went(seen, Seen(world), o, Rejected(result))
      ensures o == Returned && !immediatePause ==> TurnDone(log)
    {
      ghost var a, mid := Now(), Seen(world);
      hide Ok, Went, TurnDone, Polls, Fresh, CallsDue, PassDone, Rejects, Rejected, TimersSince;
      o := ProcessFileEvents(world);
      PassPolls(a, log);
      WentBy(mid, Seen(world), o, Rejects(a), Rejected(result));
      WentOn(seen, mid, Seen(world), o, Rejected(result));
      if o == Returned && !immediatePause {
        BusyTurn(a, Now());
      }
    }

    /** Records a call of run(). */
    ghost method Enter()
      requires Valid()
      modifies this`log
      ensures Valid() && log == old(log) + [Entered] && TurnDone(log) && Polls(log) == Polls(old(log))
    {
      LogAfterEnter(handlers, timed, nextId, log);
      log := log + [Entered];
      PollsSame(old(log), log);
    }

    /** The event loop, for as many returns of ppoll as results holds. However it is left, by a pause, an
        exception or for want of handlers, the cross-indexing is intact and the history is sound, so that
        it can be entered again. */
    method Run(world: World, results: seq<PollResult>) returns (o: Outcome)
      requires Valid()
      modifies this, world
      ensures Valid() && old(log) + [Entered] <= log && Sound(log)
      ensures o == Returned ==> immediatePause || (|handlers| <= 1 && TurnDone(log))
      ensures o == Unknown ==> world.scripts == [] || Polls(log) == Polls(old(log)) + |results|
      ensures Went(old(Seen(world)).(paused := false), Seen(world), if o == Unknown then Returned else o, SomeRejected(results))
    {
      ghost var seen := Seen(world).(paused := false);
      hide Ok, Sound, Went, TurnDone, Polls, Rejected, World.Asks, World.Reading;
      Enter();
      immediatePause := false;
      WentNowhere(seen, Returned, false);
      var k := 0;
      while true
        invariant Valid() && old(log) + [Entered] <= log && 0 <= k <= |results|
        invariant immediatePause || TurnDone(log)
        invariant Polls(log) == Polls(old(log)) + k
        invariant Went(seen, Seen(world), Returned, false)
        decreases |results| - k
      {
        OkIsSound(Now());
        WentBy(seen, Seen(world), Returned, false, SomeRejected(results));
        if |handlers| <= 1 {
          return Returned;
        }
        var pause := PauseRequested(world, seen);
        WentBy(seen, Seen(world), Returned, false, SomeRejected(results));
        if pause {
          return Returned;
        }
        if k == |results| {
          return Unknown;
        }
        ghost var before := Seen(world);
        o := Turn(world, results[k]);
        WentOn(seen, before, Seen(world), o, Rejected(results[k]));
        OkIsSound(Now());
        WentBy(seen, Seen(world), o, Rejected(results[k]), SomeRejected(results));
        if o != Returned {
          return;
        }
        WentBy(seen, Seen(world), Returned, SomeRejected(results), false);
        k := k + 1;
      }
    }
  }
}
