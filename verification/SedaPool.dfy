/**
 The thread pool and its stages as a state machine. Every step is one critical section of one thread:
 what a thread does between locking and unlocking a mutex, or until it blocks on a condition.
 */
module SedaPool {

  /** The stage whose events make the thread that handles them exit. */
  const KILLER: nat := 0

  const NOBODY: int := -1

  /** Where a thread is. The first eight belong to pool threads, the others to threads outside the pool. */
  datatype Place =
    | Ready                                       // about to lock the run queue
    | Asleep                                      // blocked on the run condition
    | Awake                                       // signalled, not yet back in possession of the mutex
    | Popped(stage: nat)                          // took a token of `stage`, has not fetched an event
    | Handling(stage: nat)
    | Scheduling(stage: nat, target: nat)         // inside a handler, put an event on `target`, has not scheduled it
    | Dying                                       // deducted itself, has not released its event
    | Gone
    | Outside
    | OutScheduling(target: nat)
    | Connecting(target: nat, left: nat)          // `left` backlog events to schedule
    | Disconnecting(target: nat, signalled: bool)
    | KillConnecting(n: nat)                      // the next six: a call to kill `n` threads
    | KillAdding(n: nat, done: nat)
    | KillScheduling(n: nat, done: nat)
    | KillWaiting(n: nat, signalled: bool)
    | KillLeaving(n: nat)
    | KillDisconnecting(n: nat, signalled: bool)

  /** A stage: events queued, of which `loose` came while it was not connected; accepted but unreleased events. */
  datatype Stage = Stage(events: nat, loose: nat, connected: bool, refs: int, pooled: bool)

  datatype State = State(
    queue: seq<nat>,          // run queue: one entry for each scheduled event, naming its stage
    idles: int,
    threads: seq<Place>,
    stages: seq<Stage>,
    nthreads: int,
    toKill: int,
    owner: int,               // who holds the thread mutex
    orders: nat,              // kill events ever put on the killer stage
    aborted: bool)            // an assertion failed

  // ---------------------------------------------------------------- counting threads

  /** What is counted. */
  datatype Measure = Sleeping | Idle | Live | Doomed | Dead | Exited | Pending(g: nat) | Busy(h: nat)

  function Weight(m: Measure, p: Place): nat {
    match m
    case Sleeping => if p.Asleep? then 1 else 0
    case Idle => if p.Asleep? || p.Awake? then 1 else 0
    case Live => if IsWorker(p) && !p.Gone? then 1 else 0
    case Doomed => if p == Popped(KILLER) || p == Handling(KILLER) || p.Dying? then 1 else 0
    case Dead => if p.Dying? then 1 else 0
    case Exited => if p.Gone? then 1 else 0
    case Pending(g) => (
      match p
      case Popped(s) => if s == g then 1 else 0
      case Scheduling(_, s) => if s == g then 1 else 0
      case OutScheduling(s) => if s == g then 1 else 0
      case Connecting(s, left) => if s == g then left else 0
      case KillScheduling(_, _) => if g == KILLER then 1 else 0
      case _ => 0)
    case Busy(g) => if p == Handling(g) || (p.Scheduling? && p.stage == g) || (p.Dying? && g == KILLER) then 1 else 0
  }

  predicate IsWorker(p: Place) {
    p.Ready? || p.Asleep? || p.Awake? || p.Popped? || p.Handling? || p.Scheduling? || p.Dying? || p.Gone?
  }

  function Total(m: Measure, s: seq<Place>): nat {
    if s == [] then 0 else Weight(m, s[0]) + Total(m, s[1..])
  }

  lemma {:induction false} TotalSet(m: Measure, s: seq<Place>, i: nat, p: Place)
    requires i < |s|
    ensures Total(m, s[i := p]) + Weight(m, s[i]) == Total(m, s) + Weight(m, p)
  {
    if i == 0 {
      assert s[0 := p][1..] == s[1..];
    } else {
      assert s[i := p][1..] == s[1..][i - 1 := p];
      TotalSet(m, s[1..], i - 1, p);
    }
  }

  lemma {:induction false} TotalAdd(m: Measure, s: seq<Place>, p: Place)
    ensures Total(m, s + [p]) == Total(m, s) + Weight(m, p)
  {
    if s == [] {
      assert s + [p] == [p];
      assert [p][1..] == [];
    } else {
      assert (s + [p])[1..] == s[1..] + [p];
      TotalAdd(m, s[1..], p);
    }
  }

  lemma {:induction false} TotalHas(m: Measure, s: seq<Place>, i: nat)
    requires i < |s|
    ensures Total(m, s) >= Weight(m, s[i])
  {
    if i > 0 {
      TotalHas(m, s[1..], i - 1);
    }
  }

  /** A positive total has a contributor. */
  lemma {:induction false} TotalFrom(m: Measure, s: seq<Place>) returns (i: nat)
    requires Total(m, s) > 0
    ensures i < |s| && Weight(m, s[i]) > 0
  {
    if Weight(m, s[0]) > 0 {
      i := 0;
    } else {
      var j := TotalFrom(m, s[1..]);
      i := j + 1;
    }
  }

  // ---------------------------------------------------------------- steps

  datatype Action =
    | RunLoop(t: nat)                     // take a token, or go to sleep
    | RemoveEvent(t: nat)
    | AddEvent(t: nat, g: nat)
    | Schedule(t: nat, w: nat)            // `w` is the sleeper that a signal wakes
    | ReleaseEvent(t: nat)
    | ThreadKill(t: nat)
    | Exit(t: nat)
    | AddThread(t: nat)
    | SetPool(t: nat, g: nat)
    | Connect(t: nat, g: nat)
    | Disconnect(t: nat, g: nat)
    | DisconnectAgain(t: nat)
    | KillThreads(t: nat, n: nat)
    | KillConnect(t: nat)
    | KillAddEvent(t: nat)
    | KillWait(t: nat)
    | KillResume(t: nat)
    | KillDisconnect(t: nat)
    | KillDisconnectAgain(t: nat)
    | WakeUp(t: nat)                      // without a signal

  predicate Enabled(s: State, a: Action) {
    && !s.aborted && a.t < |s.threads|
    && var p := s.threads[a.t];
    match a
    case RunLoop(_) => p.Ready? || p.Awake?
    case RemoveEvent(_) => p.Popped? && p.stage < |s.stages|
    case AddEvent(_, g) => KILLER < g < |s.stages| && (p.Outside? || (p.Handling? && p.stage != KILLER))
    case Schedule(_, w) =>
      && (p.Scheduling? || p.OutScheduling? || p.KillScheduling? || (p.Connecting? && p.left > 0))
      && (Total(Sleeping, s.threads) > 0 ==> w < |s.threads| && s.threads[w].Asleep?)
    case ReleaseEvent(_) => p.Handling? && p.stage != KILLER && p.stage < |s.stages|
    case ThreadKill(_) => p == Handling(KILLER) && s.owner == NOBODY
    case Exit(_) => p.Dying? && |s.stages| > 0
    case AddThread(_) => p.Outside? && s.owner == NOBODY
    case SetPool(_, g) => p.Outside? && KILLER < g < |s.stages|
    // a stage is connected and disconnected by one party, never both at once
    case Connect(_, g) => p.Outside? && KILLER < g < |s.stages| && !Leaving(s, g)
    case Disconnect(_, g) => p.Outside? && KILLER < g < |s.stages|
    case DisconnectAgain(_) => p.Disconnecting? && p.signalled && p.target < |s.stages|
    case KillThreads(_, _) => p.Outside? && s.owner == NOBODY && |s.stages| > 0
    case KillConnect(_) => p.KillConnecting? && |s.stages| > 0
    case KillAddEvent(_) => p.KillAdding? && p.done < p.n && |s.stages| > 0
    case KillWait(_) => p.KillAdding? && p.done >= p.n
    case KillResume(_) => p.KillWaiting? && p.signalled && s.owner == NOBODY
    case KillDisconnect(_) => p.KillLeaving? && |s.stages| > 0
    case KillDisconnectAgain(_) => p.KillDisconnecting? && p.signalled && |s.stages| > 0
    case WakeUp(_) => p.Asleep? || (p.Disconnecting? && !p.signalled) || (p.KillWaiting? && !p.signalled) || (p.KillDisconnecting? && !p.signalled)
  }

  predicate WaitsFor(p: Place, g: nat) {
    (p.Disconnecting? && p.target == g) || (p.KillDisconnecting? && g == KILLER)
  }

  /** Somebody waits for the events of stage `g` to be released. */
  predicate Leaving(s: State, g: nat) {
    exists t :: 0 <= t < |s.threads| && WaitsFor(s.threads[t], g)
  }

  function At(s: State, t: nat, p: Place): State
    requires t < |s.threads|
  {
    s.(threads := s.threads[t := p])
  }

  function SetStage(s: State, g: nat, x: Stage): State
    requires g < |s.stages|
  {
    s.(stages := s.stages[g := x])
  }

  /** One waiter of a disconnect is told that the last event was released. */
  function Tell(s: State, g: nat): State {
    if g < |s.stages| && !s.stages[g].connected && s.stages[g].refs == 0 then s.(threads := Signalled(s.threads, g)) else s
  }

  function Signalled(ts: seq<Place>, g: nat): (r: seq<Place>)
    ensures |r| == |ts|
    ensures forall i :: 0 <= i < |ts| ==> r[i] == SignalOne(ts[i], g)
  {
    if ts == [] then [] else [SignalOne(ts[0], g)] + Signalled(ts[1..], g)
  }

  function SignalOne(p: Place, g: nat): Place {
    match p
    case Disconnecting(h, _) => if h == g then Disconnecting(h, true) else p
    case KillDisconnecting(n, _) => if g == KILLER then KillDisconnecting(n, true) else p
    case _ => p
  }

  /** What the critical section does. */
  function Do(s: State, a: Action): State
    requires Enabled(s, a)
  {
    var t, p := a.t, s.threads[a.t];
    match a
    case RunLoop(_) => DoRunLoop(s, t)
    case RemoveEvent(_) => DoRemoveEvent(s, t)
    case AddEvent(_, g) => DoAddEvent(s, t, g)
    case Schedule(_, w) => DoSchedule(s, t, w)
    case ReleaseEvent(_) => DoRelease(s, t, p.stage, Ready)
    case ThreadKill(_) => DoThreadKill(s, t)
    case Exit(_) => DoRelease(s, t, KILLER, Gone)
    case AddThread(_) => s.(threads := s.threads + [Ready], nthreads := s.nthreads + 1)
    case SetPool(_, g) => SetStage(s, g, s.stages[g].(pooled := true))
    case Connect(_, g) =>
      if s.stages[g].connected || !s.stages[g].pooled then s.(aborted := true)
      else At(DoConnect(s, g), t, if s.stages[g].events == 0 then Outside else Connecting(g, s.stages[g].events))
    case Disconnect(_, g) =>
      if !s.stages[g].connected then s.(aborted := true) else DoDisconnect(s, t, g, Outside, Disconnecting(g, false))
    case DisconnectAgain(_) => DoDisconnectAgain(s, t, p.target, Outside, Disconnecting(p.target, false))
    case KillThreads(_, n) => DoKillThreads(s, t, n)
    case KillConnect(_) =>
      if s.stages[KILLER].connected || !s.stages[KILLER].pooled then s.(aborted := true)
      else At(DoConnect(s, KILLER), t, KillAdding(p.n, 0))
    case KillAddEvent(_) => At(Accept(s, KILLER), t, KillScheduling(p.n, p.done)).(orders := s.orders + 1)
    case KillWait(_) => At(s, t, KillWaiting(p.n, false)).(toKill := p.n, owner := NOBODY)
    case KillResume(_) => At(s, t, KillLeaving(p.n)).(owner := t)
    case KillDisconnect(_) =>
      var r := if !s.stages[KILLER].connected then s.(aborted := true) else DoDisconnect(s, t, KILLER, Outside, KillDisconnecting(p.n, false));
      if r.threads[t].Outside? then r.(owner := NOBODY) else r
    case KillDisconnectAgain(_) =>
      var r := DoDisconnectAgain(s, t, KILLER, Outside, KillDisconnecting(p.n, false));
      if r.threads[t].Outside? then r.(owner := NOBODY) else r
    case WakeUp(_) => At(s, t, Roused(p))
  }

  /**
   What callers of an ordinary stage must not do: connect it twice or before it has a pool, or disconnect it
   while it is not connected. The program asserts that they do not.
   */
  predicate Misused(s: State, a: Action) {
    || (a.Connect? && a.g < |s.stages| && (s.stages[a.g].connected || !s.stages[a.g].pooled))
    || (a.Disconnect? && a.g < |s.stages| && !s.stages[a.g].connected)
  }

  /** A pool thread looks for work: an empty run queue puts it to sleep, otherwise it takes the first token. */
  function DoRunLoop(s: State, t: nat): State
    requires t < |s.threads|
  {
    var r := if s.threads[t].Awake? then s.(idles := s.idles - 1) else s;
    if r.queue == [] then At(r, t, Asleep).(idles := r.idles + 1)
    else At(r, t, Popped(r.queue[0])).(queue := r.queue[1..])
  }

  function DoRemoveEvent(s: State, t: nat): State
    requires t < |s.threads| && s.threads[t].Popped? && s.threads[t].stage < |s.stages|
  {
    var g := s.threads[t].stage;
    var x := s.stages[g];
    if x.events == 0 then s.(aborted := true)
    else At(SetStage(s, g, x.(events := x.events - 1)), t, Handling(g))
  }

  /** The event is queued; on a connected stage it is also accepted. */
  function Accept(s: State, g: nat): State
    requires g < |s.stages|
  {
    var x := s.stages[g];
    if x.connected then SetStage(s, g, x.(events := x.events + 1, refs := x.refs + 1)).(aborted := s.aborted || !x.pooled)
    else SetStage(s, g, x.(events := x.events + 1, loose := x.loose + 1))
  }

  function DoAddEvent(s: State, t: nat, g: nat): State
    requires t < |s.threads| && g < |s.stages| && (s.threads[t].Outside? || s.threads[t].Handling?)
  {
    var r := Accept(s, g);
    if !s.stages[g].connected then r
    else At(r, t, if s.threads[t].Outside? then OutScheduling(g) else Scheduling(s.threads[t].stage, g))
  }

  function Target(p: Place): nat
    requires p.Scheduling? || p.OutScheduling? || p.KillScheduling? || p.Connecting?
  {
    if p.KillScheduling? then KILLER else p.target
  }

  function AfterSchedule(p: Place): Place
    requires p.Scheduling? || p.OutScheduling? || p.KillScheduling? || (p.Connecting? && p.left > 0)
  {
    match p
    case Scheduling(h, _) => Handling(h)
    case KillScheduling(n, done) => KillAdding(n, done + 1)
    case Connecting(g, left) => if left == 1 then Outside else Connecting(g, left - 1)
    case _ => Outside
  }

  /** A token goes to the run queue. The signal is skipped if a pool thread finds the queue empty. */
  function DoSchedule(s: State, t: nat, w: nat): State
    requires Enabled(s, Schedule(t, w))
  {
    var p := s.threads[t];
    var g := Target(p);
    var r := At(s, t, AfterSchedule(p)).(queue := s.queue + [g]);
    if g >= |s.stages| || s.stages[g].events == 0 || !s.stages[g].pooled then s.(aborted := true)
    else if (s.queue != [] || !IsWorker(p)) && s.idles > 0 && Total(Sleeping, s.threads) > 0 then At(r, w, Awake)
    else r
  }

  function DoRelease(s: State, t: nat, g: nat, p: Place): State
    requires t < |s.threads| && g < |s.stages|
  {
    Tell(At(SetStage(s, g, s.stages[g].(refs := s.stages[g].refs - 1)), t, p), g)
  }

  function DoThreadKill(s: State, t: nat): State
    requires t < |s.threads|
  {
    var r := At(s, t, Dying).(nthreads := s.nthreads - 1, toKill := s.toKill - 1);
    if r.toKill == 0 then r.(threads := SignalKill(r.threads)) else r
  }

  function SignalKill(ts: seq<Place>): (r: seq<Place>)
    ensures |r| == |ts|
    ensures forall i :: 0 <= i < |ts| ==> r[i] == if ts[i].KillWaiting? then KillWaiting(ts[i].n, true) else ts[i]
  {
    if ts == [] then [] else [if ts[0].KillWaiting? then KillWaiting(ts[0].n, true) else ts[0]] + SignalKill(ts[1..])
  }

  function DoConnect(s: State, g: nat): State
    requires g < |s.stages|
  {
    var x := s.stages[g];
    SetStage(s, g, x.(loose := 0, refs := x.events, connected := true))
  }

  /** Closes the stage to new events; done at once if no accepted event is unreleased. */
  function DoDisconnect(s: State, t: nat, g: nat, p: Place, wait: Place): State
    requires t < |s.threads| && g < |s.stages|
  {
    var x := s.stages[g];
    if x.refs > 0 then At(SetStage(s, g, x.(connected := false)), t, wait)
    else At(SetStage(s, g, x.(connected := false, pooled := false)), t, p)
  }

  function DoDisconnectAgain(s: State, t: nat, g: nat, p: Place, wait: Place): State
    requires t < |s.threads| && g < |s.stages|
  {
    var x := s.stages[g];
    if x.refs > 0 then At(s, t, wait) else At(SetStage(s, g, x.(pooled := false)), t, p)
  }

  /** A call to kill threads: refused while a kill is under way; the stage must not be connected already. */
  function DoKillThreads(s: State, t: nat, n: nat): State
    requires t < |s.threads| && |s.stages| > 0
  {
    if s.toKill > 0 then s
    else if s.stages[KILLER].connected then s.(aborted := true)
    else At(SetStage(s, KILLER, s.stages[KILLER].(pooled := true)), t, KillConnecting(if n > s.nthreads then (if s.nthreads < 0 then 0 else s.nthreads) else n)).(owner := t)
  }

  function Roused(p: Place): Place {
    match p
    case Asleep => Awake
    case Disconnecting(g, _) => Disconnecting(g, true)
    case KillWaiting(n, _) => KillWaiting(n, true)
    case KillDisconnecting(n, _) => KillDisconnecting(n, true)
    case _ => p
  }
}
