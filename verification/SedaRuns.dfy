/** What follows for all runs of the pool. */
module SedaRuns {
  import opened SedaPool
  import opened SedaInvariant

  // ---------------------------------------------------------------- assertions

  /**
   The assertions of the program hold at every step, apart from those by which a stage protects itself against
   its callers, with one exception: a call to kill threads fails if it comes when the previous call has seen
   all its threads deducted and has not taken the mutex back yet.
   */
  lemma AssertionsHold(s: State, a: Action)
    requires Inv(s) && Enabled(s, a)
    ensures Do(s, a).aborted <==> Misused(s, a) || (a.KillThreads? && s.toKill <= 0 && s.stages[KILLER].connected)
  {
    hide Total, Leaving, Inv, StageOk, PoolOk, KillOk, PlaceOk, KillPlaceOk, Kills, Accept;
    match a
    case RemoveEvent(t) => EventThere(s, t);
    case AddEvent(t, g) => AddEventKept(s, t, g);
    case Schedule(t, w) => ScheduleKept(s, t, w);
    case KillAddEvent(t) => KillAddEventKept(s, t);
    case KillConnect(t) => KillPlaceAt(s, t);
    case KillDisconnect(t) => KillPlaceAt(s, t);
    case _ =>
  }

  lemma KillPlaceAt(s: State, t: nat)
    requires Inv(s) && t < |s.threads|
    ensures KillPlaceOk(s, t)
  {
  }

  /** Who is to blame: a transaction that waits although nothing is left to wait for. */
  lemma AbortWindow(s: State)
    requires Inv(s) && s.owner == NOBODY && s.toKill <= 0 && s.stages[KILLER].connected
    ensures exists u :: 0 <= u < |s.threads| && s.threads[u].KillWaiting? && (s.threads[u].signalled || s.threads[u].n == 0)
  {
    hide Total, PoolOk, StageOk;
    var u :| 0 <= u < |s.threads| && Kills(s.threads[u]);
    assert KillPlaceOk(s, u) && PlaceOk(s, u);
  }

  // ---------------------------------------------------------------- runs

  /** Before the pool has threads and before any stage is connected. */
  predicate Start(s: State) {
    && s.queue == [] && s.idles == 0 && s.nthreads == 0 && s.toKill == 0 && s.owner == NOBODY && s.orders == 0 && !s.aborted
    && |s.stages| > 0
    && (forall t :: 0 <= t < |s.threads| ==> s.threads[t] == Outside)
    && (forall g :: 0 <= g < |s.stages| ==> s.stages[g] == Stage(0, 0, false, 0, false))
  }

  lemma {:induction false} AllOutside(m: Measure, ts: seq<Place>)
    requires forall t :: 0 <= t < |ts| ==> ts[t] == Outside
    ensures Total(m, ts) == 0
  {
    if ts != [] {
      AllOutside(m, ts[1..]);
    }
  }

  lemma StartOk(s: State)
    requires Start(s)
    ensures Inv(s)
  {
    hide Total;
    forall m ensures Total(m, s.threads) == 0 {
      AllOutside(m, s.threads);
    }
  }

  /** The states of a run, one more than its actions. */
  predicate Run(ss: seq<State>, aa: seq<Action>) {
    && |ss| == |aa| + 1 && Start(ss[0])
    && forall i :: 0 <= i < |aa| ==> Enabled(ss[i], aa[i]) && ss[i + 1] == Do(ss[i], aa[i])
  }

  /** Every state of every run satisfies the invariant until an assertion fails. */
  lemma {:induction false} Reachable(ss: seq<State>, aa: seq<Action>, i: nat)
    requires Run(ss, aa) && i < |ss| && !ss[i].aborted
    ensures Inv(ss[i])
  {
    hide Inv, Do;
    if i == 0 {
      StartOk(ss[0]);
    } else {
      assert Enabled(ss[i - 1], aa[i - 1]) && ss[i] == Do(ss[i - 1], aa[i - 1]);
      Reachable(ss, aa, i - 1);
      StepKept(ss[i - 1], aa[i - 1]);
    }
  }

  // ---------------------------------------------------------------- no lost wakeup

  function Min(a: int, b: int): int {
    if a < b then a else b
  }

  /** The live threads that are not blocked on the run condition are as many as there are tokens, or all. */
  lemma NoLostWakeup(s: State)
    requires Inv(s)
    ensures Total(Live, s.threads) - Total(Sleeping, s.threads) >= Min(|s.queue|, Total(Live, s.threads))
  {
    hide Total, KillOk, StageOk, PlaceOk;
  }

  /** A thread of the pool that is neither blocked nor about to exit. */
  predicate Working(p: Place) {
    IsWorker(p) && !p.Gone? && !p.Asleep? && Weight(Doomed, p) == 0
  }

  lemma {:induction false} WorkerAmong(ts: seq<Place>) returns (t: nat)
    requires Total(Live, ts) > Total(Sleeping, ts) + Total(Doomed, ts)
    ensures t < |ts| && Working(ts[t])
  {
    if Working(ts[0]) {
      t := 0;
    } else {
      var u := WorkerAmong(ts[1..]);
      t := u + 1;
    }
  }

  /** While a thread is left that will not exit, a token never waits for a wakeup that nobody will send. */
  lemma TokenHasTaker(s: State)
    requires Inv(s) && s.queue != [] && Total(Live, s.threads) > Total(Doomed, s.threads)
    ensures exists t :: 0 <= t < |s.threads| && Working(s.threads[t])
  {
    hide Total, KillOk, StageOk, PlaceOk;
    var t := WorkerAmong(s.threads);
  }

  // ---------------------------------------------------------------- disconnecting

  /** A disconnect returns only when the stage has nothing in flight: no token, no schedule, no handler. */
  lemma DisconnectDone(s: State, a: Action, g: nat)
    requires Inv(s) && Enabled(s, a) && (a == Disconnect(a.t, g) || (a.DisconnectAgain? && s.threads[a.t].target == g)) && g < |s.stages|
    requires !Misused(s, a) && Do(s, a).threads[a.t] == Outside
    ensures s.stages[g].refs == 0 && Tokens(s, g) == 0 && Total(Pending(g), s.threads) == 0 && Total(Busy(g), s.threads) == 0
    ensures forall t :: 0 <= t < |s.threads| ==> Weight(Pending(g), s.threads[t]) == 0 && Weight(Busy(g), s.threads[t]) == 0
  {
    hide Total, KillOk, PoolOk, PlaceOk, Leaving;
    assert StageOk(s, g);
    forall t | 0 <= t < |s.threads| ensures Weight(Pending(g), s.threads[t]) == 0 && Weight(Busy(g), s.threads[t]) == 0 {
      TotalHas(Pending(g), s.threads, t);
      TotalHas(Busy(g), s.threads, t);
    }
  }

  /** No wakeup of a disconnect is lost either. */
  lemma DisconnectNotForgotten(s: State, t: nat)
    requires Inv(s) && t < |s.threads| && s.threads[t].Disconnecting? && !s.threads[t].signalled
    ensures s.threads[t].target < |s.stages| && s.stages[s.threads[t].target].refs > 0
  {
    assert PlaceOk(s, t);
  }

  /** Connecting a stage keeps its counts right iff no accepted event is unreleased. */
  lemma ConnectExact(s: State, t: nat, g: nat)
    requires Inv(s) && t < |s.threads| && s.threads[t] == Outside && g < |s.stages| && !s.stages[g].connected && s.stages[g].pooled && s.stages[g].events > 0
    ensures StageOk(At(DoConnect(s, g), t, Connecting(g, s.stages[g].events)), g) <==> s.stages[g].refs == 0
  {
    hide Total, KillOk, PoolOk, PlaceOk, Leaving;
    var r := At(DoConnect(s, g), t, Connecting(g, s.stages[g].events));
    assert StageOk(s, g);
    Moved(s, r, t, r.threads[t]);
  }

  // ---------------------------------------------------------------- killing

  /** When a kill transaction ends, every thread ordered to exit is gone and the thread count is exact. */
  lemma KillDone(s: State, a: Action)
    requires Inv(s) && Enabled(s, a) && (a.KillDisconnect? || a.KillDisconnectAgain?) && Do(s, a).threads[a.t] == Outside
    ensures var r := Do(s, a);
            && Total(Exited, r.threads) == r.orders && r.toKill == 0
            && r.nthreads == Total(Live, r.threads) && Total(Doomed, r.threads) == 0
  {
    hide Total, Leaving, Inv;
    var r := Do(s, a);
    StepKept(s, a);
    KillDoneRefs(s, a);
    AllDone(r);
  }

  lemma KillDoneRefs(s: State, a: Action)
    requires Inv(s) && Enabled(s, a) && (a.KillDisconnect? || a.KillDisconnectAgain?) && Do(s, a).threads[a.t] == Outside
    ensures var r := Do(s, a); !r.aborted && |r.stages| > 0 && r.stages[KILLER].refs <= 0 && forall u :: 0 <= u < |r.threads| ==> !Kills(r.threads[u])
  {
    hide Total, Leaving, PoolOk, StageOk, PlaceOk;
    var r := Do(s, a);
    assert Kills(s.threads[a.t]);
    forall u | 0 <= u < |r.threads| ensures !Kills(r.threads[u]) {
      assert u != a.t ==> r.threads[u] == s.threads[u];
    }
  }

  lemma {:induction false} DoomedCounted(ts: seq<Place>)
    ensures Total(Doomed, ts) <= Total(Pending(KILLER), ts) + Total(Busy(KILLER), ts)
  {
    if ts != [] {
      DoomedCounted(ts[1..]);
    }
  }

  lemma AllDone(r: State)
    requires Inv(r) && r.stages[KILLER].refs <= 0 && forall u :: 0 <= u < |r.threads| ==> !Kills(r.threads[u])
    ensures Total(Exited, r.threads) == r.orders && r.toKill == 0 && r.nthreads == Total(Live, r.threads) && Total(Doomed, r.threads) == 0
  {
    hide Total, Leaving, PlaceOk;
    assert StageOk(r, KILLER);
    DeadBusy(r.threads);
    DoomedCounted(r.threads);
  }

  /** The end of a kill is always signalled, except when there was nothing to kill. */
  lemma KillNotForgotten(s: State, t: nat)
    requires Inv(s) && t < |s.threads| && s.threads[t].KillWaiting? && !s.threads[t].signalled
    ensures s.toKill > 0 || s.threads[t].n == 0
  {
    hide Total, PoolOk, StageOk, PlaceOk;
    assert KillPlaceOk(s, t);
  }

  /** A call that found no thread to kill waits for a signal that no step sends. */
  predicate WaitsInVain(s: State, t: nat) {
    t < |s.threads| && s.threads[t] == KillWaiting(0, false) && s.toKill == 0
  }

  lemma VainForever(s: State, t: nat, a: Action)
    requires Inv(s) && WaitsInVain(s, t) && Enabled(s, a) && a != WakeUp(t) && !Do(s, a).aborted
    ensures WaitsInVain(Do(s, a), t)
  {
    hide Total, PoolOk, StageOk, PlaceOk, Leaving;
    assert KillPlaceOk(s, t) && Kills(s.threads[t]);
    if a.ThreadKill? {
      var u := KillExpected(s, a.t);
    }
    if a.KillThreads? {
      AssertionsHold(s, a);
    }
  }

  /** A call that took the mutex back too early: some thread still has to deduct itself, and needs the mutex for it. */
  predicate Jammed(s: State, t: nat) {
    t < |s.threads| && (s.threads[t].KillLeaving? || s.threads[t].KillDisconnecting?) && s.toKill > 0
  }

  /** It never returns, whatever happens. */
  lemma JammedForever(s: State, t: nat, a: Action)
    requires Inv(s) && Jammed(s, t) && Enabled(s, a)
    ensures (Do(s, a).aborted <==> Misused(s, a)) && Jammed(Do(s, a), t)
  {
    hide Total, Inv, Do, Enabled, Misused, Jammed;
    JammedOwner(s, t);
    if a.t == t {
      JammedOwn(s, t, a);
    } else {
      JammedOther(s, t, a);
    }
    AssertionsHold(s, a);
  }

  lemma JammedOwner(s: State, t: nat)
    requires Inv(s) && Jammed(s, t)
    ensures s.owner == t && s.owner != NOBODY && s.toKill > 0
    ensures forall u :: 0 <= u < |s.threads| && Kills(s.threads[u]) ==> u == t
    ensures |s.stages| > 0 && s.stages[KILLER].refs > 0 && (s.threads[t].KillLeaving? ==> s.stages[KILLER].connected)
  {
    hide Total, PoolOk, Leaving;
    assert KillPlaceOk(s, t) && StageOk(s, KILLER);
  }

  lemma JammedOwn(s: State, t: nat, a: Action)
    requires Inv(s) && Jammed(s, t) && Enabled(s, a) && a.t == t
    ensures Jammed(Do(s, a), t)
  {
    hide Inv, Total;
    JammedOwner(s, t);
  }

  lemma JammedOther(s: State, t: nat, a: Action)
    requires Inv(s) && Jammed(s, t) && Enabled(s, a) && a.t != t
    ensures Jammed(Do(s, a), t)
  {
    hide Inv, Total, Do, Jammed;
    JammedIs(s, t);
    JammedIs(Do(s, a), t);
    JammedOwner(s, t);
    JammedCount(s, t, a);
    JammedPlace(s, t, a);
  }

  lemma JammedIs(s: State, t: nat)
    ensures Jammed(s, t) <==> t < |s.threads| && (s.threads[t].KillLeaving? || s.threads[t].KillDisconnecting?) && s.toKill > 0
  {
  }

  /** While another thread owns the mutex, a thread outside its kill transaction deducts nothing. */
  lemma JammedCount(s: State, t: nat, a: Action)
    requires t < |s.threads| && Enabled(s, a) && a.t != t && s.owner == t && s.toKill > 0 && !Kills(s.threads[a.t])
    ensures Do(s, a).toKill == s.toKill
  {
    hide Total, Leaving;
  }

  predicate Late(ts: seq<Place>, t: nat) {
    t < |ts| && (ts[t].KillLeaving? || ts[t].KillDisconnecting?)
  }

  lemma JammedPlace(s: State, t: nat, a: Action)
    requires Late(s.threads, t) && Enabled(s, a) && a.t != t
    ensures Late(Do(s, a).threads, t)
  {
    hide Total, Leaving, DoRelease, DoThreadKill, DoSchedule, Do, Late;
    match a
    case ReleaseEvent(_) => LateRelease(s, t, a);
    case Exit(_) => LateRelease(s, t, a);
    case ThreadKill(_) => LateKill(s, t, a);
    case Schedule(_, _) => LateSchedule(s, t, a);
    case _ => LateOther(s, t, a);
  }

  lemma LateRelease(s: State, t: nat, a: Action)
    requires Late(s.threads, t) && Enabled(s, a) && a.t != t && (a.ReleaseEvent? || a.Exit?)
    ensures Late(Do(s, a).threads, t)
  {
    hide Total, Leaving;
  }

  lemma LateKill(s: State, t: nat, a: Action)
    requires Late(s.threads, t) && Enabled(s, a) && a.t != t && a.ThreadKill?
    ensures Late(Do(s, a).threads, t)
  {
    hide Total, Leaving;
  }

  lemma LateSchedule(s: State, t: nat, a: Action)
    requires Late(s.threads, t) && Enabled(s, a) && a.t != t && a.Schedule?
    ensures Late(Do(s, a).threads, t)
  {
    hide Total, Leaving;
  }

  lemma LateOther(s: State, t: nat, a: Action)
    requires Late(s.threads, t) && Enabled(s, a) && a.t != t
    requires !a.ReleaseEvent? && !a.Exit? && !a.ThreadKill? && !a.Schedule?
    ensures Late(Do(s, a).threads, t)
  {
    hide Total, Leaving, DoRelease, DoThreadKill, DoSchedule;
  }

  /** If it is not too early, whoever still holds an event of the killer stage can release it without any mutex but the list's. */
  lemma KillCanFinish(s: State, t: nat)
    requires Inv(s) && t < |s.threads| && (s.threads[t].KillLeaving? || s.threads[t].KillDisconnecting?) && s.toKill == 0 && !s.aborted
    ensures s.stages[KILLER].refs > 0 ==> exists u: nat :: Enabled(s, Exit(u))
  {
    hide Total, PoolOk, Leaving;
    assert KillPlaceOk(s, t);
    if s.stages[KILLER].refs > 0 {
      var u := TotalFrom(Dead, s.threads);
      assert Enabled(s, Exit(u));
    }
  }

  /** `a` leads from `s` to `r`. */
  predicate Leads(s: State, a: Action, r: State) {
    Enabled(s, a) && r == Do(s, a)
  }

  /** Two callers outside the pool; the threads of the pool; the killer stage. */
  function Scene(p: Place, w: seq<Place>, x: Stage, queue: seq<nat>, n: int, k: int, owner: int, orders: nat): State {
    State(queue, 0, [p, Outside] + w, [x], n, k, owner, orders, false)
  }

  const UNUSED := Stage(0, 0, false, 0, false)
  const OPENED := Stage(0, 0, true, 0, true)
  const QUEUED := Stage(1, 0, true, 1, true)
  const TAKEN := Stage(0, 0, true, 1, true)

  /** A run in which a second call to kill threads comes too early: the states. */
  function RaceStates(): seq<State> {
    [Scene(Outside, [], UNUSED, [], 0, 0, NOBODY, 0),
     Scene(Outside, [Ready], UNUSED, [], 1, 0, NOBODY, 0),
     Scene(KillConnecting(1), [Ready], Stage(0, 0, false, 0, true), [], 1, 0, 0, 0),
     Scene(KillAdding(1, 0), [Ready], OPENED, [], 1, 0, 0, 0),
     Scene(KillScheduling(1, 0), [Ready], QUEUED, [], 1, 0, 0, 1),
     Scene(KillAdding(1, 1), [Ready], QUEUED, [KILLER], 1, 0, 0, 1),
     Scene(KillWaiting(1, false), [Ready], QUEUED, [KILLER], 1, 1, NOBODY, 1),
     Scene(KillWaiting(1, false), [Popped(KILLER)], QUEUED, [], 1, 1, NOBODY, 1),
     Scene(KillWaiting(1, false), [Handling(KILLER)], TAKEN, [], 1, 1, NOBODY, 1),
     Scene(KillWaiting(1, true), [Dying], TAKEN, [], 0, 0, NOBODY, 1),
     Scene(KillWaiting(1, true), [Dying], TAKEN, [], 0, 0, NOBODY, 1).(aborted := true)]
  }

  function RaceActions(): seq<Action> {
    [AddThread(0), KillThreads(0, 1), KillConnect(0), KillAddEvent(0), Schedule(0, 0), KillWait(0),
     RunLoop(2), RemoveEvent(2), ThreadKill(2), KillThreads(1, 1)]
  }

  lemma RaceBegins()
    ensures forall i :: 0 <= i < 2 ==> Leads(RaceStates()[i], RaceActions()[i], RaceStates()[i + 1])
  {
    var ss := RaceStates();
    assert Leads(ss[0], AddThread(0), ss[1]);
    assert Leads(ss[1], KillThreads(0, 1), ss[2]);
  }

  lemma RaceGoesOn()
    ensures forall i :: 2 <= i < 4 ==> Leads(RaceStates()[i], RaceActions()[i], RaceStates()[i + 1])
  {
    var ss := RaceStates();
    assert Leads(ss[2], KillConnect(0), ss[3]);
    assert Leads(ss[3], KillAddEvent(0), ss[4]);
  }

  lemma RaceMiddle()
    ensures forall i :: 4 <= i < 7 ==> Leads(RaceStates()[i], RaceActions()[i], RaceStates()[i + 1])
  {
    var ss := RaceStates();
    ThreeAwake(ss[4].threads);
    assert Leads(ss[4], Schedule(0, 0), ss[5]);
    assert Leads(ss[5], KillWait(0), ss[6]);
    assert Leads(ss[6], RunLoop(2), ss[7]);
  }

  lemma RaceEnds()
    ensures forall i :: 7 <= i < 10 ==> Leads(RaceStates()[i], RaceActions()[i], RaceStates()[i + 1])
  {
    var ss := RaceStates();
    assert Leads(ss[7], RemoveEvent(2), ss[8]);
    SignalThree(Deducted(ss[8], 2).threads);
    assert Leads(ss[8], ThreadKill(2), ss[9]);
    assert Leads(ss[9], KillThreads(1, 1), ss[10]);
  }

  /** So the one assertion that may fail does fail in some run. */
  lemma AbortReachable()
    ensures Run(RaceStates(), RaceActions()) && RaceStates()[10].aborted
  {
    hide Do, Enabled;
    RaceBegins();
    RaceGoesOn();
    RaceMiddle();
    RaceEnds();
    var ss, aa := RaceStates(), RaceActions();
    forall i | 0 <= i < |aa| ensures Enabled(ss[i], aa[i]) && ss[i + 1] == Do(ss[i], aa[i]) {
      assert Leads(ss[i], aa[i], ss[i + 1]);
    }
  }

  /** The states of a run in which a call wakes up without a signal while the thread it ordered to exit is still to do so. */
  function JamStates(): seq<State> {
    RaceStates()[..7] +
    [Scene(KillWaiting(1, true), [Ready], QUEUED, [KILLER], 1, 1, NOBODY, 1),
     Scene(KillLeaving(1), [Ready], QUEUED, [KILLER], 1, 1, 0, 1)]
  }

  function JamActions(): seq<Action> {
    RaceActions()[..6] + [WakeUp(0), KillResume(0)]
  }

  lemma JamEnds()
    ensures forall i :: 6 <= i < 8 ==> Leads(JamStates()[i], JamActions()[i], JamStates()[i + 1])
  {
    var ss := JamStates();
    assert Leads(ss[6], WakeUp(0), ss[7]);
    assert Leads(ss[7], KillResume(0), ss[8]);
  }

  /** One wakeup without a signal is enough to block the pool for ever. */
  lemma JamReachable()
    ensures Run(JamStates(), JamActions()) && Jammed(JamStates()[8], 0)
  {
    hide Do, Enabled;
    RaceBegins();
    RaceGoesOn();
    RaceMiddle();
    JamEnds();
    var ss, aa := JamStates(), JamActions();
    forall i | 0 <= i < |aa| ensures Enabled(ss[i], aa[i]) && ss[i + 1] == Do(ss[i], aa[i]) {
      assert i < 6 ==> Leads(RaceStates()[i], RaceActions()[i], RaceStates()[i + 1]);
      assert Leads(ss[i], aa[i], ss[i + 1]);
    }
  }

  function Alone(p: Place, x: Stage, owner: int): State {
    State([], 0, [p], [x], 0, 0, owner, 0, false)
  }

  /** The states of a run in which a pool without threads is told to kill `n`. */
  function VainStates(): seq<State> {
    [Alone(Outside, UNUSED, NOBODY),
     Alone(KillConnecting(0), Stage(0, 0, false, 0, true), 0),
     Alone(KillAdding(0, 0), OPENED, 0),
     Alone(KillWaiting(0, false), OPENED, NOBODY)]
  }

  function VainActions(n: nat): seq<Action> {
    [KillThreads(0, n), KillConnect(0), KillWait(0)]
  }

  /** Whatever number of threads is asked for, such a call ends up waiting in vain. */
  lemma VainReachable(n: nat)
    ensures Run(VainStates(), VainActions(n)) && WaitsInVain(VainStates()[3], 0)
  {
    hide Do, Enabled;
    VainBegins(n);
    VainEnds(n);
    var ss, aa := VainStates(), VainActions(n);
    forall i | 0 <= i < |aa| ensures Enabled(ss[i], aa[i]) && ss[i + 1] == Do(ss[i], aa[i]) {
      assert Leads(ss[i], aa[i], ss[i + 1]);
    }
  }

  lemma VainBegins(n: nat)
    ensures Leads(VainStates()[0], VainActions(n)[0], VainStates()[1])
  {
  }

  lemma VainEnds(n: nat)
    ensures forall i :: 1 <= i < 3 ==> Leads(VainStates()[i], VainActions(n)[i], VainStates()[i + 1])
  {
    var ss := VainStates();
    assert Leads(ss[1], KillConnect(0), ss[2]);
    assert Leads(ss[2], KillWait(0), ss[3]);
  }

  lemma ThreeAwake(ts: seq<Place>)
    requires |ts| == 3 && !ts[0].Asleep? && !ts[1].Asleep? && !ts[2].Asleep?
    ensures Total(Sleeping, ts) == 0
  {
    assert ts[1..][1..] == [ts[2]] && [ts[2]][1..] == [];
    assert Total(Sleeping, ts[1..]) == Weight(Sleeping, ts[1]) + Total(Sleeping, [ts[2]]);
  }

  lemma SignalThree(ts: seq<Place>)
    requires |ts| == 3 && ts[0].KillWaiting? && !ts[1].KillWaiting? && !ts[2].KillWaiting?
    ensures SignalKill(ts) == [KillWaiting(ts[0].n, true), ts[1], ts[2]]
  {
  }
}
