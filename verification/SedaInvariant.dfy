/** What every step of the pool keeps: the counts of threads, tokens, events and kill orders agree. */
module SedaInvariant {
  import opened SedaPool

  // ---------------------------------------------------------------- what every step keeps

  function Tokens(s: State, g: nat): nat {
    multiset(s.queue)[g]
  }

  predicate PoolOk(s: State) {
    && s.idles == Total(Idle, s.threads)
    && s.nthreads == Total(Live, s.threads) - Total(Dead, s.threads)
    && (Total(Sleeping, s.threads) > 0 ==> |s.queue| + Total(Sleeping, s.threads) + Total(Doomed, s.threads) <= Total(Live, s.threads))
    && (forall i :: 0 <= i < |s.queue| ==> s.queue[i] < |s.stages|)
  }

  /**
   Queued events are those with a token, those about to be scheduled or fetched, and those that came
   while the stage was not connected; accepted events are the first three kinds and those being handled.
   */
  predicate StageOk(s: State, g: nat)
    requires g < |s.stages|
  {
    var x := s.stages[g];
    && x.events == Tokens(s, g) + Total(Pending(g), s.threads) + x.loose
    && x.refs == Tokens(s, g) + Total(Pending(g), s.threads) + Total(Busy(g), s.threads)
    && (x.connected ==> x.loose == 0 && x.pooled)
    && (x.refs > 0 ==> x.pooled)
    && (!x.connected && !Leaving(s, g) ==> x.refs == 0)
  }

  predicate PlaceOk(s: State, t: nat)
    requires t < |s.threads| && |s.stages| > 0
  {
    match s.threads[t]
    case Popped(g) => g < |s.stages|
    case Handling(g) => g < |s.stages|
    case Scheduling(h, g) => KILLER < h < |s.stages| && KILLER < g < |s.stages|
    case OutScheduling(g) => KILLER < g < |s.stages|
    case Connecting(g, left) => KILLER < g < |s.stages| && left > 0
    case Disconnecting(g, signalled) => KILLER < g < |s.stages| && !s.stages[g].connected && (!signalled ==> s.stages[g].refs > 0)
    case KillDisconnecting(_, signalled) => s.owner == t && !s.stages[KILLER].connected && (!signalled ==> s.stages[KILLER].refs > 0)
    case _ => true
  }

  /** A call to kill threads is at this place. */
  predicate Kills(p: Place) {
    p.KillConnecting? || p.KillAdding? || p.KillScheduling? || p.KillWaiting? || p.KillLeaving? || p.KillDisconnecting?
  }

  /** Of the ordered exits, those the kill transaction still has to see deducted. */
  predicate KillPlaceOk(s: State, t: nat)
    requires t < |s.threads| && |s.stages| > 0
  {
    var x, dead := s.stages[KILLER], Total(Dead, s.threads);
    match s.threads[t]
    case KillConnecting(n) => s.owner == t && !x.connected && x.pooled && x.refs == 0 && s.toKill == 0 && n <= s.nthreads
    case KillAdding(n, done) => s.owner == t && x.connected && x.refs == done <= n && dead == 0 && s.toKill == 0 && n <= s.nthreads
    case KillScheduling(n, done) => s.owner == t && x.connected && x.refs == done + 1 <= n && dead == 0 && s.toKill == 0 && n <= s.nthreads
    case KillWaiting(n, signalled) => s.owner != t && x.connected && s.toKill == x.refs - dead && (!signalled ==> s.toKill > 0 || n == 0)
    case KillLeaving(n) => s.owner == t && x.connected && s.toKill == x.refs - dead
    case KillDisconnecting(n, _) => s.owner == t && s.toKill == x.refs - dead
    case _ => true
  }

  predicate KillOk(s: State)
    requires |s.stages| > 0
  {
    && s.stages[KILLER].loose == 0
    && s.orders == Total(Exited, s.threads) + s.stages[KILLER].refs
    && (forall t :: 0 <= t < |s.threads| ==> KillPlaceOk(s, t))
    && (forall t, u :: 0 <= t < |s.threads| && 0 <= u < |s.threads| && Kills(s.threads[t]) && Kills(s.threads[u]) ==> t == u)
    && ((forall t :: 0 <= t < |s.threads| ==> !Kills(s.threads[t])) ==> !s.stages[KILLER].connected && s.owner == NOBODY && s.toKill == 0)
    && (forall t :: 0 <= t < |s.threads| && s.owner == t ==> Kills(s.threads[t]))
    && NOBODY <= s.owner < |s.threads|
  }

  predicate Inv(s: State) {
    && |s.stages| > 0 && PoolOk(s) && KillOk(s)
    && (forall g :: 0 <= g < |s.stages| ==> StageOk(s, g))
    && (forall t :: 0 <= t < |s.threads| ==> PlaceOk(s, t))
  }

  predicate Waits(p: Place) {
    p.Disconnecting? || p.KillDisconnecting?
  }

  /** All totals after one thread moved. */
  lemma Moved(s: State, r: State, t: nat, p: Place)
    requires t < |s.threads| && r.threads == s.threads[t := p]
    ensures forall m :: Total(m, r.threads) + Weight(m, s.threads[t]) == Total(m, s.threads) + Weight(m, p)
    ensures forall m :: Total(m, s.threads) >= Weight(m, s.threads[t])
    ensures !Waits(s.threads[t]) ==> forall g :: Leaving(s, g) ==> Leaving(r, g)
  {
    forall m ensures Total(m, r.threads) + Weight(m, s.threads[t]) == Total(m, s.threads) + Weight(m, p) && Total(m, s.threads) >= Weight(m, s.threads[t]) {
      TotalSet(m, s.threads, t, p);
      TotalHas(m, s.threads, t);
    }
    if !Waits(s.threads[t]) {
      forall g | Leaving(s, g) ensures Leaving(r, g) {
        var u :| 0 <= u < |s.threads| && WaitsFor(s.threads[u], g);
        assert WaitsFor(r.threads[u], g);
      }
    }
  }

  /** The kill transaction does not notice a step of another thread that leaves its data alone. */
  lemma KillFrame(s: State, r: State, t: nat, p: Place)
    requires |s.stages| > 0 && |r.stages| > 0 && KillOk(s) && t < |s.threads| && r.threads == s.threads[t := p]
    requires !Kills(s.threads[t]) && !Kills(p)
    requires r.stages[KILLER] == s.stages[KILLER].(events := r.stages[KILLER].events)
    requires r.toKill == s.toKill && r.owner == s.owner && r.orders == s.orders && r.nthreads == s.nthreads
    requires Total(Dead, r.threads) == Total(Dead, s.threads) && Total(Exited, r.threads) == Total(Exited, s.threads)
    ensures KillOk(r)
  {
    hide Total;
    forall u | 0 <= u < |r.threads| ensures KillPlaceOk(r, u) {
      assert KillPlaceOk(s, u);
    }
    if forall u :: 0 <= u < |r.threads| ==> !Kills(r.threads[u]) {
      forall u | 0 <= u < |s.threads| ensures !Kills(s.threads[u]) {
        assert u != t ==> r.threads[u] == s.threads[u];
      }
    }
  }

  /** Waiting threads go on waiting for stages that are still closed and busy. */
  lemma PlacesFrame(s: State, r: State, t: nat, p: Place)
    requires |s.stages| > 0 && |r.stages| == |s.stages| && t < |s.threads| && r.threads == s.threads[t := p] && r.owner == s.owner
    requires forall u :: 0 <= u < |s.threads| ==> PlaceOk(s, u)
    requires forall g :: 0 <= g < |s.stages| && Leaving(s, g) ==> r.stages[g].connected == s.stages[g].connected && (s.stages[g].refs > 0 ==> r.stages[g].refs > 0)
    requires PlaceOk(r, t)
    ensures forall u :: 0 <= u < |r.threads| ==> PlaceOk(r, u)
  {
    forall u | 0 <= u < |r.threads| ensures PlaceOk(r, u) {
      assert PlaceOk(s, u);
      if u != t && s.threads[u].Disconnecting? {
        assert WaitsFor(s.threads[u], s.threads[u].target);
      } else if u != t && s.threads[u].KillDisconnecting? {
        assert WaitsFor(s.threads[u], KILLER);
      }
    }
  }

  /** A sleeper is alive, so is a doomed thread, and no thread is both. */
  lemma {:induction false} LiveCover(ts: seq<Place>)
    ensures Total(Sleeping, ts) + Total(Doomed, ts) <= Total(Live, ts)
  {
    if ts != [] {
      LiveCover(ts[1..]);
    }
  }

  /** One more if `t` is alive and neither. */
  lemma LiveCoverBut(ts: seq<Place>, t: nat)
    requires t < |ts| && Weight(Live, ts[t]) == 1 && Weight(Sleeping, ts[t]) == 0 && Weight(Doomed, ts[t]) == 0
    ensures Total(Sleeping, ts) + Total(Doomed, ts) < Total(Live, ts)
  {
    hide Total;
    LiveCover(ts[t := Gone]);
    TotalSet(Sleeping, ts, t, Gone);
    TotalSet(Doomed, ts, t, Gone);
    TotalSet(Live, ts, t, Gone);
  }

  lemma RunLoopPool(s: State, t: nat)
    requires Inv(s) && Enabled(s, RunLoop(t))
    ensures PoolOk(DoRunLoop(s, t))
  {
    hide Total, KillOk, StageOk;
    Moved(s, DoRunLoop(s, t), t, DoRunLoop(s, t).threads[t]);
    LiveCoverBut(s.threads, t);
  }

  lemma RunLoopStage(s: State, t: nat, g: nat)
    requires Inv(s) && Enabled(s, RunLoop(t)) && g < |s.stages|
    ensures StageOk(DoRunLoop(s, t), g)
  {
    hide Total, KillOk, PoolOk, PlaceOk, Leaving;
    Moved(s, DoRunLoop(s, t), t, DoRunLoop(s, t).threads[t]);
    if s.queue != [] {
      assert s.queue == [s.queue[0]] + s.queue[1..];
    }
    assert StageOk(s, g);
  }

  lemma RunLoopKept(s: State, t: nat)
    requires Inv(s) && Enabled(s, RunLoop(t))
    ensures Inv(DoRunLoop(s, t))
  {
    hide Total, KillOk, Leaving;
    var r := DoRunLoop(s, t);
    Moved(s, r, t, r.threads[t]);
    KillFrame(s, r, t, r.threads[t]);
    PlacesFrame(s, r, t, r.threads[t]);
    RunLoopPool(s, t);
    forall g | 0 <= g < |r.stages| ensures StageOk(r, g) {
      RunLoopStage(s, t, g);
    }
  }

  lemma EventThere(s: State, t: nat)
    requires Inv(s) && Enabled(s, RemoveEvent(t))
    ensures !DoRemoveEvent(s, t).aborted
  {
    hide Total, KillOk, PoolOk, Leaving;
    TotalHas(Pending(s.threads[t].stage), s.threads, t);
    assert StageOk(s, s.threads[t].stage);
  }

  lemma RemoveEventKept(s: State, t: nat)
    requires Inv(s) && Enabled(s, RemoveEvent(t))
    ensures Inv(DoRemoveEvent(s, t))
  {
    hide Total, KillOk, Leaving;
    EventThere(s, t);
    var h, r := s.threads[t].stage, DoRemoveEvent(s, t);
    Moved(s, r, t, Handling(h));
    KillFrame(s, r, t, Handling(h));
    PlacesFrame(s, r, t, Handling(h));
    forall g | 0 <= g < |r.stages| ensures StageOk(r, g) {
      assert StageOk(s, g);
    }
  }

  lemma PoolThere(s: State, g: nat)
    requires Inv(s) && g < |s.stages| && s.stages[g].connected
    ensures s.stages[g].pooled
  {
    assert StageOk(s, g);
  }

  /** An event put on a stage that is not connected. */
  lemma LooseEventKept(s: State, g: nat)
    requires Inv(s) && KILLER < g < |s.stages| && !s.stages[g].connected && |s.threads| > 0
    ensures Inv(Accept(s, g))
  {
    hide Total, KillOk, Leaving;
    var r := Accept(s, g);
    assert r.threads == s.threads;
    assert PoolOk(r);
    SameKill(s, r);
    forall h | 0 <= h < |r.stages| ensures StageOk(r, h) {
      assert StageOk(s, h);
      SameLeaving(s, r, h);
    }
    forall u | 0 <= u < |r.threads| ensures PlaceOk(r, u) {
      assert PlaceOk(s, u);
    }
  }

  lemma SameLeaving(s: State, r: State, g: nat)
    requires r.threads == s.threads
    ensures Leaving(s, g) == Leaving(r, g)
  {
  }

  lemma SameKill(s: State, r: State)
    requires |s.stages| > 0 && |r.stages| > 0 && KillOk(s) && r.threads == s.threads
    requires r.stages[KILLER] == s.stages[KILLER] && r.toKill == s.toKill && r.owner == s.owner && r.orders == s.orders && r.nthreads == s.nthreads
    ensures KillOk(r)
  {
    hide Total;
    forall u | 0 <= u < |r.threads| ensures KillPlaceOk(r, u) {
      assert KillPlaceOk(s, u);
    }
  }

  lemma AddEventKept(s: State, t: nat, g: nat)
    requires Inv(s) && Enabled(s, AddEvent(t, g))
    ensures Inv(DoAddEvent(s, t, g)) && !DoAddEvent(s, t, g).aborted
  {
    hide Total, KillOk, Leaving;
    if s.stages[g].connected {
      PoolThere(s, g);
      var r := DoAddEvent(s, t, g);
      assert PlaceOk(s, t);
      Moved(s, r, t, r.threads[t]);
      KillFrame(s, r, t, r.threads[t]);
      PlacesFrame(s, r, t, r.threads[t]);
      forall h | 0 <= h < |r.stages| ensures StageOk(r, h) {
        assert StageOk(s, h);
      }
    } else {
      LooseEventKept(s, g);
    }
  }

  /** The invariant without what concerns the run queue as a whole. */
  predicate BodyOk(s: State) {
    && |s.stages| > 0 && KillOk(s)
    && (forall g :: 0 <= g < |s.stages| ==> StageOk(s, g))
    && (forall t :: 0 <= t < |s.threads| ==> PlaceOk(s, t))
  }

  predicate Schedules(p: Place) {
    p.Scheduling? || p.OutScheduling? || p.KillScheduling? || (p.Connecting? && p.left > 0)
  }

  /** The token is pushed; nobody was woken yet. */
  function Pushed(s: State, t: nat): State
    requires t < |s.threads| && Schedules(s.threads[t])
  {
    At(s, t, AfterSchedule(s.threads[t])).(queue := s.queue + [Target(s.threads[t])])
  }

  /** What a scheduling thread relies on: its event is still queued, and the stage has its pool. */
  lemma Schedulable(s: State, t: nat)
    requires Inv(s) && t < |s.threads| && Schedules(s.threads[t])
    ensures Target(s.threads[t]) < |s.stages|
    ensures s.stages[Target(s.threads[t])].events > 0 && s.stages[Target(s.threads[t])].pooled
  {
    hide Total, KillOk, PoolOk, Leaving;
    var g := Target(s.threads[t]);
    assert PlaceOk(s, t);
    TotalHas(Pending(g), s.threads, t);
    assert StageOk(s, g);
  }

  lemma PushedStage(s: State, t: nat, g: nat)
    requires Inv(s) && t < |s.threads| && Schedules(s.threads[t]) && g < |s.stages|
    ensures StageOk(Pushed(s, t), g)
  {
    hide Total, KillOk, PoolOk, Leaving, PlaceOk;
    var r := Pushed(s, t);
    Moved(s, r, t, AfterSchedule(s.threads[t]));
    assert StageOk(s, g);
  }

  lemma PushedKill(s: State, t: nat)
    requires Inv(s) && t < |s.threads| && Schedules(s.threads[t])
    ensures KillOk(Pushed(s, t))
  {
    hide Total, PoolOk, Leaving, StageOk, PlaceOk;
    var r := Pushed(s, t);
    Moved(s, r, t, AfterSchedule(s.threads[t]));
    if s.threads[t].KillScheduling? {
      assert KillPlaceOk(s, t);
      assert Kills(r.threads[t]);
      forall u | 0 <= u < |r.threads| ensures KillPlaceOk(r, u) {
        assert KillPlaceOk(s, u);
      }
    } else {
      KillFrame(s, r, t, AfterSchedule(s.threads[t]));
    }
  }

  lemma PushedBody(s: State, t: nat)
    requires Inv(s) && t < |s.threads| && Schedules(s.threads[t])
    ensures BodyOk(Pushed(s, t))
  {
    hide Total, PoolOk, Leaving, StageOk, KillOk;
    var r := Pushed(s, t);
    PushedKill(s, t);
    assert PlaceOk(s, t);
    PlacesFrame(s, r, t, r.threads[t]);
    forall g | 0 <= g < |r.stages| ensures StageOk(r, g) {
      PushedStage(s, t, g);
    }
  }

  /** Waking a sleeper concerns nobody else. */
  lemma RousedBody(s: State, w: nat)
    requires BodyOk(s) && w < |s.threads| && s.threads[w].Asleep?
    ensures BodyOk(At(s, w, Awake))
  {
    hide Total, Leaving, KillOk;
    var r := At(s, w, Awake);
    Moved(s, r, w, Awake);
    KillFrame(s, r, w, Awake);
    PlacesFrame(s, r, w, Awake);
    forall g | 0 <= g < |r.stages| ensures StageOk(r, g) {
      assert StageOk(s, g);
    }
  }

  lemma {:induction false} SleepersIdle(ts: seq<Place>)
    ensures Total(Sleeping, ts) <= Total(Idle, ts)
  {
    if ts != [] {
      SleepersIdle(ts[1..]);
    }
  }

  /** The heart of the matter: the skipped signal is made up for by the pushing thread itself. */
  lemma SchedulePool(s: State, t: nat, w: nat)
    requires Inv(s) && Enabled(s, Schedule(t, w))
    ensures PoolOk(DoSchedule(s, t, w))
  {
    hide Total, KillOk, StageOk, Leaving, Target;
    Schedulable(s, t);
    var q, r := Pushed(s, t), DoSchedule(s, t, w);
    assert PlaceOk(s, t);
    Moved(s, q, t, AfterSchedule(s.threads[t]));
    SleepersIdle(s.threads);
    if IsWorker(s.threads[t]) {
      LiveCoverBut(s.threads, t);
    }
    if (s.queue != [] || !IsWorker(s.threads[t])) && s.idles > 0 && Total(Sleeping, s.threads) > 0 {
      assert s.threads[w].Asleep? && r == At(q, w, Awake);
      Moved(q, r, w, Awake);
    }
  }

  lemma ScheduleKept(s: State, t: nat, w: nat)
    requires Inv(s) && Enabled(s, Schedule(t, w))
    ensures Inv(DoSchedule(s, t, w)) && !DoSchedule(s, t, w).aborted
  {
    hide Total, KillOk, StageOk, PoolOk, PlaceOk, Leaving;
    Schedulable(s, t);
    SchedulePool(s, t, w);
    PushedBody(s, t);
    var q, r := Pushed(s, t), DoSchedule(s, t, w);
    if r != q {
      RousedBody(q, w);
    }
  }

  // ---------------------------------------------------------------- releasing events

  lemma {:induction false} SignalledTotals(m: Measure, ts: seq<Place>, g: nat)
    ensures Total(m, Signalled(ts, g)) == Total(m, ts)
  {
    if ts != [] {
      SignalledTotals(m, ts[1..], g);
      assert Signalled(ts, g)[1..] == Signalled(ts[1..], g);
    }
  }

  /** `r` is `s` after the waiters for stage `g` were told, if there was something to tell. */
  lemma Told(s: State, g: nat)
    ensures var r := Tell(s, g);
            && |r.threads| == |s.threads| && (forall m :: Total(m, r.threads) == Total(m, s.threads))
            && (forall h :: Leaving(r, h) == Leaving(s, h))
  {
    var r := Tell(s, g);
    forall m ensures Total(m, r.threads) == Total(m, s.threads) {
      SignalledTotals(m, s.threads, g);
    }
    forall h ensures Leaving(r, h) == Leaving(s, h) {
      if Leaving(s, h) {
        var u :| 0 <= u < |s.threads| && WaitsFor(s.threads[u], h);
        assert WaitsFor(r.threads[u], h);
      }
    }
  }

  /** Everything but the promise that an unsignalled waiter has something to wait for. */
  predicate PlaceBut(s: State, t: nat, g: nat)
    requires t < |s.threads| && |s.stages| > 0
  {
    match s.threads[t]
    case Disconnecting(h, signalled) => KILLER < h < |s.stages| && !s.stages[h].connected && (!signalled && h != g ==> s.stages[h].refs > 0)
    case KillDisconnecting(_, signalled) => s.owner == t && !s.stages[KILLER].connected && (!signalled && g != KILLER ==> s.stages[KILLER].refs > 0)
    case _ => PlaceOk(s, t)
  }

  lemma ToldPlaces(s: State, g: nat)
    requires |s.stages| > 0 && g < |s.stages| && s.stages[g].refs >= 0 && forall t :: 0 <= t < |s.threads| ==> PlaceBut(s, t, g)
    ensures var r := Tell(s, g); forall t :: 0 <= t < |r.threads| ==> PlaceOk(r, t)
  {
    hide PlaceOk, PlaceBut, Tell;
    ToldSize(s, g);
    forall t | 0 <= t < |Tell(s, g).threads| ensures PlaceOk(Tell(s, g), t) {
      ToldPlace(s, g, t);
    }
  }

  lemma ToldSize(s: State, g: nat)
    ensures |Tell(s, g).threads| == |s.threads| && Tell(s, g).stages == s.stages
  {
  }

  lemma ToldPlace(s: State, g: nat, t: nat)
    requires |s.stages| > 0 && g < |s.stages| && s.stages[g].refs >= 0 && t < |s.threads| && PlaceBut(s, t, g)
    ensures var r := Tell(s, g); t < |r.threads| && PlaceOk(r, t)
  {
    var r := Tell(s, g);
    assert r.threads[t] == s.threads[t] || r.threads[t] == SignalOne(s.threads[t], g);
  }

  lemma ToldKill(s: State, g: nat)
    requires |s.stages| > 0 && KillOk(s)
    ensures KillOk(Tell(s, g))
  {
    hide Total;
    var r := Tell(s, g);
    Told(s, g);
    forall u | 0 <= u < |r.threads| ensures KillPlaceOk(r, u) && Kills(r.threads[u]) == Kills(s.threads[u]) {
      assert KillPlaceOk(s, u);
    }
  }

  /** The event of thread `t` is no longer counted, and the thread is at `p`. */
  function Released(s: State, t: nat, p: Place): State
    requires t < |s.threads| && s.threads[t].Handling? && s.threads[t].stage < |s.stages|
  {
    var g := s.threads[t].stage;
    At(SetStage(s, g, s.stages[g].(refs := s.stages[g].refs - 1)), t, p)
  }

  lemma ReleasedStage(s: State, t: nat, g: nat)
    requires Inv(s) && Enabled(s, ReleaseEvent(t)) && g < |s.stages|
    ensures StageOk(Released(s, t, Ready), g)
  {
    hide Total, KillOk, PoolOk, PlaceOk, Leaving;
    Moved(s, Released(s, t, Ready), t, Ready);
    assert StageOk(s, g);
  }

  lemma ReleasedRest(s: State, t: nat)
    requires Inv(s) && Enabled(s, ReleaseEvent(t))
    ensures var q := Released(s, t, Ready); PoolOk(q) && KillOk(q) && forall u :: 0 <= u < |q.threads| ==> PlaceBut(q, u, s.threads[t].stage)
  {
    hide Total, KillOk, Leaving, StageOk;
    var q := Released(s, t, Ready);
    Moved(s, q, t, Ready);
    KillFrame(s, q, t, Ready);
    forall u | 0 <= u < |q.threads| ensures PlaceBut(q, u, s.threads[t].stage) {
      assert PlaceOk(s, u);
    }
  }

  lemma ToldStage(s: State, g: nat, h: nat)
    requires h < |s.stages| && StageOk(s, h)
    ensures h < |Tell(s, g).stages| && StageOk(Tell(s, g), h)
  {
    hide Total, Leaving;
    Told(s, g);
  }

  lemma ToldPool(s: State, g: nat)
    requires PoolOk(s)
    ensures PoolOk(Tell(s, g))
  {
    hide Total, Leaving;
    Told(s, g);
  }

  /** A handler is done with its event. */
  lemma ReleaseKept(s: State, t: nat)
    requires Inv(s) && Enabled(s, ReleaseEvent(t))
    ensures Inv(DoRelease(s, t, s.threads[t].stage, Ready))
  {
    hide Total, KillOk, PoolOk, PlaceOk, PlaceBut, Leaving;
    var g, q := s.threads[t].stage, Released(s, t, Ready);
    ReleasedRest(s, t);
    ReleasedStage(s, t, g);
    ToldKill(q, g);
    ToldPool(q, g);
    ToldPlaces(q, g);
    forall h | 0 <= h < |q.stages| ensures StageOk(Tell(q, g), h) {
      ReleasedStage(s, t, h);
      ToldStage(q, g, h);
    }
  }

  /** A killed thread releases its event and is gone. */
  lemma ExitKept(s: State, t: nat)
    requires Inv(s) && Enabled(s, Exit(t))
    ensures Inv(DoRelease(s, t, KILLER, Gone))
  {
    hide Total, KillOk, Leaving, Signalled;
    var q := At(SetStage(s, KILLER, s.stages[KILLER].(refs := s.stages[KILLER].refs - 1)), t, Gone);
    Moved(s, q, t, Gone);
    assert StageOk(s, KILLER);
    ExitKill(s, t);
    ToldKill(q, KILLER);
    Told(q, KILLER);
    forall u | 0 <= u < |q.threads| ensures PlaceBut(q, u, KILLER) {
      assert PlaceOk(s, u);
    }
    ToldPlaces(q, KILLER);
    forall h | 0 <= h < |q.stages| ensures StageOk(Tell(q, KILLER), h) {
      assert StageOk(s, h);
    }
  }

  lemma ExitKill(s: State, t: nat)
    requires Inv(s) && Enabled(s, Exit(t))
    ensures KillOk(At(SetStage(s, KILLER, s.stages[KILLER].(refs := s.stages[KILLER].refs - 1)), t, Gone))
  {
    hide Total, PoolOk, Leaving;
    var q := At(SetStage(s, KILLER, s.stages[KILLER].(refs := s.stages[KILLER].refs - 1)), t, Gone);
    Moved(s, q, t, Gone);
    assert StageOk(s, KILLER);
    forall u | 0 <= u < |q.threads| ensures KillPlaceOk(q, u) {
      assert KillPlaceOk(s, u);
    }
    if forall u :: 0 <= u < |q.threads| ==> !Kills(q.threads[u]) {
      forall u | 0 <= u < |s.threads| ensures !Kills(s.threads[u]) {
        assert u != t ==> q.threads[u] == s.threads[u];
      }
    }
  }

  // ---------------------------------------------------------------- killing a thread

  lemma {:induction false} DeadBusy(ts: seq<Place>)
    ensures Total(Dead, ts) <= Total(Busy(KILLER), ts) && Total(Dead, ts) <= Total(Live, ts)
  {
    if ts != [] {
      DeadBusy(ts[1..]);
    }
  }

  lemma {:induction false} SignalKillTotals(m: Measure, ts: seq<Place>)
    ensures Total(m, SignalKill(ts)) == Total(m, ts)
  {
    if ts != [] {
      SignalKillTotals(m, ts[1..]);
      assert SignalKill(ts)[1..] == SignalKill(ts[1..]);
    }
  }

  /** Deducted, nobody told yet. */
  function Deducted(s: State, t: nat): State
    requires t < |s.threads|
  {
    At(s, t, Dying).(nthreads := s.nthreads - 1, toKill := s.toKill - 1)
  }

  /** Only a kill transaction disconnects the killer stage. */
  lemma NobodyLeaving(s: State)
    requires Inv(s) && forall v :: 0 <= v < |s.threads| ==> !Kills(s.threads[v])
    ensures !Leaving(s, KILLER)
  {
    forall u | 0 <= u < |s.threads| ensures !WaitsFor(s.threads[u], KILLER) {
      assert PlaceOk(s, u) && !Kills(s.threads[u]);
    }
  }

  /** A thread that deducts itself does so inside a kill transaction that is waiting for it. */
  lemma KillExpected(s: State, t: nat) returns (u: nat)
    requires Inv(s) && Enabled(s, ThreadKill(t))
    ensures u < |s.threads| && s.threads[u].KillWaiting? && s.toKill > 0
  {
    hide Total, PoolOk;
    assert StageOk(s, KILLER);
    TotalHas(Busy(KILLER), s.threads, t);
    DeadBusy(s.threads[t := Gone]);
    TotalSet(Dead, s.threads, t, Gone);
    TotalSet(Busy(KILLER), s.threads, t, Gone);
    if forall v :: 0 <= v < |s.threads| ==> !Kills(s.threads[v]) {
      NobodyLeaving(s);
    }
    u :| 0 <= u < |s.threads| && Kills(s.threads[u]);
    assert KillPlaceOk(s, u) && PlaceOk(s, u);
  }

  lemma ThreadKillKept(s: State, t: nat)
    requires Inv(s) && Enabled(s, ThreadKill(t))
    ensures Inv(DoThreadKill(s, t))
  {
    hide Total, KillOk, PoolOk, PlaceOk, Leaving, StageOk;
    var q, r := Deducted(s, t), DoThreadKill(s, t);
    ThreadKillPool(s, t);
    ThreadKillPlaces(s, t);
    forall g | 0 <= g < |r.stages| ensures StageOk(r, g) {
      ThreadKillStage(s, t, g);
    }
    ThreadKillKill(s, t);
  }

  lemma ThreadKillTotals(s: State, t: nat)
    requires t < |s.threads|
    ensures var r := DoThreadKill(s, t); forall m :: Total(m, r.threads) + Weight(m, s.threads[t]) == Total(m, s.threads) + Weight(m, Dying)
  {
    hide Total;
    var q, r := Deducted(s, t), DoThreadKill(s, t);
    Moved(s, q, t, Dying);
    forall m ensures Total(m, r.threads) == Total(m, q.threads) {
      SignalKillTotals(m, q.threads);
    }
  }

  lemma ThreadKillPool(s: State, t: nat)
    requires Inv(s) && Enabled(s, ThreadKill(t))
    ensures PoolOk(DoThreadKill(s, t))
  {
    hide Total, KillOk, StageOk, PlaceOk;
    ThreadKillTotals(s, t);
  }

  lemma ThreadKillPlaces(s: State, t: nat)
    requires Inv(s) && Enabled(s, ThreadKill(t))
    ensures var r := DoThreadKill(s, t); forall u :: 0 <= u < |r.threads| ==> PlaceOk(r, u)
  {
    hide Total, KillOk, StageOk, PoolOk;
    var r := DoThreadKill(s, t);
    forall u | 0 <= u < |r.threads| ensures PlaceOk(r, u) {
      assert PlaceOk(s, u);
    }
  }

  lemma ThreadKillStage(s: State, t: nat, g: nat)
    requires Inv(s) && Enabled(s, ThreadKill(t)) && g < |s.stages|
    ensures StageOk(DoThreadKill(s, t), g)
  {
    hide Total, KillOk, PoolOk, PlaceOk;
    var r := DoThreadKill(s, t);
    ThreadKillTotals(s, t);
    assert StageOk(s, g);
    if Leaving(s, g) {
      var u :| 0 <= u < |s.threads| && WaitsFor(s.threads[u], g);
      assert WaitsFor(r.threads[u], g);
    }
  }

  lemma ThreadKillKill(s: State, t: nat)
    requires Inv(s) && Enabled(s, ThreadKill(t))
    ensures KillOk(DoThreadKill(s, t))
  {
    hide Total, PoolOk, PlaceOk, Leaving, StageOk, IsWorker, SignalKill;
    var r := DoThreadKill(s, t);
    ThreadKillTotals(s, t);
    var w := KillExpected(s, t);
    assert Kills(s.threads[w]) && Kills(r.threads[w]);
    forall u | 0 <= u < |r.threads| ensures KillPlaceOk(r, u) && (u != t ==> Kills(r.threads[u]) == Kills(s.threads[u])) {
      assert KillPlaceOk(s, u);
    }
  }

  // ---------------------------------------------------------------- steps of threads outside the pool

  lemma AddThreadKept(s: State, t: nat)
    requires Inv(s) && Enabled(s, AddThread(t))
    ensures Inv(s.(threads := s.threads + [Ready], nthreads := s.nthreads + 1))
  {
    hide Total, Leaving;
    var r := s.(threads := s.threads + [Ready], nthreads := s.nthreads + 1);
    forall m ensures Total(m, r.threads) == Total(m, s.threads) + Weight(m, Ready) {
      TotalAdd(m, s.threads, Ready);
    }
    forall g | 0 <= g < |r.stages| ensures StageOk(r, g) {
      assert StageOk(s, g);
      if Leaving(s, g) {
        AddedLeaving(s, r, g);
      }
    }
    forall u | 0 <= u < |r.threads| ensures PlaceOk(r, u) && KillPlaceOk(r, u) {
      assert u < |s.threads| ==> PlaceOk(s, u) && KillPlaceOk(s, u);
    }
    if forall u :: 0 <= u < |r.threads| ==> !Kills(r.threads[u]) {
      forall u | 0 <= u < |s.threads| ensures !Kills(s.threads[u]) {
        assert r.threads[u] == s.threads[u];
      }
    }
  }

  lemma AddedLeaving(s: State, r: State, g: nat)
    requires r.threads == s.threads + [Ready] && Leaving(s, g)
    ensures Leaving(r, g)
  {
    var u :| 0 <= u < |s.threads| && WaitsFor(s.threads[u], g);
    assert WaitsFor(r.threads[u], g);
  }

  lemma SetPoolKept(s: State, t: nat, g: nat)
    requires Inv(s) && Enabled(s, SetPool(t, g))
    ensures Inv(SetStage(s, g, s.stages[g].(pooled := true)))
  {
    hide Total, KillOk, Leaving;
    var r := SetStage(s, g, s.stages[g].(pooled := true));
    assert r.threads == s.threads;
    SameKill(s, r);
    forall h | 0 <= h < |r.stages| ensures StageOk(r, h) {
      assert StageOk(s, h);
      SameLeaving(s, r, h);
    }
    forall u | 0 <= u < |r.threads| ensures PlaceOk(r, u) {
      assert PlaceOk(s, u);
    }
  }

  function Connected(s: State, t: nat, g: nat): State
    requires Enabled(s, Connect(t, g))
  {
    At(DoConnect(s, g), t, if s.stages[g].events == 0 then Outside else Connecting(g, s.stages[g].events))
  }

  lemma ConnectPool(s: State, t: nat, g: nat)
    requires Inv(s) && Enabled(s, Connect(t, g)) && !Misused(s, Connect(t, g))
    ensures PoolOk(Connected(s, t, g))
  {
    hide Total, KillOk, StageOk, PlaceOk, Leaving;
    var r := Connected(s, t, g);
    Moved(s, r, t, r.threads[t]);
  }

  lemma ConnectStage(s: State, t: nat, g: nat, h: nat)
    requires Inv(s) && Enabled(s, Connect(t, g)) && !Misused(s, Connect(t, g)) && h < |s.stages|
    ensures StageOk(Connected(s, t, g), h)
  {
    hide Total, KillOk, PoolOk, PlaceOk, Leaving;
    var r := Connected(s, t, g);
    Moved(s, r, t, r.threads[t]);
    assert StageOk(s, h);
  }

  lemma ConnectKept(s: State, t: nat, g: nat)
    requires Inv(s) && Enabled(s, Connect(t, g)) && !Misused(s, Connect(t, g))
    ensures Inv(Connected(s, t, g))
  {
    hide Total, KillOk, StageOk, PoolOk, Leaving;
    var r := Connected(s, t, g);
    Moved(s, r, t, r.threads[t]);
    KillFrame(s, r, t, r.threads[t]);
    PlacesFrame(s, r, t, r.threads[t]);
    ConnectPool(s, t, g);
    forall h | 0 <= h < |r.stages| ensures StageOk(r, h) {
      ConnectStage(s, t, g, h);
    }
  }

  lemma DisconnectStage(s: State, t: nat, g: nat, h: nat)
    requires Inv(s) && Enabled(s, Disconnect(t, g)) && !Misused(s, Disconnect(t, g)) && h < |s.stages|
    ensures StageOk(DoDisconnect(s, t, g, Outside, Disconnecting(g, false)), h)
  {
    hide Total, KillOk, PoolOk, PlaceOk, Leaving;
    var r := DoDisconnect(s, t, g, Outside, Disconnecting(g, false));
    Moved(s, r, t, r.threads[t]);
    assert StageOk(s, h);
    if h == g && s.stages[g].refs > 0 {
      NowLeaving(r, t, g);
    }
  }

  lemma DisconnectPool(s: State, t: nat, g: nat)
    requires Inv(s) && Enabled(s, Disconnect(t, g)) && !Misused(s, Disconnect(t, g))
    ensures PoolOk(DoDisconnect(s, t, g, Outside, Disconnecting(g, false)))
  {
    hide Total, KillOk, StageOk, PlaceOk, Leaving;
    var r := DoDisconnect(s, t, g, Outside, Disconnecting(g, false));
    Moved(s, r, t, r.threads[t]);
  }

  /** A stage is closed to new events. */
  lemma DisconnectKept(s: State, t: nat, g: nat)
    requires Inv(s) && Enabled(s, Disconnect(t, g)) && !Misused(s, Disconnect(t, g))
    ensures Inv(DoDisconnect(s, t, g, Outside, Disconnecting(g, false)))
  {
    hide Total, KillOk, Leaving, PoolOk, StageOk;
    var r := DoDisconnect(s, t, g, Outside, Disconnecting(g, false));
    Moved(s, r, t, r.threads[t]);
    KillFrame(s, r, t, r.threads[t]);
    DisconnectPool(s, t, g);
    forall u | 0 <= u < |r.threads| ensures PlaceOk(r, u) {
      assert PlaceOk(s, u);
    }
    forall h | 0 <= h < |r.stages| ensures StageOk(r, h) {
      DisconnectStage(s, t, g, h);
    }
  }

  lemma NowLeaving(s: State, t: nat, g: nat)
    requires t < |s.threads| && WaitsFor(s.threads[t], g)
    ensures Leaving(s, g)
  {
  }

  lemma LeavingKept(s: State, r: State, t: nat, p: Place)
    requires t < |s.threads| && r.threads == s.threads[t := p]
    ensures forall g :: Leaving(s, g) && !WaitsFor(s.threads[t], g) ==> Leaving(r, g)
  {
    forall g | Leaving(s, g) && !WaitsFor(s.threads[t], g) ensures Leaving(r, g) {
      var u :| 0 <= u < |s.threads| && WaitsFor(s.threads[u], g);
      assert WaitsFor(r.threads[u], g);
    }
  }

  lemma DisconnectAgainStage(s: State, t: nat, h: nat)
    requires Inv(s) && Enabled(s, DisconnectAgain(t)) && h < |s.stages|
    ensures StageOk(DoDisconnectAgain(s, t, s.threads[t].target, Outside, Disconnecting(s.threads[t].target, false)), h)
  {
    hide Total, KillOk, Leaving, PoolOk;
    var g := s.threads[t].target;
    var r := DoDisconnectAgain(s, t, g, Outside, Disconnecting(g, false));
    assert StageOk(s, g) && StageOk(s, h) && PlaceOk(s, t);
    Moved(s, r, t, r.threads[t]);
    LeavingKept(s, r, t, r.threads[t]);
    if s.stages[g].refs > 0 {
      NowLeaving(r, t, g);
    }
  }

  lemma DisconnectAgainKept(s: State, t: nat)
    requires Inv(s) && Enabled(s, DisconnectAgain(t))
    ensures Inv(DoDisconnectAgain(s, t, s.threads[t].target, Outside, Disconnecting(s.threads[t].target, false)))
  {
    hide Total, KillOk, Leaving, StageOk;
    var g := s.threads[t].target;
    var r := DoDisconnectAgain(s, t, g, Outside, Disconnecting(g, false));
    assert PlaceOk(s, t);
    Moved(s, r, t, r.threads[t]);
    KillFrame(s, r, t, r.threads[t]);
    forall u | 0 <= u < |r.threads| ensures PlaceOk(r, u) {
      assert PlaceOk(s, u);
    }
    forall h | 0 <= h < |r.stages| ensures StageOk(r, h) {
      DisconnectAgainStage(s, t, h);
    }
  }

  // ---------------------------------------------------------------- the kill transaction

  /** The thread that runs the kill transaction goes on, or is done, without the others noticing. */
  predicate KillStep(s: State, r: State, t: nat, p: Place) {
    && t < |s.threads| && Kills(s.threads[t]) && r.threads == s.threads[t := p] && !s.threads[t].KillScheduling? && !p.KillScheduling?
    && (Kills(p) || p.Outside?) && (Waits(s.threads[t]) ==> Waits(p) || p.Outside?)
    && 0 < |s.stages| == |r.stages| && r.stages == s.stages[KILLER := r.stages[KILLER]]
    && r.stages[KILLER].loose == 0 && r.stages[KILLER].refs == s.stages[KILLER].refs
    && r.orders == s.orders && r.queue == s.queue && r.idles == s.idles && r.nthreads == s.nthreads
    && if Kills(p) then r.owner == t || r.owner == s.owner || (r.owner == NOBODY && s.owner == t) else r.owner == NOBODY && !r.stages[KILLER].connected && r.toKill == 0
  }

  lemma KillStepTotals(s: State, r: State, t: nat, p: Place)
    requires KillStep(s, r, t, p)
    ensures forall m :: Total(m, r.threads) == Total(m, s.threads)
  {
    hide Total;
    Moved(s, r, t, p);
  }

  lemma KillStepKill(s: State, r: State, t: nat, p: Place)
    requires Inv(s) && KillStep(s, r, t, p) && KillPlaceOk(r, t)
    ensures KillOk(r)
  {
    hide Total, PoolOk, StageOk, PlaceOk;
    KillStepTotals(s, r, t, p);
    forall u | 0 <= u < |r.threads| ensures KillPlaceOk(r, u) && (u != t ==> !Kills(r.threads[u])) {
      assert KillPlaceOk(s, u);
    }
    if Kills(p) {
      assert Kills(r.threads[t]);
    }
  }

  lemma KillStepStage(s: State, r: State, t: nat, p: Place, g: nat)
    requires Inv(s) && KillStep(s, r, t, p) && KILLER < g < |s.stages|
    ensures StageOk(r, g)
  {
    hide Total, PoolOk, PlaceOk, KillOk, Leaving;
    KillStepTotals(s, r, t, p);
    assert StageOk(s, g);
    LeavingKept(s, r, t, p);
  }

  lemma KillStepKept(s: State, r: State, t: nat, p: Place)
    requires Inv(s) && KillStep(s, r, t, p) && KillPlaceOk(r, t) && PlaceOk(r, t) && StageOk(r, KILLER)
    ensures Inv(r)
  {
    hide Total, StageOk, Leaving;
    KillStepTotals(s, r, t, p);
    KillStepKill(s, r, t, p);
    forall g | 0 <= g < |r.stages| ensures StageOk(r, g) {
      if g > KILLER {
        KillStepStage(s, r, t, p, g);
      }
    }
    forall u | 0 <= u < |r.threads| ensures PlaceOk(r, u) {
      assert PlaceOk(s, u);
    }
  }

  lemma KillThreadsKept(s: State, t: nat, n: nat)
    requires Inv(s) && Enabled(s, KillThreads(t, n)) && !DoKillThreads(s, t, n).aborted
    ensures Inv(DoKillThreads(s, t, n))
  {
    hide Total, PoolOk;
    var r := DoKillThreads(s, t, n);
    if s.toKill <= 0 {
      forall u | 0 <= u < |s.threads| ensures !Kills(s.threads[u]) {
        assert KillPlaceOk(s, u) && PlaceOk(s, u);
      }
      NobodyLeaving(s);
      KillThreadsStages(s, t, n);
      KillThreadsRest(s, t, n);
    }
  }

  lemma KillThreadsStages(s: State, t: nat, n: nat)
    requires Inv(s) && Enabled(s, KillThreads(t, n)) && s.toKill <= 0 && !s.stages[KILLER].connected
    ensures var r := DoKillThreads(s, t, n); forall g :: 0 <= g < |r.stages| ==> StageOk(r, g)
  {
    hide Total, PoolOk, KillOk, PlaceOk, Leaving;
    var r := DoKillThreads(s, t, n);
    Moved(s, r, t, r.threads[t]);
    forall g | 0 <= g < |r.stages| ensures StageOk(r, g) {
      assert StageOk(s, g);
    }
  }

  lemma KillThreadsRest(s: State, t: nat, n: nat)
    requires Inv(s) && Enabled(s, KillThreads(t, n)) && s.toKill <= 0 && !s.stages[KILLER].connected && !Leaving(s, KILLER)
    requires forall u :: 0 <= u < |s.threads| ==> !Kills(s.threads[u])
    ensures var r := DoKillThreads(s, t, n); PoolOk(r) && KillOk(r) && forall u :: 0 <= u < |r.threads| ==> PlaceOk(r, u)
  {
    hide Total, Leaving;
    var r := DoKillThreads(s, t, n);
    Moved(s, r, t, r.threads[t]);
    DeadBusy(s.threads);
    assert StageOk(s, KILLER);
    assert Kills(r.threads[t]);
    forall u | 0 <= u < |r.threads| ensures PlaceOk(r, u) && KillPlaceOk(r, u) {
      assert PlaceOk(s, u) && KillPlaceOk(s, u);
    }
  }

  /** The killer stage starts with an empty queue. */
  lemma KillConnectKept(s: State, t: nat)
    requires Inv(s) && Enabled(s, KillConnect(t))
    ensures Inv(At(DoConnect(s, KILLER), t, KillAdding(s.threads[t].n, 0)))
  {
    hide Total, Leaving, PoolOk;
    var p := KillAdding(s.threads[t].n, 0);
    var r := At(DoConnect(s, KILLER), t, p);
    assert KillPlaceOk(s, t) && StageOk(s, KILLER);
    DeadBusy(s.threads);
    KillStepTotals(s, r, t, p);
    KillStepKept(s, r, t, p);
  }

  lemma KillWaitKept(s: State, t: nat)
    requires Inv(s) && Enabled(s, KillWait(t))
    ensures Inv(At(s, t, KillWaiting(s.threads[t].n, false)).(toKill := s.threads[t].n, owner := NOBODY))
  {
    hide Total, Leaving, PoolOk;
    var p := KillWaiting(s.threads[t].n, false);
    var r := At(s, t, p).(toKill := s.threads[t].n, owner := NOBODY);
    assert KillPlaceOk(s, t) && StageOk(s, KILLER);
    KillStepTotals(s, r, t, p);
    LeavingKept(s, r, t, p);
    KillStepKept(s, r, t, p);
  }

  lemma KillResumeKept(s: State, t: nat)
    requires Inv(s) && Enabled(s, KillResume(t))
    ensures Inv(At(s, t, KillLeaving(s.threads[t].n)).(owner := t))
  {
    hide Total, Leaving, PoolOk;
    var p := KillLeaving(s.threads[t].n);
    var r := At(s, t, p).(owner := t);
    assert KillPlaceOk(s, t) && StageOk(s, KILLER);
    KillStepTotals(s, r, t, p);
    LeavingKept(s, r, t, p);
    KillStepKept(s, r, t, p);
  }

  /** The end of `disconnect` on the killer stage, whether at once or after waiting. */
  function KillEnd(r: State, t: nat): State
    requires t < |r.threads|
  {
    if r.threads[t].Outside? then r.(owner := NOBODY) else r
  }

  lemma KillDisconnectStage(s: State, t: nat)
    requires Inv(s) && Enabled(s, KillDisconnect(t))
    ensures StageOk(KillEnd(DoDisconnect(s, t, KILLER, Outside, KillDisconnecting(s.threads[t].n, false)), t), KILLER)
  {
    hide Total, Leaving, PoolOk, KillOk, PlaceOk, WaitsFor;
    var r := KillEnd(DoDisconnect(s, t, KILLER, Outside, KillDisconnecting(s.threads[t].n, false)), t);
    var p := r.threads[t];
    assert StageOk(s, KILLER);
    Moved(s, r, t, p);
    if p.KillDisconnecting? {
      NowLeaving(r, t, KILLER);
    }
  }

  lemma KillDisconnectKept(s: State, t: nat)
    requires Inv(s) && Enabled(s, KillDisconnect(t))
    ensures Inv(KillEnd(DoDisconnect(s, t, KILLER, Outside, KillDisconnecting(s.threads[t].n, false)), t))
  {
    hide Total, Leaving, PoolOk, WaitsFor;
    var r := KillEnd(DoDisconnect(s, t, KILLER, Outside, KillDisconnecting(s.threads[t].n, false)), t);
    KillDisconnectStage(s, t);
    assert KillPlaceOk(s, t) && StageOk(s, KILLER);
    DeadBusy(s.threads);
    KillStepTotals(s, r, t, r.threads[t]);
    KillStepKept(s, r, t, r.threads[t]);
  }

  lemma KillDisconnectAgainKept(s: State, t: nat)
    requires Inv(s) && Enabled(s, KillDisconnectAgain(t))
    ensures Inv(KillEnd(DoDisconnectAgain(s, t, KILLER, Outside, KillDisconnecting(s.threads[t].n, false)), t))
  {
    hide Total, Leaving, PoolOk, WaitsFor, Weight;
    var r := KillEnd(DoDisconnectAgain(s, t, KILLER, Outside, KillDisconnecting(s.threads[t].n, false)), t);
    var p := r.threads[t];
    assert KillPlaceOk(s, t) && PlaceOk(s, t) && StageOk(s, KILLER);
    DeadBusy(s.threads);
    Moved(s, r, t, p);
    if p.KillDisconnecting? {
      NowLeaving(r, t, KILLER);
    }
    KillStepTotals(s, r, t, p);
    KillStepKept(s, r, t, p);
  }

  lemma KillAddEventKept(s: State, t: nat)
    requires Inv(s) && Enabled(s, KillAddEvent(t))
    ensures var p := s.threads[t]; var r := At(Accept(s, KILLER), t, KillScheduling(p.n, p.done)).(orders := s.orders + 1);
            !r.aborted && Inv(r)
  {
    hide Total, Leaving, StageOk;
    var p := KillScheduling(s.threads[t].n, s.threads[t].done);
    var r := At(Accept(s, KILLER), t, p).(orders := s.orders + 1);
    assert KillPlaceOk(s, t);
    PoolThere(s, KILLER);
    KillAddEventStages(s, t);
    Moved(s, r, t, p);
    assert Kills(r.threads[t]);
    forall u | 0 <= u < |r.threads| ensures PlaceOk(r, u) && KillPlaceOk(r, u) {
      assert PlaceOk(s, u) && KillPlaceOk(s, u);
    }
  }

  lemma KillAddEventStages(s: State, t: nat)
    requires Inv(s) && Enabled(s, KillAddEvent(t))
    ensures var p := s.threads[t]; var r := At(Accept(s, KILLER), t, KillScheduling(p.n, p.done)).(orders := s.orders + 1);
            forall g :: 0 <= g < |r.stages| ==> StageOk(r, g)
  {
    hide Total, Leaving, PoolOk, PlaceOk;
    var p := KillScheduling(s.threads[t].n, s.threads[t].done);
    var r := At(Accept(s, KILLER), t, p).(orders := s.orders + 1);
    assert KillPlaceOk(s, t);
    Moved(s, r, t, p);
    forall g | 0 <= g < |r.stages| ensures StageOk(r, g) {
      assert StageOk(s, g);
    }
  }

  // ---------------------------------------------------------------- waking up without a signal

  lemma WakeUpKept(s: State, t: nat)
    requires Inv(s) && Enabled(s, WakeUp(t))
    ensures Inv(At(s, t, Roused(s.threads[t])))
  {
    hide Total, Leaving, PoolOk, KillOk, StageOk, PlaceOk;
    var p := s.threads[t];
    if p.Asleep? {
      RousedBody(s, t);
      RousedPool(s, t);
    } else if p.Disconnecting? {
      RousedDisconnect(s, t);
    } else {
      RousedKill(s, t);
    }
  }

  lemma RousedPool(s: State, t: nat)
    requires Inv(s) && t < |s.threads| && s.threads[t].Asleep?
    ensures PoolOk(At(s, t, Awake))
  {
    hide Total, Leaving, KillOk, StageOk, PlaceOk;
    Moved(s, At(s, t, Awake), t, Awake);
  }

  lemma RousedDisconnect(s: State, t: nat)
    requires Inv(s) && t < |s.threads| && s.threads[t].Disconnecting?
    ensures Inv(At(s, t, Roused(s.threads[t])))
  {
    hide Total, Leaving, KillOk;
    var r := At(s, t, Roused(s.threads[t]));
    assert PlaceOk(s, t);
    Moved(s, r, t, r.threads[t]);
    LeavingKept(s, r, t, r.threads[t]);
    NowLeaving(r, t, s.threads[t].target);
    KillFrame(s, r, t, r.threads[t]);
    forall u | 0 <= u < |r.threads| ensures PlaceOk(r, u) {
      assert PlaceOk(s, u);
    }
    forall h | 0 <= h < |r.stages| ensures StageOk(r, h) {
      assert StageOk(s, h);
    }
  }

  lemma RousedKill(s: State, t: nat)
    requires Inv(s) && t < |s.threads| && (s.threads[t].KillWaiting? || s.threads[t].KillDisconnecting?)
    ensures Inv(At(s, t, Roused(s.threads[t])))
  {
    hide Total, Leaving, PoolOk;
    var p := Roused(s.threads[t]);
    var r := At(s, t, p);
    assert KillPlaceOk(s, t) && PlaceOk(s, t) && StageOk(s, KILLER);
    KillStepTotals(s, r, t, p);
    LeavingKept(s, r, t, p);
    if p.KillDisconnecting? {
      NowLeaving(r, t, KILLER);
    }
    KillStepKept(s, r, t, p);
  }

  // ---------------------------------------------------------------- every step

  /** Every step keeps the invariant unless an assertion of the program fails. */
  lemma StepKept(s: State, a: Action)
    requires Inv(s) && Enabled(s, a) && !Do(s, a).aborted
    ensures Inv(Do(s, a))
  {
    hide Total, Leaving, Inv, DoSchedule, DoRunLoop, DoRemoveEvent, DoRelease, DoAddEvent, DoThreadKill, DoDisconnect, DoDisconnectAgain, DoKillThreads;
    match a
    case RunLoop(t) => RunLoopKept(s, t);
    case RemoveEvent(t) => RemoveEventKept(s, t);
    case AddEvent(t, g) => AddEventKept(s, t, g);
    case Schedule(t, w) => ScheduleKept(s, t, w);
    case ReleaseEvent(t) => ReleaseKept(s, t);
    case ThreadKill(t) => ThreadKillKept(s, t);
    case Exit(t) => ExitKept(s, t);
    case AddThread(t) => AddThreadKept(s, t);
    case SetPool(t, g) => SetPoolKept(s, t, g);
    case Connect(t, g) => ConnectKept(s, t, g);
    case Disconnect(t, g) => DisconnectKept(s, t, g);
    case DisconnectAgain(t) => DisconnectAgainKept(s, t);
    case KillThreads(t, n) => KillThreadsKept(s, t, n);
    case KillConnect(t) => KillConnectKept(s, t);
    case KillAddEvent(t) => KillAddEventKept(s, t);
    case KillWait(t) => KillWaitKept(s, t);
    case KillResume(t) => KillResumeKept(s, t);
    case KillDisconnect(t) => KillDisconnectKept(s, t);
    case KillDisconnectAgain(t) => KillDisconnectAgainKept(s, t);
    case WakeUp(t) => WakeUpKept(s, t);
  }
}
