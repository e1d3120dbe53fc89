/**
 The tracer beside the real mutexes. A thread tells the tracer before it locks, after it has locked,
 and only after it has unlocked; around a wait on a condition it tells before it gives the mutex up.
 */
module LockProtocol {
  import opened LockTrace
  import opened Options

  /** Where a thread is between the mutex operations and their reports. */
  datatype Place =
    | Free
    | Wants(m: Mutex)     // announced, perhaps blocked
    | Got(m: Mutex)       // locked, not reported
    | Dropping(m: Mutex)  // unlocked, not reported
    | Parting(m: Mutex)   // about to wait on a condition: reported as unlocked, still locked
    | Resting(m: Mutex)   // waiting on a condition
    | Back(m: Mutex)      // locked again by the wait, not announced

  datatype State = State(x: Tables, owner: map<Mutex, Tid>, at: map<Tid, Place>, bound: nat)

  function At(s: State, t: Tid): Place {
    if t in s.at then s.at[t] else Free
  }

  datatype Action =
    | Announce(t: Tid, m: Mutex)
    | Acquire(t: Tid)
    | Report(t: Tid)
    | Release(t: Tid, m: Mutex)
    | ReportRelease(t: Tid)
    | Part(t: Tid, m: Mutex)
    | Rest(t: Tid)
    | Wake(t: Tid)
    | AnnounceAgain(t: Tid)

  predicate Enabled(s: State, a: Action) {
    var p := At(s, a.t);
    match a
    case Announce(_, _) => p.Free?
    case Acquire(_) => p.Wants? && p.m !in s.owner
    case Report(_) => p.Got?
    case Release(_, m) => p.Free? && m in s.owner && s.owner[m] == a.t
    case ReportRelease(_) => p.Dropping?
    case Part(_, m) => p.Free? && m in s.owner && s.owner[m] == a.t
    case Rest(_) => p.Parting?
    case Wake(_) => p.Resting? && p.m !in s.owner
    case AnnounceAgain(_) => p.Back?
  }

  function Do(s: State, a: Action): State
    requires Enabled(s, a)
  {
    var t, p := a.t, At(s, a.t);
    match a
    case Announce(_, m) => s.(x := Checked(s.x, m, t, s.bound), at := s.at[t := Wants(m)])
    case Acquire(_) => s.(owner := s.owner[p.m := t], at := s.at[t := Got(p.m)])
    case Report(_) => s.(x := Recorded(s.x, p.m, t), at := s.at[t := Free])
    case Release(_, m) => s.(owner := s.owner - {m}, at := s.at[t := Dropping(m)])
    case ReportRelease(_) => s.(x := Forgotten(s.x, p.m, t), at := s.at[t := Free])
    case Part(_, m) => s.(x := Forgotten(s.x, m, t), at := s.at[t := Parting(m)])
    case Rest(_) => s.(owner := s.owner - {p.m}, at := s.at[t := Resting(p.m)])
    case Wake(_) => s.(owner := s.owner[p.m := t], at := s.at[t := Back(p.m)])
    case AnnounceAgain(_) => s.(x := Checked(s.x, p.m, t, s.bound), at := s.at[t := Got(p.m)])
  }

  // ---------------------------------------------------------------- tables that tell the truth

  /** Locked, but not so in the tables. */
  predicate Untold(p: Place, m: Mutex) {
    p == Got(m) || p == Back(m) || p == Parting(m)
  }

  /** An entry is right, or its thread has just unlocked and is about to say so. */
  predicate EntryOk(s: State, m: Mutex) {
    m in s.x.locks ==>
      var t := s.x.locks[m];
      (m in s.owner && s.owner[m] == t && !Untold(At(s, t), m)) || At(s, t) == Dropping(m)
  }

  /** A locked mutex has its entry, or its thread is about to make one or has just withdrawn it. */
  predicate OwnerOk(s: State, m: Mutex) {
    m in s.owner ==> Untold(At(s, s.owner[m]), m) || Holds(s.x, m, s.owner[m])
  }

  /** Only threads on their way to a mutex are recorded as waiting; what a place says of ownership holds. */
  predicate ThreadOk(s: State, t: Tid) {
    && (t in s.x.waits <==> At(s, t).Wants? || At(s, t).Got?)
    && (t in s.x.waits ==> s.x.waits[t] == At(s, t).m)
    && (At(s, t).Got? || At(s, t).Back? || At(s, t).Parting? ==> At(s, t).m in s.owner && s.owner[At(s, t).m] == t)
    && (At(s, t).Dropping? ==> Holds(s.x, At(s, t).m, t) && !(At(s, t).m in s.owner && s.owner[At(s, t).m] == t))
  }

  ghost predicate Faithful(s: State) {
    && Inverse(s.x)
    && (forall m :: EntryOk(s, m) && OwnerOk(s, m))
    && (forall t :: ThreadOk(s, t))
  }

  /** Another thread has unlocked the mutex and not said so yet, while this one reports that it locked it. */
  predicate Overtakes(s: State, a: Action) {
    a.Report? && At(s, a.t).Got? && At(s, a.t).m in s.x.locks
  }

  /** So many threads want a mutex that its owner is looked up, and there is none. */
  predicate Conjures(s: State, a: Action) {
    || (a.Announce? && Phantom(s.x, a.m, s.bound))
    || (a.AnnounceAgain? && At(s, a.t).Back? && Phantom(s.x, At(s, a.t).m, s.bound))
  }

  lemma OvertakenThread(s: State, a: Action)
    requires Faithful(s) && Enabled(s, a) && Overtakes(s, a)
    ensures At(s, s.x.locks[At(s, a.t).m]) == Dropping(At(s, a.t).m)
  {
    assert ThreadOk(s, a.t) && EntryOk(s, At(s, a.t).m);
  }

  lemma StepInverse(s: State, a: Action)
    requires Faithful(s) && Enabled(s, a) && !Overtakes(s, a) && !Conjures(s, a)
    ensures Inverse(Do(s, a).x)
  {
    var p := At(s, a.t);
    assert ThreadOk(s, a.t);
    match a
    case Announce(t, m) => CheckedInverse(s.x, m, t, s.bound);
    case Report(t) => RecordedInverse(s.x, p.m, t);
    case ReportRelease(t) => ForgottenInverse(s.x, p.m, t);
    case Part(t, m) =>
      assert OwnerOk(s, m);
      ForgottenInverse(s.x, m, t);
    case AnnounceAgain(t) => CheckedInverse(s.x, p.m, t, s.bound);
    case _ =>
  }

  lemma StepEntry(s: State, a: Action, m: Mutex)
    requires Faithful(s) && Enabled(s, a) && !Overtakes(s, a) && !Conjures(s, a)
    ensures EntryOk(Do(s, a), m)
  {
    hide OwnedBy, OwnerOk;
    assert ThreadOk(s, a.t) && EntryOk(s, m) && OwnerOk(s, m);
    if m in s.x.locks {
      assert ThreadOk(s, s.x.locks[m]);
    }
  }

  lemma StepOwner(s: State, a: Action, m: Mutex)
    requires Faithful(s) && Enabled(s, a) && !Overtakes(s, a) && !Conjures(s, a)
    ensures OwnerOk(Do(s, a), m)
  {
    assert ThreadOk(s, a.t) && EntryOk(s, m) && OwnerOk(s, m);
    if m in s.owner {
      assert ThreadOk(s, s.owner[m]);
    }
  }

  lemma StepThread(s: State, a: Action, t: Tid)
    requires Faithful(s) && Enabled(s, a) && !Overtakes(s, a) && !Conjures(s, a)
    ensures ThreadOk(Do(s, a), t)
  {
    assert ThreadOk(s, a.t) && ThreadOk(s, t);
    if a.Release? || a.Part? {
      assert OwnerOk(s, a.m);
    }
    if At(s, t).Got? || At(s, t).Back? || At(s, t).Parting? || At(s, t).Dropping? {
      assert EntryOk(s, At(s, t).m) && OwnerOk(s, At(s, t).m);
    }
  }

  /**
   Every step keeps the tables true, with two exceptions: a thread reports a lock before the previous owner
   has reported its unlock, so that the report is lost; or the owner of a free mutex is looked up.
   */
  lemma StepExact(s: State, a: Action)
    requires Faithful(s) && Enabled(s, a)
    ensures Faithful(Do(s, a)) <==> !Overtakes(s, a) && !Conjures(s, a)
  {
    if Overtakes(s, a) {
      OvertakenThread(s, a);
      var m, t, y := At(s, a.t).m, a.t, Do(s, a).x;
      assert m in OwnedBy(y, t) && !Holds(y, m, t);
    } else if Conjures(s, a) {
      CheckedInverse(s.x, if a.Announce? then a.m else At(s, a.t).m, a.t, s.bound);
    } else {
      StepInverse(s, a);
      forall m ensures EntryOk(Do(s, a), m) && OwnerOk(Do(s, a), m) {
        StepEntry(s, a, m);
        StepOwner(s, a, m);
      }
      forall t ensures ThreadOk(Do(s, a), t) {
        StepThread(s, a, t);
      }
    }
  }

  // ---------------------------------------------------------------- real deadlocks

  /** The thread that `t` is really blocked by. */
  function RealNext(s: State, t: Tid): Option<Tid> {
    if At(s, t).Wants? && At(s, t).m in s.owner then Some(s.owner[At(s, t).m]) else None
  }

  function RealReach(s: State, t: Tid, k: nat): Option<Tid> {
    if k == 0 then Some(t)
    else match RealReach(s, t, k - 1)
         case None => None
         case Some(u) => RealNext(s, u)
  }

  lemma {:induction false} RealStops(s: State, t: Tid, k: nat, j: nat)
    requires k <= j && RealReach(s, t, k) == None
    ensures RealReach(s, t, j) == None
  {
    if k < j {
      RealStops(s, t, k, j - 1);
    }
  }

  /** Between threads that wait themselves, the two graphs have the same edges. */
  lemma SameEdge(s: State, u: Tid, v: Tid)
    requires Faithful(s) && At(s, v).Wants?
    ensures Next(s.x, u) == Some(v) <==> RealNext(s, u) == Some(v)
  {
    assert ThreadOk(s, u) && ThreadOk(s, v);
    if u in s.x.waits {
      assert EntryOk(s, s.x.waits[u]) && OwnerOk(s, s.x.waits[u]);
    }
  }

  /** A thread with a recorded successor that itself is recorded as waiting is really waiting. */
  lemma EdgeWants(s: State, u: Tid)
    requires Faithful(s) && Next(s.x, u).Some? && Next(s.x, u).value in s.x.waits
    ensures At(s, u).Wants?
  {
    assert ThreadOk(s, u) && EntryOk(s, s.x.waits[u]) && ThreadOk(s, Next(s.x, u).value);
  }

  /** Along a recorded cycle every thread really waits. */
  lemma CycleWants(s: State, t: Tid, k: nat, j: nat) returns (u: Tid)
    requires Faithful(s) && At(s, t).Wants? && j <= k && Reach(s.x, t, k) == Some(t)
    ensures Reach(s.x, t, j) == Some(u) && At(s, u).Wants?
  {
    if Reach(s.x, t, j) == None {
      ReachStops(s.x, t, j, k);
    }
    u := Reach(s.x, t, j).value;
    if j < k {
      if Reach(s.x, t, j + 1) == None {
        ReachStops(s.x, t, j + 1, k);
      }
      var v := Next(s.x, u).value;
      if j + 1 < k {
        if Reach(s.x, t, j + 2) == None {
          ReachStops(s.x, t, j + 2, k);
        }
        assert Next(s.x, v).Some?;
      } else {
        assert ThreadOk(s, t);
      }
      EdgeWants(s, u);
    }
  }

  lemma {:induction false} RecordedIsReal(s: State, t: Tid, k: nat, j: nat)
    requires Faithful(s) && At(s, t).Wants? && j <= k && Reach(s.x, t, k) == Some(t)
    ensures RealReach(s, t, j) == Reach(s.x, t, j)
  {
    if j > 0 {
      RecordedIsReal(s, t, k, j - 1);
      var u := CycleWants(s, t, k, j - 1);
      var v := CycleWants(s, t, k, j);
      SameEdge(s, u, v);
    }
  }

  lemma {:induction false} RealIsRecorded(s: State, t: Tid, k: nat, j: nat)
    requires Faithful(s) && At(s, t).Wants? && j <= k && RealReach(s, t, k) == Some(t)
    ensures RealReach(s, t, j) == Reach(s.x, t, j)
  {
    if j > 0 {
      RealIsRecorded(s, t, k, j - 1);
      if RealReach(s, t, j) == None {
        RealStops(s, t, j, k);
      }
      var u, v := RealReach(s, t, j - 1).value, RealReach(s, t, j).value;
      if j < k {
        if RealReach(s, t, j + 1) == None {
          RealStops(s, t, j + 1, k);
        }
      }
      SameEdge(s, u, v);
    }
  }

  /**
   While the tables are true, the tracer's cycles through a thread that has just announced itself are
   exactly the circular waits of that length.
   */
  lemma CyclesAreReal(s: State, t: Tid, k: nat)
    requires Faithful(s) && At(s, t).Wants? && k >= 1
    ensures Reach(s.x, t, k) == Some(t) <==> RealReach(s, t, k) == Some(t)
  {
    if Reach(s.x, t, k) == Some(t) {
      RecordedIsReal(s, t, k, k);
    }
    if RealReach(s, t, k) == Some(t) {
      RealIsRecorded(s, t, k, k);
    }
  }

  predicate RealCycle(s: State, t: Tid, bound: nat) {
    exists k :: 1 <= k <= bound && RealReach(s, t, k) == Some(t)
  }

  /**
   The answer of the check: on true tables a thread that is about to lock a mutex is warned iff it is then
   part of a circular wait of at most `bound` threads, or wants a mutex that it has locked itself.
   */
  lemma AlarmIsExact(s: State, t: Tid, m: Mutex)
    requires Faithful(s) && Enabled(s, Announce(t, m)) && !Conjures(s, Announce(t, m)) && m !in s.x.recursive
    ensures var y := Do(s, Announce(t, m));
            Alarm(s.x, m, t, s.bound) <==> RealNext(y, t) == Some(t) || RealCycle(y, t, s.bound)
  {
    var y := Do(s, Announce(t, m));
    StepExact(s, Announce(t, m));
    SameGraph(Announced(s.x, m, t), y.x, t, s.bound);
    forall k | 1 <= k ensures Reach(y.x, t, k) == Some(t) <==> RealReach(y, t, k) == Some(t) {
      CyclesAreReal(y, t, k);
    }
    SameEdge(y, t, t);
    assert Cycle(y.x, t, s.bound) <==> RealCycle(y, t, s.bound);
    if Holds(s.x, m, t) {
      assert Next(y.x, t) == Some(t);
    } else {
      assert Next(y.x, t) != Some(t);
    }
  }

  /** After a wait on a condition the check runs with the mutex locked already, and never warns. */
  lemma QuietAfterRest(s: State, t: Tid)
    requires Faithful(s) && Enabled(s, AnnounceAgain(t)) && !Conjures(s, AnnounceAgain(t))
    ensures !Alarm(s.x, At(s, t).m, t, s.bound)
  {
    var m, x := At(s, t).m, Announced(s.x, At(s, t).m, t);
    assert ThreadOk(s, t) && EntryOk(s, m);
    if m in s.x.locks {
      var v := s.x.locks[m];
      assert ThreadOk(s, v) && At(s, v) == Dropping(m) && v !in x.waits;
      assert Reach(x, t, 1) == Some(v) by {
        assert Reach(x, t, 0) == Some(t);
      }
      assert Reach(x, t, 2) == None;
      forall k | 1 <= k ensures Reach(x, t, k) != Some(t) {
        if k > 1 {
          ReachStops(x, t, 2, k);
        }
      }
    } else {
      assert Reach(x, t, 1) == None by {
        assert Reach(x, t, 0) == Some(t);
      }
      forall k | 1 <= k ensures Reach(x, t, k) != Some(t) {
        ReachStops(x, t, 1, k);
      }
    }
  }

  // ---------------------------------------------------------------- deadlocks last

  /** What the place of a thread says it has locked it has locked; the tables have no part in this. */
  ghost predicate Real(s: State) {
    forall t :: HasLocked(s, t)
  }

  predicate HasLocked(s: State, t: Tid) {
    var p := At(s, t);
    p.Got? || p.Back? || p.Parting? ==> p.m in s.owner && s.owner[p.m] == t
  }

  lemma StepLocked(s: State, a: Action, t: Tid)
    requires Real(s) && Enabled(s, a)
    ensures HasLocked(Do(s, a), t)
  {
    assert HasLocked(s, a.t) && HasLocked(s, t);
  }

  /** Every step keeps what the places say, whatever becomes of the tables. */
  lemma StepReal(s: State, a: Action)
    requires Real(s) && Enabled(s, a)
    ensures Real(Do(s, a))
  {
    hide HasLocked;
    forall t ensures HasLocked(Do(s, a), t) {
      StepLocked(s, a, t);
    }
  }

  /** Two blocked threads in a row stay so: neither can take a step, and nobody else can unlock what they hold. */
  lemma BlockedStay(s: State, a: Action, u: Tid)
    requires Real(s) && Enabled(s, a)
    requires RealNext(s, u).Some? && RealNext(s, RealNext(s, u).value).Some?
    ensures RealNext(Do(s, a), u) == RealNext(s, u) && At(Do(s, a), u) == At(s, u)
  {
    assert HasLocked(s, a.t);
  }

  lemma {:induction false} CycleStays(s: State, a: Action, t: Tid, k: nat, j: nat)
    requires Real(s) && Enabled(s, a) && k >= 1 && RealReach(s, t, k) == Some(t) && j <= k
    ensures RealReach(Do(s, a), t, j) == RealReach(s, t, j)
  {
    if j > 0 {
      CycleStays(s, a, t, k, j - 1);
      if RealReach(s, t, j) == None {
        RealStops(s, t, j, k);
      }
      if j < k && RealReach(s, t, j + 1) == None {
        RealStops(s, t, j + 1, k);
      }
      if RealReach(s, t, 1) == None {
        RealStops(s, t, 1, k);
      }
      assert RealReach(s, t, 1) == RealNext(s, t) by {
        assert RealReach(s, t, 0) == Some(t);
      }
      BlockedStay(s, a, RealReach(s, t, j - 1).value);
    }
  }

  // ---------------------------------------------------------------- a report overtaken

  /** The state after a run of steps, if all of them can be taken. */
  function After(s: State, run: seq<Action>): Option<State>
    decreases |run|
  {
    if run == [] then Some(s)
    else if Enabled(s, run[0]) then After(Do(s, run[0]), run[1..])
    else None
  }

  lemma {:induction false} AfterBoth(s: State, one: seq<Action>, two: seq<Action>)
    ensures After(s, one + two) == match After(s, one) case None => None case Some(y) => After(y, two)
    decreases |one|
  {
    if one == [] {
      assert one + two == two;
    } else {
      assert (one + two)[0] == one[0] && (one + two)[1..] == one[1..] + two;
      if Enabled(s, one[0]) {
        AfterBoth(Do(s, one[0]), one[1..], two);
      }
    }
  }

  function Start(bound: nat): State {
    State(Tables(map[], map[], map[], map[], {}), map[], map[], bound)
  }

  /** No step of the run overtakes a report or looks up the owner of a free mutex. */
  predicate Clean(s: State, run: seq<Action>)
    decreases |run|
  {
    run == [] || (Enabled(s, run[0]) && !Overtakes(s, run[0]) && !Conjures(s, run[0]) && Clean(Do(s, run[0]), run[1..]))
  }

  /** Safety over runs from the empty tables. */
  lemma {:induction false} CleanRuns(s: State, run: seq<Action>)
    requires Faithful(s) && Clean(s, run)
    ensures After(s, run).Some? && Faithful(After(s, run).value)
    decreases |run|
  {
    if run != [] {
      StepExact(s, run[0]);
      CleanRuns(Do(s, run[0]), run[1..]);
    }
  }

  lemma StartFaithful(bound: nat, m: Mutex)
    ensures Faithful(Start(bound)) && TimesOk(Start(bound), m)
  {
    var s := Start(bound);
    forall n, t ensures Holds(s.x, n, t) <==> n in OwnedBy(s.x, t) {
    }
    assert Seekers(s, m) == {};
  }

  /** From the empty tables, every run without the two exceptions ends with true tables. */
  lemma TrueFromStart(bound: nat, run: seq<Action>)
    requires Clean(Start(bound), run)
    ensures After(Start(bound), run).Some? && Faithful(After(Start(bound), run).value)
  {
    StartFaithful(bound, 0);
    CleanRuns(Start(bound), run);
  }

  lemma AfterStep(s: State, a: Action, rest: seq<Action>)
    requires Enabled(s, a)
    ensures After(s, [a] + rest) == After(Do(s, a), rest)
  {
    assert ([a] + rest)[1..] == rest;
  }

  lemma AfterNone(s: State)
    ensures After(s, []) == Some(s)
  {
  }

  lemma LockSteps(s: State, t: Tid, m: Mutex)
    requires At(s, t) == Free && m !in s.owner
    ensures Enabled(s, Announce(t, m)) && Enabled(Do(s, Announce(t, m)), Acquire(t)) && Enabled(Do(Do(s, Announce(t, m)), Acquire(t)), Report(t))
  {
  }

  lemma LockTables(x: Tables, t: Tid, m: Mutex, bound: nat)
    requires m !in x.locks && m !in x.times
    ensures Recorded(Checked(x, m, t, bound), m, t)
         == x.(locks := x.locks[m := t], waits := x.waits - {t}, owns := x.owns[t := OwnedBy(x, t) + {m}], times := x.times[m := 0])
  {
    var y := Recorded(Checked(x, m, t, bound), m, t);
    assert y.waits == x.waits - {t};
    assert y.times == x.times[m := 0];
  }

  lemma LockState(s: State, t: Tid, m: Mutex)
    requires At(s, t) == Free && m !in s.owner && m !in s.x.locks && m !in s.x.times
    requires Enabled(s, Announce(t, m)) && Enabled(Do(s, Announce(t, m)), Acquire(t)) && Enabled(Do(Do(s, Announce(t, m)), Acquire(t)), Report(t))
    ensures Do(Do(Do(s, Announce(t, m)), Acquire(t)), Report(t))
         == State(s.x.(locks := s.x.locks[m := t], waits := s.x.waits - {t},
                       owns := s.x.owns[t := OwnedBy(s.x, t) + {m}], times := s.x.times[m := 0]),
                  s.owner[m := t], s.at[t := Free], s.bound)
  {
    hide Recorded, Checked, OwnedBy;
    LockTables(s.x, t, m, s.bound);
    var y := Do(Do(Do(s, Announce(t, m)), Acquire(t)), Report(t));
    assert y.at == s.at[t := Free];
  }

  /** Thread `t` locks a free mutex that no table mentions. */
  lemma LockFree(s: State, t: Tid, m: Mutex)
    requires At(s, t) == Free && m !in s.owner && m !in s.x.locks && m !in s.x.times
    ensures After(s, [Announce(t, m), Acquire(t), Report(t)])
         == Some(State(s.x.(locks := s.x.locks[m := t], waits := s.x.waits - {t},
                            owns := s.x.owns[t := OwnedBy(s.x, t) + {m}], times := s.x.times[m := 0]),
                       s.owner[m := t], s.at[t := Free], s.bound))
  {
    hide After, Do, Enabled;
    LockSteps(s, t, m);
    LockState(s, t, m);
    var s1 := Do(s, Announce(t, m));
    var s2 := Do(s1, Acquire(t));
    AfterStep(s, Announce(t, m), [Acquire(t)] + ([Report(t)] + []));
    AfterStep(s1, Acquire(t), [Report(t)] + []);
    AfterStep(s2, Report(t), []);
    AfterNone(Do(s2, Report(t)));
    assert [Announce(t, m), Acquire(t), Report(t)] == [Announce(t, m)] + ([Acquire(t)] + ([Report(t)] + []));
  }

  /** The hand-over in which the new owner reports before the old one does. */
  function HandOver(t: Tid, u: Tid, m: Mutex): seq<Action> {
    ([Announce(u, m)] + ([Release(t, m)] + [])) + ([Acquire(u)] + ([Report(u)] + ([ReportRelease(t)] + [])))
  }

  lemma Unreported(s: State, t: Tid, u: Tid, m: Mutex)
    requires t != u && At(s, t).Free? && At(s, u).Free?
    requires m in s.owner && s.owner[m] == t && m in s.x.locks
    ensures After(s, [Announce(u, m)] + ([Release(t, m)] + [])).Some?
    ensures var y := After(s, [Announce(u, m)] + ([Release(t, m)] + [])).value;
            && y.owner == s.owner - {m} && y.x.locks == s.x.locks
            && y.at == s.at[u := Wants(m)][t := Dropping(m)] && y.bound == s.bound
  {
    hide After;
    var s1 := Do(s, Announce(u, m));
    AfterStep(s, Announce(u, m), [Release(t, m)] + []);
    AfterStep(s1, Release(t, m), []);
    AfterNone(Do(s1, Release(t, m)));
  }

  lemma Overtaken(s: State, t: Tid, u: Tid, m: Mutex)
    requires t != u && At(s, t) == Dropping(m) && At(s, u) == Wants(m) && m !in s.owner && m in s.x.locks
    ensures After(s, [Acquire(u)] + ([Report(u)] + ([ReportRelease(t)] + []))).Some?
    ensures var y := After(s, [Acquire(u)] + ([Report(u)] + ([ReportRelease(t)] + []))).value;
            && y.owner == s.owner[m := u] && m !in y.x.locks
            && y.at == s.at[u := Free][t := Free] && y.bound == s.bound
  {
    hide After;
    var s1 := Do(s, Acquire(u));
    var s2 := Do(s1, Report(u));
    var s3 := Do(s2, ReportRelease(t));
    AfterStep(s, Acquire(u), [Report(u)] + ([ReportRelease(t)] + []));
    AfterStep(s1, Report(u), [ReportRelease(t)] + []);
    AfterStep(s2, ReportRelease(t), []);
    AfterNone(s3);
    assert s3.at == s.at[u := Free][t := Free];
  }

  /** After it the mutex is locked and has no entry. */
  lemma ReportLost(s: State, t: Tid, u: Tid, m: Mutex)
    requires t != u && At(s, t).Free? && At(s, u).Free?
    requires m in s.owner && s.owner[m] == t && m in s.x.locks
    ensures After(s, HandOver(t, u, m)).Some?
    ensures var y := After(s, HandOver(t, u, m)).value;
            && y.owner == s.owner[m := u] && m !in y.x.locks
            && y.at == s.at[u := Free][t := Free] && y.bound == s.bound
  {
    hide After;
    var first, second := [Announce(u, m)] + ([Release(t, m)] + []), [Acquire(u)] + ([Report(u)] + ([ReportRelease(t)] + []));
    Unreported(s, t, u, m);
    var y := After(s, first).value;
    Overtaken(y, t, u, m);
    AfterBoth(s, first, second);
    assert (s.owner - {m})[m := u] == s.owner[m := u];
    assert s.at[u := Wants(m)][t := Dropping(m)][u := Free][t := Free] == s.at[u := Free][t := Free];
  }

  /** Thread 3 owns mutex 1, thread 2 got mutex 0 from thread 1 in this way and wants mutex 1. */
  function MissedRun(): seq<Action> {
    ([Announce(1, 0), Acquire(1), Report(1)] + [Announce(3, 1), Acquire(3), Report(3)]) + (HandOver(1, 2, 0) + ([Announce(2, 1)] + []))
  }

  lemma MissedState(bound: nat) returns (s: State)
    ensures After(Start(bound), MissedRun()) == Some(s) && s.bound == bound
    ensures s.owner == map[0 := 2, 1 := 3] && 0 !in s.x.locks && At(s, 2) == Wants(1) && At(s, 3) == Free
  {
    hide After, HandOver;
    LockFree(Start(bound), 1, 0);
    var s1 := After(Start(bound), [Announce(1, 0), Acquire(1), Report(1)]).value;
    LockFree(s1, 3, 1);
    var s2 := After(s1, [Announce(3, 1), Acquire(3), Report(3)]).value;
    AfterBoth(Start(bound), [Announce(1, 0), Acquire(1), Report(1)], [Announce(3, 1), Acquire(3), Report(3)]);
    ReportLost(s2, 1, 2, 0);
    var s3 := After(s2, HandOver(1, 2, 0)).value;
    AfterBoth(s2, HandOver(1, 2, 0), [Announce(2, 1)] + []);
    s := Do(s3, Announce(2, 1));
    AfterStep(s3, Announce(2, 1), []);
    AfterNone(s);
    AfterBoth(Start(bound), [Announce(1, 0), Acquire(1), Report(1)] + [Announce(3, 1), Acquire(3), Report(3)],
              HandOver(1, 2, 0) + ([Announce(2, 1)] + []));
  }

  /** A run from the empty state to a deadlock of two threads that the last check does not see, whatever the bound. */
  lemma DeadlockMissed(bound: nat)
    ensures After(Start(bound), MissedRun()).Some?
    ensures var s := After(Start(bound), MissedRun()).value;
            && Enabled(s, Announce(3, 0)) && !Alarm(s.x, 0, 3, bound)
            && RealCycle(Do(s, Announce(3, 0)), 3, 2)
  {
    hide After, MissedRun;
    var s := MissedState(bound);
    var x, y := Announced(s.x, 0, 3), Do(s, Announce(3, 0));
    assert Reach(x, 3, 1) == None by {
      assert Reach(x, 3, 0) == Some(3);
    }
    forall k | 1 <= k ensures Reach(x, 3, k) != Some(3) {
      ReachStops(x, 3, 1, k);
    }
    assert RealReach(y, 3, 0) == Some(3);
    assert RealReach(y, 3, 1) == Some(2);
    assert RealReach(y, 3, 2) == Some(3);
  }
  /** Along any run the threads of a circle go on waiting for each other. */
  lemma {:induction false} CircleLasts(s: State, run: seq<Action>, t: Tid, k: nat)
    requires Real(s) && k >= 1 && RealReach(s, t, k) == Some(t) && After(s, run).Some?
    ensures Real(After(s, run).value)
    ensures forall j :: 0 <= j <= k ==> RealReach(After(s, run).value, t, j) == RealReach(s, t, j)
    decreases |run|
  {
    hide Real, RealReach;
    if run != [] {
      var y := Do(s, run[0]);
      StepReal(s, run[0]);
      forall j | 0 <= j <= k ensures RealReach(y, t, j) == RealReach(s, t, j) {
        CycleStays(s, run[0], t, k, j);
      }
      CircleLasts(y, run[1..], t, k);
    }
  }

  lemma {:induction false} RealAlong(s: State, run: seq<Action>)
    requires Real(s) && After(s, run).Some?
    ensures Real(After(s, run).value)
    decreases |run|
  {
    hide Real;
    if run != [] {
      StepReal(s, run[0]);
      RealAlong(Do(s, run[0]), run[1..]);
    }
  }

  /**
   A circular wait is for ever: once a run from the empty tables has led into one, no continuation ends it,
   whether the tables are true or not.
   */
  lemma DeadlockForever(bound: nat, run: seq<Action>, more: seq<Action>, t: Tid, n: nat)
    requires After(Start(bound), run).Some? && RealCycle(After(Start(bound), run).value, t, n)
    requires After(Start(bound), run + more).Some?
    ensures RealCycle(After(Start(bound), run + more).value, t, n)
  {
    hide After, RealReach;
    var s := After(Start(bound), run).value;
    AfterBoth(Start(bound), run, more);
    RealAlong(Start(bound), run);
    var k :| 1 <= k <= n && RealReach(s, t, k) == Some(t);
    CircleLasts(s, more, t, k);
    assert RealReach(After(s, more).value, t, k) == Some(t);
  }

  /** The deadlock that the check does not see is one for ever. */
  lemma MissedForever(bound: nat, more: seq<Action>)
    requires After(Start(bound), MissedRun() + [Announce(3, 0)] + more).Some?
    ensures RealCycle(After(Start(bound), MissedRun() + [Announce(3, 0)] + more).value, 3, 2)
  {
    hide After, MissedRun;
    DeadlockMissed(bound);
    var s := After(Start(bound), MissedRun()).value;
    assert [Announce(3, 0)] + [] == [Announce(3, 0)];
    AfterStep(s, Announce(3, 0), []);
    AfterNone(Do(s, Announce(3, 0)));
    AfterBoth(Start(bound), MissedRun(), [Announce(3, 0)]);
    DeadlockForever(bound, MissedRun() + [Announce(3, 0)], more, 3, 2);
  }

  // ---------------------------------------------------------------- an owner conjured up

  /** Threads 1 to `n` announce, one after the other, that they want mutex 0. */
  function Crowd(n: nat): seq<Action> {
    if n == 0 then [] else Crowd(n - 1) + ([Announce(n, 0)] + [])
  }

  lemma {:induction false} CrowdWaits(bound: nat, n: nat) returns (s: State)
    requires n <= bound || n == 1
    ensures After(Start(bound), Crowd(n)) == Some(s) && s.bound == bound && s.x.locks == map[]
    ensures forall t :: t > n ==> At(s, t) == Free
    ensures if n == 0 then 0 !in s.x.times else 0 in s.x.times && s.x.times[0] == n
  {
    hide After;
    if n == 0 {
      s := Start(bound);
      AfterNone(s);
    } else {
      var r := CrowdWaits(bound, n - 1);
      s := Do(r, Announce(n, 0));
      forall t | t > n ensures At(s, t) == Free {
        assert At(r, t) == Free;
      }
      AfterStep(r, Announce(n, 0), []);
      AfterNone(s);
      AfterBoth(Start(bound), Crowd(n - 1), [Announce(n, 0)] + []);
    }
  }

  /** As many threads as the bound says, and one more, and the free mutex has an owner whom nobody is. */
  lemma PhantomReachable(bound: nat)
    ensures var n := if bound == 0 then 1 else bound;
            && After(Start(bound), Crowd(n)).Some?
            && var s := After(Start(bound), Crowd(n)).value;
               Enabled(s, Announce(n + 1, 0)) && Conjures(s, Announce(n + 1, 0)) && Holds(Do(s, Announce(n + 1, 0)).x, 0, NOBODY)
  {
    hide After, Crowd;
    var s := CrowdWaits(bound, if bound == 0 then 1 else bound);
  }

  // ---------------------------------------------------------------- counting the threads that want a mutex

  /** The threads on their way to mutex `m`. */
  function Seekers(s: State, m: Mutex): set<Tid> {
    set t | t in s.at && (s.at[t] == Wants(m) || s.at[t] == Got(m))
  }

  predicate TimesOk(s: State, m: Mutex) {
    (if m in s.x.times then s.x.times[m] else 0) == |Seekers(s, m)|
  }

  predicate Seeks(p: Place, m: Mutex) {
    p == Wants(m) || p == Got(m)
  }

  lemma SeekersMove(s: State, t: Tid, p: Place, y: State, m: Mutex)
    requires y.at == s.at[t := p]
    ensures |Seekers(y, m)| - |Seekers(s, m)| == (if Seeks(p, m) then 1 else 0) - (if Seeks(At(s, t), m) then 1 else 0)
  {
    var rest := Seekers(s, m) - {t};
    assert Seekers(s, m) == if Seeks(At(s, t), m) then rest + {t} else rest;
    assert Seekers(y, m) == if Seeks(p, m) then rest + {t} else rest;
  }

  lemma DoMoves(s: State, a: Action)
    requires Enabled(s, a)
    ensures Do(s, a).at == s.at[a.t := At(Do(s, a), a.t)]
  {
  }

  /** The counter of a mutex is the number of threads that announced themselves and have not reported yet. */
  lemma TimesKept(s: State, a: Action, m: Mutex)
    requires Enabled(s, a) && TimesOk(s, m)
    ensures TimesOk(Do(s, a), m)
  {
    hide Seekers;
    DoMoves(s, a);
    SeekersMove(s, a.t, At(Do(s, a), a.t), Do(s, a), m);
  }

  /** In every state of every run from the empty tables, clean or not, the counters count. */
  lemma {:induction false} TimesAlong(s: State, run: seq<Action>, m: Mutex)
    requires TimesOk(s, m) && After(s, run).Some?
    ensures TimesOk(After(s, run).value, m)
    decreases |run|
  {
    hide TimesOk;
    if run != [] {
      TimesKept(s, run[0], m);
      TimesAlong(Do(s, run[0]), run[1..], m);
    }
  }

  lemma TimesFromStart(bound: nat, run: seq<Action>, m: Mutex)
    requires After(Start(bound), run).Some?
    ensures TimesOk(After(Start(bound), run).value, m)
  {
    hide After, TimesOk;
    StartFaithful(bound, m);
    TimesAlong(Start(bound), run, m);
  }
}
