/**
 The timer stage as a state machine: any number of callers that register and cancel timers, and the timer
 thread. Every step is what one of them does while it holds the timer mutex, or the making of a token.
 */
module TimerRuns {
  import opened Options
  import opened TimerQueue

  /** Where a caller is. */
  datatype Caller =
    | Idle
    | Stamped(token: Token)   // has made the token of its timer, has not put it in the queue
    | Owing                   // has put it first in the queue, has not signalled the timer thread yet

  /** The timer thread: about to look at the queue, waiting on the condition, or ended. */
  datatype Keeper = Checking | Waiting(deadline: Option<Timeval>, signalled: bool) | Ended

  datatype Firing = Firing(token: Token, at: Timeval)

  datatype State = State(
    queue: seq<Entry>, numEvents: int, shutdown: bool, keeper: Keeper,
    nonces: nat, callers: map<nat, Caller>,
    registered: set<Token>, cancelled: set<Token>, fired: seq<Firing>)

  function At(s: State, c: nat): Caller {
    if c in s.callers then s.callers[c] else Idle
  }

  datatype Action =
    | Stamp(c: nat, time: Timeval)
    | Register(c: nat, event: int)
    | Trigger(c: nat)
    | Cancel(token: Token)
    | Disconnect
    | Check(now: Timeval)     // the timer thread wakes up, for whatever reason, and makes one pass

  predicate Enabled(s: State, a: Action) {
    match a
    case Stamp(c, _) => At(s, c).Idle?
    case Register(c, _) => At(s, c).Stamped?
    case Trigger(c) => At(s, c).Owing?
    case Cancel(_) => true
    case Disconnect => true
    case Check(_) => !s.keeper.Ended?
  }

  function Signalled(k: Keeper): Keeper {
    if k.Waiting? then Waiting(k.deadline, true) else k
  }

  function Firings(q: seq<Entry>, now: Timeval): (f: seq<Firing>)
    ensures |f| == |q| && forall i :: 0 <= i < |q| ==> f[i] == Firing(q[i].token, now)
  {
    seq(|q|, i requires 0 <= i < |q| => Firing(q[i].token, now))
  }

  function Do(s: State, a: Action): State
    requires Enabled(s, a)
  {
    match a
    case Stamp(c, time) => s.(nonces := s.nonces + 1, callers := s.callers[c := Stamped(Token(time, s.nonces))])
    case Register(c, event) =>
      var t := At(s, c).token;
      var q := Inserted(s.queue, Entry(t, event));
      s.(queue := q, numEvents := s.numEvents + 1, registered := s.registered + {t},
         callers := s.callers[c := if q[0].token == t then Owing else Idle])
    case Trigger(c) => s.(keeper := Signalled(s.keeper), callers := s.callers[c := Idle])
    case Cancel(t) =>
      if IsQueued(s.queue, t) then s.(queue := Erased(s.queue, t), numEvents := s.numEvents - 1, cancelled := s.cancelled + {t})
      else s
    case Disconnect => s.(shutdown := true, keeper := Signalled(s.keeper))
    case Check(now) =>
      var n := Due(s.queue, now);
      s.(queue := s.queue[n..], numEvents := s.numEvents - n, fired := s.fired + Firings(s.queue[..n], now),
         keeper := if s.shutdown then Ended
                   else Waiting(if s.queue[n..] == [] then None else Some(s.queue[n].token.time), false))
  }

  function Start(): State {
    State([], 0, false, Checking, 0, map[], {}, {}, [])
  }

  // ---------------------------------------------------------------- what every step keeps

  function FiredTokens(f: seq<Firing>): set<Token> {
    set x | x in f :: x.token
  }

  predicate NoRepeats(f: seq<Firing>) {
    forall i, j :: 0 <= i < j < |f| ==> f[i].token != f[j].token
  }

  predicate QueueOk(s: State) {
    Sorted(s.queue) && s.numEvents == |s.queue|
  }

  /** Every registered timer is queued, fired or cancelled, and only one of these; and it fires once. */
  predicate Partition(s: State) {
    && s.registered == Tokens(s.queue) + s.cancelled + FiredTokens(s.fired)
    && Tokens(s.queue) !! s.cancelled
    && Tokens(s.queue) !! FiredTokens(s.fired)
    && s.cancelled !! FiredTokens(s.fired)
    && NoRepeats(s.fired)
  }

  /** The tokens being registered are new, and different from each other. */
  ghost predicate NoncesOk(s: State) {
    && (forall t :: t in s.registered ==> t.nonce < s.nonces)
    && (forall c :: StampOk(s, c))
    && (forall c, d :: c != d ==> StampsDiffer(s, c, d))
  }

  predicate StampOk(s: State, c: nat) {
    At(s, c).Stamped? ==> At(s, c).token.nonce < s.nonces && At(s, c).token !in s.registered
  }

  predicate StampsDiffer(s: State, c: nat, d: nat) {
    At(s, c).Stamped? && At(s, d).Stamped? ==> At(s, c).token.nonce != At(s, d).token.nonce
  }

  /** No timer fires before its time. */
  predicate OnTime(s: State) {
    forall f :: f in s.fired ==> !Less(f.at, f.token.time)
  }

  /** Some caller still has to signal the timer thread. */
  ghost predicate SomeoneOwes(s: State) {
    exists c :: At(s, c).Owing?
  }

  /** The timer thread does not sleep past the first timer, unless a signal is on its way; nor after a shutdown. */
  ghost predicate WakesUp(s: State) {
    s.keeper.Waiting? && !s.keeper.signalled ==>
      && !s.shutdown
      && (s.queue != [] ==>
            SomeoneOwes(s) || (s.keeper.deadline.Some? && !Less(s.queue[0].token.time, s.keeper.deadline.value)))
  }

  ghost predicate Inv(s: State) {
    QueueOk(s) && Partition(s) && NoncesOk(s) && OnTime(s) && WakesUp(s)
  }

  lemma StartInv()
    ensures Inv(Start())
  {
  }

  /** The assertion in the registration never fails: the token is not in the queue. */
  lemma RegisterFresh(s: State, c: nat)
    requires Inv(s) && At(s, c).Stamped?
    ensures At(s, c).token !in Tokens(s.queue) && !IsQueued(s.queue, At(s, c).token)
  {
    assert StampOk(s, c);
    QueuedIsIn(s.queue, At(s, c).token);
  }

  lemma StepQueue(s: State, a: Action)
    requires Inv(s) && Enabled(s, a)
    ensures QueueOk(Do(s, a))
  {
    hide TokenLess, Place, IsQueued, Due;
    match a
    case Register(c, event) =>
      RegisterFresh(s, c);
      InsertSorted(s.queue, Entry(At(s, c).token, event));
    case Cancel(t) =>
      if IsQueued(s.queue, t) {
        EraseSorted(s.queue, t);
      }
    case _ =>
  }

  lemma TokensSplit(q: seq<Entry>, n: nat)
    requires n <= |q| && Sorted(q)
    ensures Tokens(q) == Tokens(q[..n]) + Tokens(q[n..]) && Tokens(q[..n]) !! Tokens(q[n..])
  {
    assert q == q[..n] + q[n..];
    forall e, f | e in q[..n] && f in q[n..] ensures e.token != f.token {
      var i :| 0 <= i < n && q[i] == e;
      var j :| n <= j < |q| && q[j] == f;
      TokensOrdered(e.token, f.token, f.token);
    }
  }

  lemma FiringsTokens(f: seq<Firing>, q: seq<Entry>, now: Timeval)
    ensures FiredTokens(f + Firings(q, now)) == FiredTokens(f) + Tokens(q)
  {
    var g := Firings(q, now);
    forall e | e in q ensures Firing(e.token, now) in g {
      var i :| 0 <= i < |q| && q[i] == e;
      assert g[i] == Firing(e.token, now);
    }
  }

  lemma FiringsOnce(f: seq<Firing>, q: seq<Entry>, now: Timeval)
    requires NoRepeats(f) && Sorted(q) && Tokens(q) !! FiredTokens(f)
    ensures NoRepeats(f + Firings(q, now))
  {
    var r := f + Firings(q, now);
    forall i, j | 0 <= i < j < |r| ensures r[i].token != r[j].token {
      if i < |f| <= j {
        assert f[i].token in FiredTokens(f) && q[j - |f|].token in Tokens(q);
      } else if |f| <= i {
        TokensOrdered(r[i].token, r[j].token, r[j].token);
      }
    }
  }

  lemma StepPartition(s: State, a: Action)
    requires Inv(s) && Enabled(s, a)
    ensures Partition(Do(s, a))
  {
    hide TokenLess, Place, IsQueued, Due, Sorted, Tokens, FiredTokens, NoRepeats, Inserted, Erased;
    match a
    case Register(c, event) =>
      RegisterFresh(s, c);
      assert StampOk(s, c);
      InsertSorted(s.queue, Entry(At(s, c).token, event));
    case Cancel(t) =>
      if IsQueued(s.queue, t) {
        QueuedIsIn(s.queue, t);
        EraseSorted(s.queue, t);
      }
    case Check(now) =>
      var n := Due(s.queue, now);
      TokensSplit(s.queue, n);
      FiringsTokens(s.fired, s.queue[..n], now);
      FrontSorted(s.queue, n);
      FiringsOnce(s.fired, s.queue[..n], now);
    case _ =>
  }

  lemma FrontSorted(q: seq<Entry>, n: nat)
    requires n <= |q| && Sorted(q)
    ensures Sorted(q[..n]) && Sorted(q[n..])
  {
  }

  lemma StepNonces(s: State, a: Action)
    requires Inv(s) && Enabled(s, a)
    ensures NoncesOk(Do(s, a))
  {
    hide Sorted, Tokens, FiredTokens, NoRepeats, Inserted, Erased, IsQueued, Due, Firings;
    var y := Do(s, a);
    if a.Register? {
      assert StampOk(s, a.c);
    }
    forall c ensures StampOk(y, c) {
      assert StampOk(s, c);
      if a.Register? && c != a.c {
        assert StampsDiffer(s, c, a.c);
      }
    }
    forall c, d | c != d ensures StampsDiffer(y, c, d) {
      assert StampsDiffer(s, c, d) && StampOk(s, c) && StampOk(s, d);
    }
  }

  lemma StepOnTime(s: State, a: Action)
    requires Inv(s) && Enabled(s, a)
    ensures OnTime(Do(s, a))
  {
    hide Sorted, Tokens, FiredTokens, NoRepeats, Inserted, Erased, IsQueued, Less;
  }

  lemma OwesKept(s: State, a: Action)
    requires Enabled(s, a) && !a.Trigger? && SomeoneOwes(s)
    ensures SomeoneOwes(Do(s, a))
  {
    var c :| At(s, c).Owing?;
    assert At(Do(s, a), c).Owing?;
  }

  /** The head of the queue moves back only by a new timer that is put there. */
  lemma HeadKept(q: seq<Entry>, e: Entry)
    ensures Inserted(q, e) != [] && (Inserted(q, e)[0] == e || (q != [] && Inserted(q, e)[0] == q[0]))
  {
  }

  lemma HeadLater(q: seq<Entry>, t: Token, d: Timeval)
    requires Sorted(q) && IsQueued(q, t) && !Less(q[0].token.time, d) && Erased(q, t) != []
    ensures !Less(Erased(q, t)[0].token.time, d)
  {
    if Place(q, t) == 0 {
      assert TokenLess(q[0].token, q[1].token);
    }
  }

  lemma StepWakes(s: State, a: Action)
    requires Inv(s) && Enabled(s, a)
    ensures WakesUp(Do(s, a))
  {
    hide Tokens, FiredTokens, NoRepeats, Sorted, Inserted, Erased, TokenLess;
    var y := Do(s, a);
    if !a.Trigger? && SomeoneOwes(s) {
      OwesKept(s, a);
    }
    match a
    case Register(c, event) =>
      HeadKept(s.queue, Entry(At(s, c).token, event));
      if y.queue[0] == Entry(At(s, c).token, event) {
        assert At(y, c).Owing?;
      }
    case Cancel(t) =>
      if IsQueued(s.queue, t) && s.keeper.Waiting? && s.keeper.deadline.Some? && s.queue != []
         && !Less(s.queue[0].token.time, s.keeper.deadline.value) && y.queue != [] {
        HeadLater(s.queue, t, s.keeper.deadline.value);
      }
    case _ =>
  }

  lemma StepKept(s: State, a: Action)
    requires Inv(s) && Enabled(s, a)
    ensures Inv(Do(s, a))
  {
    StepQueue(s, a);
    StepPartition(s, a);
    StepNonces(s, a);
    StepOnTime(s, a);
    StepWakes(s, a);
  }

  // ---------------------------------------------------------------- runs

  function After(s: State, run: seq<Action>): Option<State>
    decreases |run|
  {
    if run == [] then Some(s)
    else if Enabled(s, run[0]) then After(Do(s, run[0]), run[1..])
    else None
  }

  /** The invariant holds in every state that a run reaches. */
  lemma {:induction false} RunsKeep(s: State, run: seq<Action>)
    requires Inv(s) && After(s, run).Some?
    ensures Inv(After(s, run).value)
    decreases |run|
  {
    if run != [] {
      StepKept(s, run[0]);
      RunsKeep(Do(s, run[0]), run[1..]);
    }
  }

  /** So it holds in every state of every run from the start. */
  lemma InvFromStart(run: seq<Action>)
    requires After(Start(), run).Some?
    ensures Inv(After(Start(), run).value)
  {
    hide After;
    StartInv();
    RunsKeep(Start(), run);
  }

  /** What has fired or was cancelled stays so. */
  lemma {:induction false} HistoryGrows(s: State, run: seq<Action>)
    requires After(s, run).Some?
    ensures s.cancelled <= After(s, run).value.cancelled
    ensures s.fired <= After(s, run).value.fired
    decreases |run|
  {
    if run != [] {
      HistoryGrows(Do(s, run[0]), run[1..]);
    }
  }

  /** A timer whose cancellation succeeded never fires, and one whose cancellation failed is not in the queue. */
  lemma CancelDecides(s: State, t: Token, run: seq<Action>)
    requires Inv(s) && t in s.registered && After(Do(s, Cancel(t)), run).Some?
    ensures IsQueued(s.queue, t) ==> t !in FiredTokens(After(Do(s, Cancel(t)), run).value.fired)
    ensures !IsQueued(s.queue, t) <==> t in FiredTokens(s.fired) || t in s.cancelled
  {
    hide TokenLess, Place, IsQueued, Due, Sorted, Tokens, FiredTokens, NoRepeats, Inserted, Erased, After;
    var y := Do(s, Cancel(t));
    QueuedIsIn(s.queue, t);
    StepKept(s, Cancel(t));
    RunsKeep(y, run);
    HistoryGrows(y, run);
  }

  /** After a pass nothing in the queue is due, and what fired in it are exactly the due timers, in token order. */
  lemma PassExact(s: State, now: Timeval)
    requires Inv(s) && Enabled(s, Check(now))
    ensures var y := Do(s, Check(now));
            && s.fired <= y.fired
            && (forall i, j :: |s.fired| <= i < j < |y.fired| ==> TokenLess(y.fired[i].token, y.fired[j].token))
            && (forall e :: e in s.queue ==> (Firing(e.token, now) in y.fired[|s.fired|..] <==> !Less(now, e.token.time)))
            && (forall e :: e in y.queue ==> Less(now, e.token.time))
  {
    hide TokenLess, Less, Partition, NoncesOk, OnTime, WakesUp, Sorted;
    var y, n := Do(s, Check(now)), Due(s.queue, now);
    var q, f := s.queue[..n], Firings(s.queue[..n], now);
    DueSplit(s.queue, now);
    SortedAt(q);
    assert y.fired[|s.fired|..] == f;
    forall i, j | |s.fired| <= i < j < |y.fired| ensures TokenLess(y.fired[i].token, y.fired[j].token) {
      assert y.fired[i] == f[i - |s.fired|] && y.fired[j] == f[j - |s.fired|];
    }
    forall e | e in s.queue ensures Firing(e.token, now) in f <==> !Less(now, e.token.time) {
      if e in q {
        var k :| 0 <= k < n && q[k] == e;
        assert f[k] == Firing(e.token, now);
      }
    }
  }

  lemma SortedAt(q: seq<Entry>)
    requires Sorted(q)
    ensures forall i, j :: 0 <= i < j < |q| ==> TokenLess(q[i].token, q[j].token)
  {
  }

  /** While nobody owes a signal, the timer thread that sleeps unsignalled has a deadline no later than any timer. */
  lemma NeverOversleeps(s: State, e: Entry)
    requires Inv(s) && s.keeper.Waiting? && !s.keeper.signalled && !SomeoneOwes(s) && e in s.queue
    ensures s.keeper.deadline.Some? && !Less(e.token.time, s.keeper.deadline.value)
  {
    var k :| 0 <= k < |s.queue| && s.queue[k] == e;
    assert k == 0 || TokenLess(s.queue[0].token, e.token);
  }

  /** A shutdown ends the timer thread at its next pass; what is still queued then never fires. */
  lemma {:induction false} EndedForGood(s: State, run: seq<Action>)
    requires s.keeper.Ended? && After(s, run).Some?
    ensures After(s, run).value.keeper.Ended? && After(s, run).value.fired == s.fired
    decreases |run|
  {
    if run != [] {
      EndedForGood(Do(s, run[0]), run[1..]);
    }
  }

  lemma ShutdownEnds(s: State, now: Timeval)
    requires Inv(s) && s.shutdown && !s.keeper.Ended?
    ensures (s.keeper.Waiting? ==> s.keeper.signalled) && Do(s, Check(now)).keeper.Ended?
  {
  }
}
