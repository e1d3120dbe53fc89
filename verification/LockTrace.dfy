/** The lock tracer: who owns which mutex, who waits for which, and the search for a deadlock. */
module LockTrace {
  import opened Options

  type Mutex = int

  type Tid = int

  /** The thread number of an entry that was made by looking it up. No thread has it. */
  const NOBODY: Tid := 0

  /** The four tables, and the mutexes created as recursive. */
  datatype Tables = Tables(locks: map<Mutex, Tid>, waits: map<Tid, Mutex>, owns: map<Tid, set<Mutex>>, times: map<Mutex, int>, recursive: set<Mutex>)

  function OwnedBy(x: Tables, t: Tid): set<Mutex> {
    if t in x.owns then x.owns[t] else {}
  }

  /** A mutex is recorded for a thread in one table iff it is in the other. */
  ghost predicate Inverse(x: Tables) {
    forall m, t :: Holds(x, m, t) <==> m in OwnedBy(x, t)
  }

  predicate Holds(x: Tables, m: Mutex, t: Tid) {
    m in x.locks && x.locks[m] == t
  }

  lemma SameInverse(x: Tables, y: Tables)
    requires Inverse(x) && y.locks == x.locks && y.owns == x.owns
    ensures Inverse(y)
  {
    forall m, t ensures Holds(y, m, t) <==> m in OwnedBy(y, t) {
      assert Holds(x, m, t) <==> m in OwnedBy(x, t);
    }
  }

  // ---------------------------------------------------------------- the wait-for graph

  /** Whom thread `t` waits for. */
  function Next(x: Tables, t: Tid): Option<Tid> {
    if t in x.waits && x.waits[t] in x.locks then Some(x.locks[x.waits[t]]) else None
  }

  /** The thread reached from `t` by following `k` waits. */
  function Reach(x: Tables, t: Tid, k: nat): Option<Tid> {
    if k == 0 then Some(t)
    else match Reach(x, t, k - 1)
         case None => None
         case Some(u) => Next(x, u)
  }

  /** A chain of at most `bound` waits leads from `t` back to `t`. */
  predicate Cycle(x: Tables, t: Tid, bound: nat) {
    exists k :: 1 <= k <= bound && Reach(x, t, k) == Some(t)
  }

  lemma {:induction false} ReachStops(x: Tables, t: Tid, k: nat, j: nat)
    requires k <= j && Reach(x, t, k) == None
    ensures Reach(x, t, j) == None
  {
    if k < j {
      ReachStops(x, t, k, j - 1);
    }
  }

  // ---------------------------------------------------------------- the tracer

  class Tracer {
    var x: Tables
    const maxBlock: nat

    constructor (k: nat)
      ensures x == Tables(map[], map[], map[], map[], {}) && maxBlock == k && Inverse(x)
    {
      x := Tables(map[], map[], map[], map[], {});
      maxBlock := k;
    }

    /** Follows the waits from `other`, which is `num` waits away from `t`. */
    method Follow(t: Tid, own: set<Mutex>, other: Tid, num: nat) returns (found: bool)
      requires Inverse(x) && own == OwnedBy(x, t) && num >= 1 && Reach(x, t, num) == Some(other)
      requires forall k :: 1 <= k <= num ==> Reach(x, t, k) != Some(t)
      ensures found <==> Cycle(x, t, maxBlock)
      decreases maxBlock - num
    {
      if num >= maxBlock {
        return false;
      }
      if other !in x.waits {
        ghost var n := num + 1;
        assert Reach(x, t, n) == None;
        forall k | 1 <= k <= maxBlock ensures Reach(x, t, k) != Some(t) {
          if k >= n {
            ReachStops(x, t, n, k);
          }
        }
        return false;
      }
      var m := x.waits[other];
      assert Holds(x, m, t) <==> m in OwnedBy(x, t);
      if m in own {
        assert Reach(x, t, num + 1) == Some(t);
        return true;
      }
      if m !in x.locks {
        ghost var n := num + 1;
        assert Reach(x, t, n) == None;
        forall k | 1 <= k <= maxBlock ensures Reach(x, t, k) != Some(t) {
          if k >= n {
            ReachStops(x, t, n, k);
          }
        }
        return false;
      }
      assert Reach(x, t, num + 1) == Some(x.locks[m]) && x.locks[m] != t;
      found := Follow(t, own, x.locks[m], num + 1);
    }

    /**
     Called before thread `t` locks mutex `m`. The answer is yes iff the thread would wait for itself:
     directly, on a mutex that is not recursive, or through a chain of at most `maxBlock` waits.
     */
    method DeadlockCheck(m: Mutex, t: Tid) returns (found: bool)
      requires Inverse(x)
      modifies this
      ensures x == Announced(old(x), m, t)
      ensures found <==> Alarm(old(x), m, t, maxBlock)
    {
      x := x.(waits := x.waits[t := m]);
      SameInverse(old(x), x);
      assert Next(x, t) == if m in x.locks then Some(x.locks[m]) else None;
      assert Reach(x, t, 1) == Next(x, t) by {
        assert Reach(x, t, 0) == Some(t);
      }
      if m !in x.locks {
        forall k | 1 <= k <= maxBlock ensures Reach(x, t, k) != Some(t) {
          ReachStops(x, t, 1, k);
        }
        return false;
      }
      var other := x.locks[m];
      if t == other {
        return m !in x.recursive;
      }
      if t !in x.owns || x.owns[t] == {} {
        NoWayBack(x, t);
        return false;
      }
      found := Follow(t, x.owns[t], other, 1);
    }

    /**
     Counts the threads that want a mutex. When there are many it looks up the owner for its warning,
     and that lookup creates an entry if there is none.
     */
    method CheckLockTimes(m: Mutex) returns (many: bool)
      modifies this
      ensures x == Counted(old(x), m, maxBlock)
      ensures many <==> m in old(x).times && old(x).times[m] >= maxBlock
    {
      if m !in x.times {
        x := x.(times := x.times[m := 1]);
        return false;
      }
      var n := x.times[m];
      x := x.(times := x.times[m := n + 1]);
      if n >= maxBlock {
        if m !in x.locks {
          x := x.(locks := x.locks[m := NOBODY]);
        }
        return true;
      }
      return false;
    }

    method Check(m: Mutex, t: Tid) returns (deadlock: bool)
      requires Inverse(x)
      modifies this
      ensures x == Checked(old(x), m, t, maxBlock)
      ensures Inverse(x) <==> !Phantom(old(x), m, maxBlock)
      ensures deadlock <==> Alarm(old(x), m, t, maxBlock)
    {
      CheckedInverse(x, m, t, maxBlock);
      deadlock := DeadlockCheck(m, t);
      var many := CheckLockTimes(m);
    }

    /** Records that `t` has locked `m`; an entry that is there already stays. */
    method InsertLock(m: Mutex, t: Tid)
      modifies this
      ensures x == Recorded(old(x), m, t)
      ensures Inverse(old(x)) ==> (Inverse(x) <==> m !in old(x).locks || Holds(old(x), m, t))
    {
      RecordedInverse(x, m, t);
      if m !in x.locks {
        x := x.(locks := x.locks[m := t]);
      }
      x := x.(waits := x.waits - {t});
      var own := if t in x.owns then x.owns[t] else {};
      x := x.(owns := x.owns[t := own + {m}]);
      if m in x.times {
        x := x.(times := x.times[m := x.times[m] - 1]);
      }
    }

    method TryLock(m: Mutex, t: Tid)
      modifies this
      ensures x == if m in old(x).locks then old(x) else Recorded(old(x), m, t)
      ensures Inverse(old(x)) ==> Inverse(x)
    {
      if m in x.locks {
        return;
      }
      InsertLock(m, t);
    }

    method Unlock(m: Mutex, t: Tid)
      modifies this
      ensures x == Forgotten(old(x), m, t)
      ensures Inverse(old(x)) ==> (Inverse(x) <==> m !in old(x).locks || Holds(old(x), m, t))
    {
      ForgottenInverse(x, m, t);
      x := x.(locks := x.locks - {m});
      var own := if t in x.owns then x.owns[t] else {};
      x := x.(owns := x.owns[t := own - {m}]);
    }
  }

  function Announced(x: Tables, m: Mutex, t: Tid): Tables {
    x.(waits := x.waits[t := m])
  }

  /** The thread would wait for itself: directly, on a mutex that is not recursive, or through a chain of waits. */
  predicate Alarm(x: Tables, m: Mutex, t: Tid, bound: nat) {
    if Holds(x, m, t) then m !in x.recursive else Cycle(Announced(x, m, t), t, bound)
  }

  /** The mutex has no owner, and yet so many threads want it that its owner is looked up. */
  predicate Phantom(x: Tables, m: Mutex, bound: nat) {
    m !in x.locks && m in x.times && x.times[m] >= bound
  }

  function Counted(x: Tables, m: Mutex, bound: nat): Tables {
    x.(locks := if Phantom(x, m, bound) then x.locks[m := NOBODY] else x.locks,
       times := x.times[m := (if m in x.times then x.times[m] else 0) + 1])
  }

  /** The tables after a call to check. */
  function Checked(x: Tables, m: Mutex, t: Tid, bound: nat): Tables {
    Counted(Announced(x, m, t), m, bound)
  }

  /** The lookup for the warning is the one way in which a check spoils the tables: an owner that nobody is. */
  lemma CheckedInverse(x: Tables, m: Mutex, t: Tid, bound: nat)
    requires Inverse(x)
    ensures Inverse(Checked(x, m, t, bound)) <==> !Phantom(x, m, bound)
  {
    var y := Checked(x, m, t, bound);
    if Phantom(x, m, bound) {
      assert !Holds(x, m, NOBODY) && Holds(y, m, NOBODY);
    } else {
      SameInverse(x, y);
    }
  }

  /** The tables after a lock was recorded. */
  function Recorded(x: Tables, m: Mutex, t: Tid): Tables {
    x.(locks := if m in x.locks then x.locks else x.locks[m := t],
       waits := x.waits - {t},
       owns := x.owns[t := OwnedBy(x, t) + {m}],
       times := if m in x.times then x.times[m := x.times[m] - 1] else x.times)
  }

  function Forgotten(x: Tables, m: Mutex, t: Tid): Tables {
    x.(locks := x.locks - {m}, owns := x.owns[t := OwnedBy(x, t) - {m}])
  }

  /** Recording keeps the tables inverse iff no other thread is recorded: an entry that is there already stays. */
  lemma RecordedInverse(x: Tables, m: Mutex, t: Tid)
    ensures Inverse(x) ==> (Inverse(Recorded(x, m, t)) <==> m !in x.locks || Holds(x, m, t))
  {
    var y := Recorded(x, m, t);
    if Inverse(x) && (m !in x.locks || Holds(x, m, t)) {
      forall n, u ensures Holds(y, n, u) <==> n in OwnedBy(y, u) {
        assert Holds(x, n, u) <==> n in OwnedBy(x, u);
      }
    } else if Inverse(x) {
      assert m in OwnedBy(y, t) && !Holds(y, m, t);
    }
  }

  /** Forgetting keeps them inverse iff no other thread is recorded: its entry goes all the same. */
  lemma ForgottenInverse(x: Tables, m: Mutex, t: Tid)
    ensures Inverse(x) ==> (Inverse(Forgotten(x, m, t)) <==> m !in x.locks || Holds(x, m, t))
  {
    var y := Forgotten(x, m, t);
    if Inverse(x) && (m !in x.locks || Holds(x, m, t)) {
      forall n, u ensures Holds(y, n, u) <==> n in OwnedBy(y, u) {
        assert Holds(x, n, u) <==> n in OwnedBy(x, u);
      }
    } else if Inverse(x) {
      var u := x.locks[m];
      assert Holds(x, m, u) && m in OwnedBy(y, u) && !Holds(y, m, u);
    }
  }

  /** Nobody waits for a thread that owns nothing. */
  lemma NoWayBack(x: Tables, t: Tid)
    requires Inverse(x) && OwnedBy(x, t) == {}
    ensures forall k :: 1 <= k ==> Reach(x, t, k) != Some(t)
  {
    forall k | 1 <= k ensures Reach(x, t, k) != Some(t) {
      if Reach(x, t, k) == Some(t) {
        var u := Reach(x, t, k - 1).value;
        assert Holds(x, x.waits[u], t);
      }
    }
  }

  lemma {:induction false} SameReach(x: Tables, y: Tables, t: Tid, k: nat)
    requires x.locks == y.locks && x.waits == y.waits
    ensures Reach(x, t, k) == Reach(y, t, k)
  {
    if k > 0 {
      SameReach(x, y, t, k - 1);
    }
  }

  lemma SameGraph(x: Tables, y: Tables, t: Tid, bound: nat)
    requires x.locks == y.locks && x.waits == y.waits
    ensures Cycle(x, t, bound) == Cycle(y, t, bound)
  {
    forall k: nat ensures Reach(x, t, k) == Reach(y, t, k) {
      SameReach(x, y, t, k);
    }
  }
}
