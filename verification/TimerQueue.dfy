/** Times in seconds and microseconds, and the ordered queue of registered timers. */
module TimerQueue {
  import opened Options

  const USEC_PER_SEC := 1000000

  datatype Timeval = Timeval(sec: int, usec: int)

  function Micros(t: Timeval): int {
    t.sec * USEC_PER_SEC + t.usec
  }

  predicate Normal(t: Timeval) {
    0 <= t.usec < USEC_PER_SEC
  }

  predicate Less(s: Timeval, t: Timeval) {
    s.sec < t.sec || (s.sec == t.sec && s.usec < t.usec)
  }

  /** Comparing the two parts compares the times, if the microseconds do not run over. */
  lemma LessIsEarlier(s: Timeval, t: Timeval)
    requires Normal(s) && Normal(t)
    ensures Less(s, t) <==> Micros(s) < Micros(t)
  {
  }

  method SubTimeval(s: Timeval, t: Timeval) returns (r: Timeval)
    ensures Micros(r) == Micros(s) - Micros(t) && r.usec >= 0
    ensures Normal(s) && Normal(t) ==> Normal(r)
  {
    r := Timeval(s.sec - t.sec, s.usec - t.usec);
    while r.usec < 0
      invariant Micros(r) == Micros(s) - Micros(t)
      invariant r.usec < USEC_PER_SEC || r.usec == s.usec - t.usec
      decreases -r.usec
    {
      r := Timeval(r.sec - 1, r.usec + USEC_PER_SEC);
    }
  }

  method AddTimeval(s: Timeval, t: Timeval) returns (r: Timeval)
    ensures Micros(r) == Micros(s) + Micros(t)
    ensures s.usec + t.usec >= 0 ==> Normal(r)
  {
    r := Timeval(s.sec + t.sec, s.usec + t.usec);
    while r.usec >= USEC_PER_SEC
      invariant Micros(r) == Micros(s) + Micros(t)
      invariant s.usec + t.usec >= 0 ==> r.usec >= 0
    {
      r := Timeval(r.sec + 1, r.usec - USEC_PER_SEC);
    }
  }

  /** A wall clock time on the monotonic clock: as far from now on the one as on the other, and always normal. */
  method RealtimeToMonotonic(time: Timeval, wallNow: Timeval, monoNow: Timeval) returns (r: Timeval)
    requires Normal(monoNow)
    ensures Micros(r) - Micros(monoNow) == Micros(time) - Micros(wallNow) && Normal(r)
  {
    var offset := SubTimeval(time, wallNow);
    r := AddTimeval(monoNow, offset);
  }

  /** The time of a timer that is registered for `usec` microseconds from now. */
  method RelativeTime(now: Timeval, usec: nat) returns (r: Timeval)
    requires Normal(now)
    ensures Micros(r) == Micros(now) + usec && Normal(r)
  {
    r := Timeval(now.sec, now.usec + usec);
    if r.usec >= USEC_PER_SEC {
      r := Timeval(r.sec + r.usec / USEC_PER_SEC, r.usec % USEC_PER_SEC);
    }
  }

  // ---------------------------------------------------------------- tokens

  datatype Token = Token(time: Timeval, nonce: nat)

  predicate TokenLess(a: Token, b: Token) {
    if Less(a.time, b.time) then true
    else if a.time == b.time then a.nonce < b.nonce
    else false
  }

  lemma TokensOrdered(a: Token, b: Token, c: Token)
    ensures !TokenLess(a, a)
    ensures TokenLess(a, b) || a == b || TokenLess(b, a)
    ensures !(TokenLess(a, b) && TokenLess(b, a))
    ensures TokenLess(a, b) && TokenLess(b, c) ==> TokenLess(a, c)
  {
  }

  // ---------------------------------------------------------------- the queue

  datatype Entry = Entry(token: Token, event: int)

  predicate Sorted(q: seq<Entry>) {
    forall i, j :: 0 <= i < j < |q| ==> TokenLess(q[i].token, q[j].token)
  }

  function Tokens(q: seq<Entry>): set<Token> {
    set e | e in q :: e.token
  }

  /** The place of a token in the order of the queue. */
  function Place(q: seq<Entry>, t: Token): (i: nat)
    ensures i <= |q|
    ensures forall j :: 0 <= j < i ==> TokenLess(q[j].token, t)
    ensures i < |q| ==> !TokenLess(q[i].token, t)
  {
    if q == [] || !TokenLess(q[0].token, t) then 0 else 1 + Place(q[1..], t)
  }

  predicate IsQueued(q: seq<Entry>, t: Token) {
    Place(q, t) < |q| && q[Place(q, t)].token == t
  }

  function Inserted(q: seq<Entry>, e: Entry): seq<Entry> {
    var i := Place(q, e.token);
    q[..i] + [e] + q[i..]
  }

  function Erased(q: seq<Entry>, t: Token): seq<Entry>
    requires IsQueued(q, t)
  {
    var i := Place(q, t);
    q[..i] + q[i + 1..]
  }

  /** The number of timers at the front whose time is not after `now`. */
  function Due(q: seq<Entry>, now: Timeval): (n: nat)
    ensures n <= |q|
    ensures forall j :: 0 <= j < n ==> !Less(now, q[j].token.time)
    ensures n < |q| ==> Less(now, q[n].token.time)
  {
    if q == [] || Less(now, q[0].token.time) then 0 else 1 + Due(q[1..], now)
  }

  /** Finding a token is finding it anywhere in the queue. */
  lemma QueuedIsIn(q: seq<Entry>, t: Token)
    requires Sorted(q)
    ensures IsQueued(q, t) <==> t in Tokens(q)
  {
    hide TokenLess;
    var i := Place(q, t);
    if t in Tokens(q) {
      var j :| 0 <= j < |q| && q[j].token == t;
      TokensOrdered(t, t, t);
      assert i == j;
    }
  }

  lemma InsertSorted(q: seq<Entry>, e: Entry)
    requires Sorted(q) && !IsQueued(q, e.token)
    ensures Sorted(Inserted(q, e)) && Tokens(Inserted(q, e)) == Tokens(q) + {e.token} && |Inserted(q, e)| == |q| + 1
    ensures Inserted(q, e)[0] == e <==> forall k :: 0 <= k < |q| ==> TokenLess(e.token, q[k].token)
  {
    hide TokenLess;
    var i, r := Place(q, e.token), Inserted(q, e);
    forall k | 0 <= k < |q| ensures k < i || TokenLess(e.token, q[k].token) {
      if k >= i {
        TokensOrdered(e.token, q[i].token, q[k].token);
      }
    }
    assert forall k :: 0 <= k < |q| ==> q[k] == r[if k < i then k else k + 1];
    assert r[i] == e;
    if i > 0 {
      TokensOrdered(q[0].token, e.token, e.token);
    }
  }

  lemma ErasedAt(q: seq<Entry>, t: Token, k: nat)
    requires IsQueued(q, t) && k < |q| - 1
    ensures |Erased(q, t)| == |q| - 1 && Erased(q, t)[k] == q[if k < Place(q, t) then k else k + 1]
  {
  }

  lemma ErasedTokens(q: seq<Entry>, t: Token)
    requires Sorted(q) && IsQueued(q, t)
    ensures Tokens(Erased(q, t)) == Tokens(q) - {t}
  {
    hide TokenLess;
    var i, r := Place(q, t), Erased(q, t);
    TokensOrdered(t, t, t);
    forall k | 0 <= k < |q| && k != i ensures q[k] in r && q[k].token != t {
      assert q[k] == r[if k < i then k else k - 1];
    }
    forall e | e in r ensures e.token in Tokens(q) && e.token != t {
      var k :| 0 <= k < |r| && r[k] == e;
      ErasedAt(q, t, k);
    }
  }

  lemma EraseSorted(q: seq<Entry>, t: Token)
    requires Sorted(q) && IsQueued(q, t)
    ensures Sorted(Erased(q, t)) && Tokens(Erased(q, t)) == Tokens(q) - {t} && |Erased(q, t)| == |q| - 1
  {
    hide TokenLess, Tokens;
    ErasedTokens(q, t);
    forall a, b | 0 <= a < b < |q| - 1 ensures TokenLess(Erased(q, t)[a].token, Erased(q, t)[b].token) {
      ErasedAt(q, t, a);
      ErasedAt(q, t, b);
    }
  }

  /** The timers that are due are at the front, and those at the front are in token order. */
  lemma DueExact(q: seq<Entry>, now: Timeval, k: nat)
    requires Sorted(q) && k < |q|
    ensures k < Due(q, now) <==> !Less(now, q[k].token.time)
  {
    hide TokenLess, Less;
    var n := Due(q, now);
    if n < k {
      LaterToken(q[n].token, q[k].token, now);
    }
  }

  lemma LaterToken(a: Token, b: Token, now: Timeval)
    requires TokenLess(a, b) && Less(now, a.time)
    ensures Less(now, b.time)
  {
  }

  lemma FrontSorted(q: seq<Entry>, n: nat)
    requires Sorted(q) && n <= |q|
    ensures Sorted(q[..n])
  {
    hide TokenLess;
    assert forall k :: 0 <= k < n ==> q[..n][k] == q[k];
  }

  lemma RestSorted(q: seq<Entry>, n: nat)
    requires Sorted(q) && n <= |q|
    ensures Sorted(q[n..])
  {
    hide TokenLess;
    assert forall k :: 0 <= k < |q| - n ==> q[n..][k] == q[n + k];
  }

  lemma InFrontOrRest(q: seq<Entry>, n: nat, e: Entry)
    requires n <= |q| && e in q
    ensures e in q[..n] || e in q[n..]
  {
    var k :| 0 <= k < |q| && q[k] == e;
    if k < n {
      assert q[..n][k] == e;
    } else {
      assert q[n..][k - n] == e;
    }
  }

  lemma FrontDue(q: seq<Entry>, now: Timeval, e: Entry)
    requires e in q[..Due(q, now)]
    ensures !Less(now, e.token.time)
  {
    hide Less;
    var k :| 0 <= k < Due(q, now) && q[..Due(q, now)][k] == e;
    assert q[k] == e;
  }

  lemma RestLater(q: seq<Entry>, now: Timeval, e: Entry)
    requires Sorted(q) && e in q[Due(q, now)..]
    ensures Less(now, e.token.time)
  {
    hide TokenLess, Less;
    var n := Due(q, now);
    var k :| 0 <= k < |q| - n && q[n..][k] == e;
    DueExact(q, now, n + k);
  }

  /** The front of the queue and the rest, as sets of timers. */
  lemma DueSplit(q: seq<Entry>, now: Timeval)
    requires Sorted(q)
    ensures var n := Due(q, now);
            && Sorted(q[..n]) && Sorted(q[n..])
            && (forall e :: e in q[..n] ==> !Less(now, e.token.time))
            && (forall e :: e in q[n..] ==> Less(now, e.token.time))
            && (forall e :: e in q ==> e in q[..n] || e in q[n..])
  {
    hide TokenLess, Less, Sorted, Due;
    var n := Due(q, now);
    FrontSorted(q, n);
    RestSorted(q, n);
    forall e | e in q ensures e in q[..n] || e in q[n..] {
      InFrontOrRest(q, n, e);
    }
    forall e | e in q[..n] ensures !Less(now, e.token.time) {
      FrontDue(q, now, e);
    }
    forall e | e in q[n..] ensures Less(now, e.token.time) {
      RestLater(q, now, e);
    }
  }

  // ---------------------------------------------------------------- the stage

  class TimerStage {
    var queue: seq<Entry>
    var numEvents: int
    var shutdown: bool

    constructor ()
      ensures queue == [] && numEvents == 0 && !shutdown
    {
      queue := [];
      numEvents := 0;
      shutdown := false;
    }

    /** Puts a timer in the queue. A check is due when it is the first. */
    method RegisterTimer(token: Token, event: int) returns (check: bool)
      requires Sorted(queue) && token !in Tokens(queue)
      modifies this
      ensures queue == Inserted(old(queue), Entry(token, event)) && Sorted(queue)
      ensures numEvents == old(numEvents) + 1 && shutdown == old(shutdown)
      ensures check <==> forall k :: 0 <= k < |old(queue)| ==> TokenLess(token, old(queue)[k].token)
    {
      QueuedIsIn(queue, token);
      InsertSorted(queue, Entry(token, event));
      queue := Inserted(queue, Entry(token, event));
      numEvents := numEvents + 1;
      check := queue[0].token == token;
    }

    method CancelTimer(token: Token) returns (success: bool)
      requires Sorted(queue)
      modifies this
      ensures success <==> token in Tokens(old(queue))
      ensures success ==> IsQueued(old(queue), token) && queue == Erased(old(queue), token) && numEvents == old(numEvents) - 1
      ensures !success ==> queue == old(queue) && numEvents == old(numEvents)
      ensures Sorted(queue) && shutdown == old(shutdown)
    {
      QueuedIsIn(queue, token);
      success := IsQueued(queue, token);
      if success {
        EraseSorted(queue, token);
        queue := Erased(queue, token);
        numEvents := numEvents - 1;
      }
    }

    /**
     One pass of the timer thread, between two waits: triggers the events that are due, in the order of
     their tokens, and says whether to stop, and if not, when to wake up.
     */
    method CheckTimer(now: Timeval) returns (triggered: seq<Entry>, stop: bool, deadline: Option<Timeval>)
      requires Sorted(queue)
      modifies this
      ensures triggered == old(queue)[..Due(old(queue), now)] && queue == old(queue)[Due(old(queue), now)..]
      ensures Sorted(triggered) && Sorted(queue)
      ensures forall e :: e in old(queue) ==> (e in triggered <==> !Less(now, e.token.time))
      ensures numEvents == old(numEvents) - |triggered| && shutdown == old(shutdown) && stop == shutdown
      ensures deadline == if queue == [] then None else Some(queue[0].token.time)
    {
      hide TokenLess, Less, Sorted;
      DueSplit(queue, now);
      var last := 0;
      while last < |queue| && !Less(now, queue[last].token.time)
        invariant 0 <= last <= Due(queue, now) && queue == old(queue)
        invariant numEvents == old(numEvents) && shutdown == old(shutdown)
      {
        DueExact(queue, now, last);
        last := last + 1;
      }
      var done := queue[..last];
      queue := queue[last..];
      triggered := [];
      for i := 0 to |done|
        invariant triggered == done[..i] && numEvents == old(numEvents) - i
        invariant queue == old(queue)[last..] && shutdown == old(shutdown)
      {
        triggered := triggered + [done[i]];
        numEvents := numEvents - 1;
      }
      stop := shutdown;
      deadline := if queue == [] then None else Some(queue[0].token.time);
    }
  }
}
