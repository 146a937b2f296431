/** The ticket lock of the user library, as steps of any number of threads: taking a ticket with an
    atomic add, finding one's turn come, and passing the turn on. The counters wrap. */
module TicketLock {
  import opened FsLayout

  datatype Thread = Idle | Waiting(ticket: nat) | Holding(ticket: nat)

  datatype State = State(ticketnumber: nat, turn: nat, threads: seq<Thread>)

  /** `xaddl(p, 1)` on an unsigned int. */
  function Next(n: nat): nat { (n + 1) % UINT }

  predicate Init(s: State) {
    s.ticketnumber == 0 && s.turn == 0 && |s.threads| < UINT && forall t: nat | t < |s.threads| :: s.threads[t] == Idle
  }

  /** Thread t takes a ticket. */
  predicate Take(s: State, s': State, t: nat) {
    t < |s.threads| && s.threads[t] == Idle
    && s' == State(Next(s.ticketnumber), s.turn, s.threads[t := Waiting(s.ticketnumber)])
  }

  /** Thread t sees its ticket and stops spinning. */
  predicate Enter(s: State, s': State, t: nat) {
    t < |s.threads| && s.threads[t].Waiting? && s.threads[t].ticket == s.turn
    && s' == s.(threads := s.threads[t := Holding(s.turn)])
  }

  /** Thread t passes the turn on. */
  predicate Release(s: State, s': State, t: nat) {
    t < |s.threads| && s.threads[t].Holding?
    && s' == s.(turn := Next(s.turn), threads := s.threads[t := Idle])
  }

  ghost predicate ThreadStep(s: State, s': State, t: nat) { Take(s, s', t) || Enter(s, s', t) || Release(s, s', t) }

  ghost predicate Step(s: State, s': State) { exists t: nat :: ThreadStep(s, s', t) }

  // ----- the queue -----

  predicate Busy(th: Thread) { th.Waiting? || th.Holding? }

  /** q lists the threads that hold a ticket, in the order of the tickets, starting with the one whose
      turn it is. Only that one may hold the lock. */
  ghost predicate Queue(s: State, q: seq<nat>) {
    && |s.threads| < UINT && s.turn < UINT && s.ticketnumber == (s.turn + |q|) % UINT
    && (forall i: nat | i < |q| :: InQueue(s, q, i))
    && (forall i: nat, j: nat | i < j < |q| :: q[i] != q[j])
    && (forall t: nat | t < |s.threads| && Busy(s.threads[t]) :: t in q)
  }

  ghost predicate InQueue(s: State, q: seq<nat>, i: nat)
    requires i < |q|
  {
    q[i] < |s.threads| && Busy(s.threads[q[i]]) && s.threads[q[i]].ticket == (s.turn + i) % UINT
    && (s.threads[q[i]].Holding? ==> i == 0)
  }

  /** The queue is never longer than there are threads, so that tickets do not clash. */
  lemma QueueFits(s: State, q: seq<nat>)
    requires Queue(s, q)
    ensures |q| <= |s.threads| < UINT
  {
    forall i: nat | i < |q| ensures q[i] < |s.threads| { assert InQueue(s, q, i); }
    Distinct(q, |s.threads|);
  }

  lemma {:induction false} Distinct(q: seq<nat>, n: nat)
    requires (forall i: nat | i < |q| :: q[i] < n) && forall i: nat, j: nat | i < j < |q| :: q[i] != q[j]
    ensures |q| <= n
    decreases n
  {
    if q != [] {
      var k := |q| - 1;
      // replace n - 1, if it occurs, by the last element
      if n - 1 in q {
        var i: nat :| i < |q| && q[i] == n - 1;
        var p := q[i := q[k]][..k];
        Distinct(p, n - 1);
      } else {
        Distinct(q, n - 1);
      }
    }
  }

  /** How far the ticket is from the turn, modulo the counter. */
  function Distance(s: State, ticket: nat): nat { (ticket + UINT - s.turn % UINT) % UINT }

  lemma DistanceIs(s: State, i: nat)
    requires s.turn < UINT && i < UINT
    ensures Distance(s, (s.turn + i) % UINT) == i
  {
    if s.turn + i >= UINT { assert (s.turn + i) % UINT == s.turn + i - UINT; }
  }

  /** At most one thread holds the lock, waiting tickets differ, and the distance of a ticket from the
      turn is the place in the queue. */
  lemma Exclusive(s: State, q: seq<nat>, t: nat, u: nat)
    requires Queue(s, q) && t < |s.threads| && u < |s.threads| && Busy(s.threads[t]) && Busy(s.threads[u])
    ensures s.threads[t].Holding? && s.threads[u].Holding? ==> t == u
    ensures s.threads[t].ticket == s.threads[u].ticket ==> t == u
    ensures Distance(s, s.threads[t].ticket) < |q| && q[Distance(s, s.threads[t].ticket)] == t
  {
    QueueFits(s, q);
    var i: nat :| i < |q| && q[i] == t;
    var j: nat :| j < |q| && q[j] == u;
    assert InQueue(s, q, i) && InQueue(s, q, j);
    DistanceIs(s, i);
    DistanceIs(s, j);
  }

  lemma InitQueue(s: State)
    requires Init(s)
    ensures Queue(s, [])
  {}

  lemma TakeQueue(s: State, s': State, t: nat, q: seq<nat>)
    requires Queue(s, q) && Take(s, s', t)
    ensures Queue(s', q + [t])
  {
    QueueFits(s, q);
    var q' := q + [t];
    forall i: nat | i < |q'| ensures InQueue(s', q', i) {
      if i < |q| { assert InQueue(s, q, i); }
    }
    forall i: nat, j: nat | i < j < |q'| ensures q'[i] != q'[j] {
      assert InQueue(s, q, i);
    }
    forall u: nat | u < |s'.threads| && Busy(s'.threads[u]) ensures u in q' {
      if u != t { assert u in q; }
    }
  }

  lemma EnterQueue(s: State, s': State, t: nat, q: seq<nat>)
    requires Queue(s, q) && Enter(s, s', t)
    ensures Queue(s', q) && q != [] && q[0] == t
  {
    Exclusive(s, q, t, t);
    DistanceIs(s, 0);
    forall i: nat | i < |q| ensures InQueue(s', q, i) { assert InQueue(s, q, i); }
  }

  lemma ReleaseQueue(s: State, s': State, t: nat, q: seq<nat>)
    requires Queue(s, q) && Release(s, s', t)
    ensures q != [] && q[0] == t && Queue(s', q[1..])
  {
    var i: nat :| i < |q| && q[i] == t;
    assert InQueue(s, q, i);
    var q' := q[1..];
    NextPlus(s.turn, |q'|);
    forall k: nat | k < |q'| ensures InQueue(s', q', k) {
      InReleased(s, s', t, q, k);
    }
    forall u: nat | u < |s'.threads| && Busy(s'.threads[u]) ensures u in q' {
      assert u in q;
      assert q == [q[0]] + q';
    }
  }

  /** Counting on from the next turn. */
  lemma NextPlus(turn: nat, k: nat)
    requires turn < UINT
    ensures (Next(turn) + k) % UINT == (turn + (k + 1)) % UINT && Next(turn) < UINT
  {
    if turn + 1 == UINT { assert (turn + (k + 1)) % UINT == (UINT + k) % UINT == k % UINT; }
  }

  lemma InReleased(s: State, s': State, t: nat, q: seq<nat>, k: nat)
    requires Queue(s, q) && Release(s, s', t) && k + 1 < |q| && q[0] == t
    ensures InQueue(s', q[1..], k)
  {
    assert InQueue(s, q, k + 1) && q[0] != q[k + 1];
    NextPlus(s.turn, k);
    hide Next;
  }

  // ----- runs -----

  ghost predicate Run(run: seq<State>) {
    run != [] && Init(run[0]) && forall i: nat | i + 1 < |run| :: Step(run[i], run[i + 1])
  }

  /** Every state of a run has a queue. */
  lemma {:induction false} RunQueue(run: seq<State>, i: nat) returns (q: seq<nat>)
    requires Run(run) && i < |run|
    ensures Queue(run[i], q)
  {
    if i == 0 {
      InitQueue(run[0]);
      q := [];
    } else {
      q := RunQueue(run, i - 1);
      assert Step(run[i - 1], run[i - 1 + 1]);
      var t: nat :| ThreadStep(run[i - 1], run[i], t);
      if Take(run[i - 1], run[i], t) {
        TakeQueue(run[i - 1], run[i], t, q);
        q := q + [t];
      } else if Enter(run[i - 1], run[i], t) {
        EnterQueue(run[i - 1], run[i], t, q);
      } else {
        ReleaseQueue(run[i - 1], run[i], t, q);
        q := q[1..];
      }
    }
  }

  /** In every reachable state at most one thread holds the lock, and no two tickets in use are the
      same, although the counters wrap. */
  lemma MutualExclusion(run: seq<State>, i: nat, t: nat, u: nat)
    requires Run(run) && i < |run| && t < |run[i].threads| && u < |run[i].threads|
    ensures run[i].threads[t].Holding? && run[i].threads[u].Holding? ==> t == u
    ensures var x, y := run[i].threads[t], run[i].threads[u]; Busy(x) && Busy(y) && x.ticket == y.ticket ==> t == u
  {
    if Busy(run[i].threads[t]) && Busy(run[i].threads[u]) {
      var q := RunQueue(run, i);
      Exclusive(run[i], q, t, u);
    }
  }

  /** How many of the steps from i to j release the lock: those that change the turn. */
  ghost function Releases(run: seq<State>, i: nat, j: nat): nat
    requires i <= j < |run|
    decreases j
  {
    if i == j then 0 else Releases(run, i, j - 1) + if run[j].turn != run[j - 1].turn then 1 else 0
  }

  /** While a thread waits, each release brings its ticket one nearer to the turn, and nothing else
      changes the distance. */
  lemma {:induction false} WaitingDistance(run: seq<State>, i: nat, j: nat, t: nat)
    requires Run(run) && i <= j < |run| && t < |run[i].threads|
    requires forall k: nat | i <= k <= j :: t < |run[k].threads| && run[k].threads[t] == run[i].threads[t]
    requires run[i].threads[t].Waiting?
    ensures Distance(run[j], run[i].threads[t].ticket) + Releases(run, i, j)
        == Distance(run[i], run[i].threads[t].ticket)
    decreases j
  {
    hide Queue, Distance, Take, Enter, Release;
    if i < j {
      WaitingDistance(run, i, j - 1, t);
      var q := RunQueue(run, j - 1);
      assert Step(run[j - 1], run[j - 1 + 1]);
      var u: nat :| ThreadStep(run[j - 1], run[j], u);
      StepDistance(run[j - 1], run[j], u, q, t);
    }
  }

  lemma StepDistance(s: State, s': State, u: nat, q: seq<nat>, t: nat)
    requires Queue(s, q) && ThreadStep(s, s', u) && t < |s.threads| && t < |s'.threads| && s.threads[t].Waiting?
        && s'.threads[t] == s.threads[t]
    ensures Distance(s', s.threads[t].ticket) + (if s'.turn != s.turn then 1 else 0) == Distance(s, s.threads[t].ticket)
  {
    Exclusive(s, q, t, t);
    QueueFits(s, q);
    if Release(s, s', u) {
      ReleaseQueue(s, s', u, q);
      Exclusive(s', q[1..], t, t);
      hide Queue, Distance;
      var d, e := Distance(s, s.threads[t].ticket), Distance(s', s.threads[t].ticket);
      assert q[1..][e] == t && q[e + 1] == t;
      SamePlace(s, q, d, e + 1);
    }
  }

  lemma SamePlace(s: State, q: seq<nat>, d: nat, e: nat)
    requires Queue(s, q) && d < |q| && e < |q| && q[d] == q[e]
    ensures d == e && Next(s.turn) != s.turn
  {}

  // ----- nobody is kept out -----

  /** What a thread can do next: an idle one takes a ticket, the one that holds the lock releases it. */
  lemma Steps(s: State, t: nat) returns (s': State)
    requires t < |s.threads|
    ensures s.threads[t].Idle? ==> Take(s, s', t) && s'.threads[t] == Waiting(s.ticketnumber)
    ensures s.threads[t].Holding? ==> Release(s, s', t) && s'.threads[t] == Idle
    ensures s.threads[t].Waiting? && s.threads[t].ticket == s.turn ==> Enter(s, s', t) && s'.threads[t].Holding?
  {
    match s.threads[t]
    case Idle => s' := State(Next(s.ticketnumber), s.turn, s.threads[t := Waiting(s.ticketnumber)]);
    case Waiting(_) => s' := s.(threads := s.threads[t := Holding(s.turn)]);
    case Holding(_) => s' := s.(turn := Next(s.turn), threads := s.threads[t := Idle]);
  }

  lemma RunMore(run: seq<State>, s: State, t: nat)
    requires Run(run) && ThreadStep(run[|run| - 1], s, t)
    ensures Run(run + [s])
  {
    var more := run + [s];
    forall i: nat | i + 1 < |more| ensures Step(more[i], more[i + 1]) {
      if i + 1 < |run| { assert Step(run[i], run[i + 1]); }
    }
  }

  /** From every reachable state the lock can come to every thread that waits: the threads before it
      enter and release one after the other. */
  lemma {:induction false} Served(run: seq<State>, t: nat) returns (more: seq<State>)
    requires Run(run) && var s := run[|run| - 1]; t < |s.threads| && s.threads[t].Waiting?
    ensures run <= more && Run(more)
    ensures var s := more[|more| - 1]; t < |s.threads| && s.threads[t].Holding?
    decreases Distance(run[|run| - 1], run[|run| - 1].threads[t].ticket)
  {
    var s := run[|run| - 1];
    var q := RunQueue(run, |run| - 1);
    Exclusive(s, q, t, t);
    var h := q[0];
    assert InQueue(s, q, 0);
    var s1 := Steps(s, h);
    if s.threads[h].Waiting? {
      RunMore(run, s1, h);
      if h == t {
        more := run + [s1];
      } else {
        var s2 := Steps(s1, h);
        RunMore(run + [s1], s2, h);
        EnterQueue(s, s1, h, q);
        Nearer(s1, s2, h, q, t);
        more := Served(run + [s1] + [s2], t);
      }
    } else {
      RunMore(run, s1, h);
      Nearer(s, s1, h, q, t);
      more := Served(run + [s1], t);
    }
  }

  lemma Nearer(s: State, s': State, h: nat, q: seq<nat>, t: nat)
    requires Queue(s, q) && Release(s, s', h) && h != t && t < |s.threads| && s.threads[t].Waiting?
    ensures s'.threads[t] == s.threads[t] && Distance(s', s.threads[t].ticket) < Distance(s, s.threads[t].ticket)
  {
    StepDistance(s, s', h, q, t);
    ReleaseQueue(s, s', h, q);
    SamePlace(s, q, 0, 0);
  }

  /** First come, first served: a waiting thread enters after exactly as many releases as its ticket
      was away from the turn when it was taken. */
  lemma FirstComeFirstServed(run: seq<State>, i: nat, j: nat, t: nat)
    requires Run(run) && i <= j && j + 1 < |run| && t < |run[i].threads| && run[i].threads[t].Waiting?
    requires forall k: nat | i <= k <= j :: t < |run[k].threads| && run[k].threads[t] == run[i].threads[t]
    requires Enter(run[j], run[j + 1], t)
    ensures Releases(run, i, j) == Distance(run[i], run[i].threads[t].ticket)
  {
    hide Queue, InQueue;
    WaitingDistance(run, i, j, t);
    var q := RunQueue(run, j);
    Exclusive(run[j], q, t, t);
    EnterQueue(run[j], run[j + 1], t, q);
  }
}
