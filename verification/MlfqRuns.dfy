/** Whole runs of the feedback queue: how long a process can wait. */
module MlfqRuns {
  import opened Mlfq

  /** A step of the system: a pass that picks a slot, or what happens between two passes. */
  datatype Label = Picks(h: nat) | Between

  const NEWTASK := Task(EMBRYO, 3, [0, 0, 0, 0], [0, 0, 0, 0])

  /** Between passes a runnable process stays as it is; others may change their state, and unused
      slots may get a new process. */
  predicate Shifted(t: Task, t': Task) {
    t' == t || (t.state != RUNNABLE && if t.state == UNUSED then t' == NEWTASK else t' == t.(state := t'.state))
  }

  ghost predicate Shift(s: State, s': State) {
    AllOk(s) && |s'.proc| == NPROC && s'.current == s.current && forall q: nat | q < NPROC ::
        Shifted(s.proc[q], s'.proc[q])
  }

  ghost predicate Step(s: State, l: Label, s': State) {
    match l
    case Picks(h) => Pass(s, h, s')
    case Between => Shift(s, s')
  }

  ghost predicate Run(run: seq<State>, labels: seq<Label>) {
    && |run| == |labels| + 1 && AllOk(run[0])
    && forall i: nat | i < |labels| :: Step(run[i], labels[i], run[i + 1])
  }

  /** How many passes there are. */
  function Passes(labels: seq<Label>): nat {
    if labels == [] then 0 else Passes(labels[..|labels| - 1]) + if labels[|labels| - 1].Picks? then 1 else 0
  }

  lemma RunPrefix(run: seq<State>, labels: seq<Label>)
    requires Run(run, labels) && labels != []
    ensures Run(run[..|run| - 1], labels[..|labels| - 1])
    ensures Step(run[|run| - 2], labels[|labels| - 1], run[|run| - 1])
  {
    var i: nat := |labels| - 1;
    assert Step(run[i], labels[i], run[i + 1]);
    forall k: nat | k < i ensures Step(run[..i + 1][k], labels[..i][k], run[..i + 1][k + 1]) {
      assert Step(run[k], labels[k], run[k + 1]);
    }
  }

  lemma StepOk(s: State, l: Label, s': State)
    requires Step(s, l, s') && AllOk(s)
    ensures AllOk(s')
  {
    if l == Between {
      forall q: nat | q < NPROC ensures Ok(s'.proc[q]) { assert Shifted(s.proc[q], s'.proc[q]); }
    }
  }

  // ----- the way to the top -----

  /** Process q waits: it is runnable all the time, and never picked. */
  ghost predicate Waits(run: seq<State>, labels: seq<Label>, q: nat) {
    && Run(run, labels) && q < NPROC && run[0].proc[q].state == RUNNABLE && Picks(q) !in labels
  }

  /** With each pass a process that waits is nearer to the top by one. */
  lemma {:induction false} WaitsNearer(run: seq<State>, labels: seq<Label>, q: nat)
    requires Waits(run, labels, q)
    ensures AllOk(run[0]) && AllOk(run[|run| - 1]) && run[|run| - 1].proc[q].state == RUNNABLE
    ensures var t, n := run[0].proc[q], Passes(labels);
            Left(run[|run| - 1].proc[q]) == if n <= Left(t) then Left(t) - n else 0
  {
    if labels != [] {
      var k := |labels| - 1;
      RunPrefix(run, labels);
      WaitsNearer(run[..k + 1], labels[..k], q);
      StepOk(run[k], labels[k], run[k + 1]);
      assert labels[k] in labels;
      WaitStep(run[k], labels[k], run[k + 1], q);
    }
  }

  lemma WaitStep(s: State, l: Label, s': State, q: nat)
    requires AllOk(s) && AllOk(s') && Step(s, l, s') && q < NPROC && s.proc[q].state == RUNNABLE && l != Picks(q)
    ensures s'.proc[q] == if l.Picks? then Aged(s.proc[q]) else s.proc[q]
    ensures s'.proc[q].state == RUNNABLE
    ensures Left(s'.proc[q]) == if l.Picks? && Left(s.proc[q]) > 0 then Left(s.proc[q]) - 1 else Left(s.proc[q])
  {
    hide Aged, Left;
    LeftLess(s.proc[q]);
    if l == Between { assert Shifted(s.proc[q], s'.proc[q]); }
  }

  /** A process that waits is at the top level after at most 981 passes, and one at the bottom that
      has not waited before needs all of them. */
  lemma TopReached(run: seq<State>, labels: seq<Label>, q: nat)
    requires Waits(run, labels, q)
    ensures Passes(labels) >= 981 ==> run[|run| - 1].proc[q].priority == 3
    ensures run[0].proc[q].priority == 0 && run[0].proc[q].wait[0] == 0 && Passes(labels) < 981 ==>
              run[|run| - 1].proc[q].priority < 3
  {
    WaitsNearer(run, labels, q);
    LeftLess(run[0].proc[q]);
    LeftLess(run[|run| - 1].proc[q]);
  }

  // ----- at the top, with at most 20 other processes -----

  /** The passes, of the next r <= 161, that can pick process t while it is at the top level: it
      moves down after 8 ticks, and comes back no earlier than after 161 passes. */
  function Turns(t: Task, r: nat): nat
    requires Ok(t)
  {
    if t.state == UNUSED || Left(t) > r then 0 else if t.priority == 3 then 8 - t.ticks[3] % 8 else 8
  }

  lemma TurnsAged(t: Task, r: nat)
    requires Ok(t) && 0 < r <= 161
    ensures Ok(Aged(t)) && Turns(Aged(t), r - 1) <= Turns(t, r) <= 8
  {
    AgedOk(t);
    assert t.priority == 0 || t.priority == 1 || t.priority == 2 || t.priority == 3;
    if t.state == RUNNABLE { LeftLess(t); }
  }

  lemma TurnsPicked(t: Task, r: nat)
    requires Ok(t) && 0 < r <= 161 && t.state == RUNNABLE && Aged(t).priority == 3
    ensures Ok(Aged(t)) && Ok(Picked(Aged(t))) && Turns(Picked(Aged(t)), r - 1) + 1 <= Turns(t, r)
  {
    AgedOk(t);
    AgedOk(Aged(t));
    LeftLess(t);
  }

  /** The same for all processes below slot n, but for q. */
  ghost function AllTurns(s: State, q: nat, r: nat, n: nat): nat
    requires AllOk(s) && n <= NPROC
  {
    if n == 0 then 0 else AllTurns(s, q, r, n - 1) + if n - 1 == q then 0 else Turns(s.proc[n - 1], r)
  }

  /** The other slots in use. */
  ghost function Others(s: State, q: nat, n: nat): nat
    requires |s.proc| == NPROC && n <= NPROC
  {
    if n == 0 then 0 else Others(s, q, n - 1) + if n - 1 == q || s.proc[n - 1].state == UNUSED then 0 else 1
  }

  lemma {:induction false} TurnsBound(s: State, q: nat, r: nat, n: nat)
    requires AllOk(s) && n <= NPROC && r <= 161
    ensures AllTurns(s, q, r, n) <= 8 * Others(s, q, n)
  {
    hide Left;
    if n > 0 { TurnsBound(s, q, r, n - 1); }
  }

  lemma {:induction false} TurnsLess(s: State, s': State, q: nat, r: nat, r': nat, h: nat, n: nat)
    requires AllOk(s) && AllOk(s') && n <= NPROC && h != q
    requires forall p: nat | p < NPROC && p != q ::
        Turns(s'.proc[p], r') + (if p == h then 1 else 0) <= Turns(s.proc[p], r)
    ensures AllTurns(s', q, r', n) + (if h < n then 1 else 0) <= AllTurns(s, q, r, n)
  {
    hide Turns, Ok;
    if n > 0 { TurnsLess(s, s', q, r, r', h, n - 1); }
  }

  /** A pass over a process at the top level takes one of the turns that the others have. */
  lemma PassTakes(s: State, h: nat, s': State, q: nat, r: nat)
    requires Pass(s, h, s') && q < NPROC && h != q && s.proc[q].state == RUNNABLE && s.proc[q].priority == 3
    requires 0 < r <= 161
    ensures AllTurns(s', q, r - 1, NPROC) + 1 <= AllTurns(s, q, r, NPROC)
    ensures s'.proc[q].state == RUNNABLE && s'.proc[q].priority == 3
  {
    hide Turns, Left, Picked, Turn;
    AgedOk(s.proc[q]);
    TurnBelow(s.current);
    assert Turn(q, s.current) < NPROC;
    assert h < NPROC;
    assert NotBefore(s.proc[q], Turn(q, s.current), s.proc[h], Turn(h, s.current));
    AgedOk(s.proc[h]);
    forall p: nat | p < NPROC && p != q
      ensures Turns(s'.proc[p], r - 1) + (if p == h then 1 else 0) <= Turns(s.proc[p], r)
    {
      if p == h { TurnsPicked(s.proc[p], r); } else { TurnsAged(s.proc[p], r); }
    }
    TurnsLess(s, s', q, r, r - 1, h, NPROC);
  }

  lemma TurnBelow(current: nat)
    ensures forall q: nat | q < NPROC :: Turn(q, current) < NPROC
  {}

  ghost predicate NoneMade(s: State, s': State) {
    && |s.proc| == |s'.proc| == NPROC
    && forall q: nat | q < NPROC && s.proc[q].state == UNUSED :: s'.proc[q].state == UNUSED
  }

  /** No process is created in the run. */
  ghost predicate NoneCreated(run: seq<State>) {
    |run| < 2 || (NoneCreated(run[..|run| - 1]) && NoneMade(run[|run| - 2], run[|run| - 1]))
  }

  /** Process p is runnable and at the top level. */
  ghost predicate AtTop(s: State, q: nat) {
    AllOk(s) && q < NPROC && s.proc[q].state == RUNNABLE && s.proc[q].priority == 3
  }

  lemma ShiftTakes(s: State, s': State, q: nat, r: nat)
    requires Shift(s, s') && AllOk(s') && NoneMade(s, s')
    ensures AllTurns(s', q, r, NPROC) <= AllTurns(s, q, r, NPROC)
  {
    forall p: nat | p < NPROC ensures Turns(s'.proc[p], r) <= Turns(s.proc[p], r) {
      assert Shifted(s.proc[p], s'.proc[p]);
    }
    hide Turns, Left;
    TurnsLess(s, s', q, r, r, if q == NPROC then NPROC + 1 else NPROC, NPROC);
  }

  lemma TopStep(s: State, l: Label, s': State, q: nat, r: nat)
    requires AtTop(s, q) && Step(s, l, s') && l != Picks(q) && NoneMade(s, s') && r <= 161 && (l.Picks? ==> 0 < r)
    ensures AtTop(s', q)
    ensures if l.Picks? then AllTurns(s', q, r - 1, NPROC) + 1 <= AllTurns(s, q, r, NPROC)
            else AllTurns(s', q, r, NPROC) <= AllTurns(s, q, r, NPROC)
  {
    hide AllTurns, Left, Aged, Picked, Ok, Best;
    StepOk(s, l, s');
    WaitStep(s, l, s', q);
    match l
    case Picks(h) => PassTakes(s, h, s', q, r);
    case Between => ShiftTakes(s, s', q, r);
  }

  lemma {:induction false} TurnsRun(run: seq<State>, labels: seq<Label>, q: nat)
    requires Run(run, labels) && NoneCreated(run) && AtTop(run[0], q) && Picks(q) !in labels && Passes(labels) <= 161
    ensures AtTop(run[|run| - 1], q)
    ensures AllTurns(run[|run| - 1], q, 161 - Passes(labels), NPROC) + Passes(labels) <= AllTurns(run[0], q, 161, NPROC)
  {
    hide AllTurns, Step, AtTop;
    if labels != [] {
      var k := |labels| - 1;
      RunPrefix(run, labels);
      TurnsRun(run[..k + 1], labels[..k], q);
      assert labels[k] in labels;
      TopStep(run[k], labels[k], run[k + 1], q, 161 - Passes(labels[..k]));
    }
  }

  /** With at most 20 other processes and none created meanwhile, a process at the top level does
      not wait for 161 passes. */
  lemma TopPicked(run: seq<State>, labels: seq<Label>, q: nat)
    requires Run(run, labels) && NoneCreated(run) && AtTop(run[0], q) && Others(run[0], q, NPROC) <= 20
    requires Passes(labels) == 161
    ensures Picks(q) in labels
  {
    hide AllTurns, Others, Step, Ok;
    if Picks(q) !in labels {
      TurnsRun(run, labels, q);
      TurnsBound(run[0], q, 161, NPROC);
    }
  }

  // ----- at the top, with 21 busy processes -----

  const BUSY: nat := 21

  /** At the top level, with 8 ticks before it. */
  predicate Fresh(t: Task) { t.priority == 3 && t.ticks[3] % 8 == 0 }

  /** At place f of the 168 places that a busy process goes round: it has 8 ticks at the top level
      and then waits at level 2. */
  predicate AtPlace(t: Task, f: nat) {
    if f == 0 then t.priority == 2 && t.wait[2] == 160 && t.ticks[3] % 8 == 0
    else if f < 8 then t.priority == 3 && t.ticks[3] % 8 == f
    else t.priority == 2 && t.wait[2] == f - 8 && t.ticks[3] % 8 == 0
  }

  /** Where busy process b, counted from 0, is after n passes: the processes get 8 ticks each at the
      top level, one after the other, and come back from level 2 just when the last has had its
      ticks. */
  predicate InPhase(t: Task, b: nat, n: nat) {
    && Ok(t) && t.state == RUNNABLE
    && if n <= 8 * b then Fresh(t) else AtPlace(t, (n - 8 * b) % (8 * BUSY))
  }

  /** A tick at the top level. */
  lemma TopTick(t: Task, f: nat)
    requires Ok(t) && t.priority == 3 && t.ticks[3] % 8 == f
    ensures Ok(Picked(t)) && AtPlace(Picked(t), f + 1)
  {
    AgedOk(t);
    TickMod(t.ticks[3]);
    assert DOWNPQ[3] == 8;
  }

  lemma TickMod(x: nat)
    ensures (x + 1) % 8 == if x % 8 == 7 then 0 else x % 8 + 1
  {}

  lemma PickedNext(t: Task, f: nat)
    requires Ok(t) && t.state == RUNNABLE && f < 8 && (AtPlace(t, f) || (f == 0 && Fresh(t)))
    ensures Ok(Aged(t)) && Ok(Picked(Aged(t))) && Aged(t).priority == 3 && AtPlace(Picked(Aged(t)), f + 1)
  {
    hide Picked;
    AgedOk(t);
    TopTick(Aged(t), f);
  }

  lemma AgedNext(t: Task, f: nat)
    requires Ok(t) && t.state == RUNNABLE && 8 <= f < 168 && AtPlace(t, f)
    ensures Ok(Aged(t)) && Aged(t).priority == 2 && AtPlace(Aged(t), if f == 167 then 0 else f + 1)
  {
    AgedOk(t);
  }

  lemma AgedFresh(t: Task)
    requires Ok(t) && t.state == RUNNABLE && Fresh(t)
    ensures Ok(Aged(t)) && Fresh(Aged(t))
  {
    AgedOk(t);
  }

  /** The slots 1 to 21 are busy after n passes, and slot 0 is not runnable. */
  ghost predicate Busy(s: State, n: nat) {
    && AllOk(s) && s.current % NPROC <= 1 && s.proc[0].state != RUNNABLE
    && forall p: nat | 1 <= p <= BUSY :: InPhase(s.proc[p], p - 1, n)
  }

  /** The busy process that has the processor in pass n + 1. */
  function OnTurn(n: nat): (a: nat)
    ensures a < BUSY
  {
    n / 8 % BUSY
  }

  lemma PhaseArith(b: nat, n: nat)
    requires b < BUSY && n > 8 * b
    ensures var f := (n - 8 * b) % (8 * BUSY);
            && (f < 8 <==> b == OnTurn(n)) && (b == OnTurn(n) ==> f == n % 8)
            && (n + 1 - 8 * b) % (8 * BUSY) == if f == 167 then 0 else f + 1
  {
    var a, r, m := OnTurn(n), n % 8, n / 8 / BUSY;
    assert n == 168 * m + 8 * a + r && OnTurn(n) == a;
    hide OnTurn;
    var q, f := if b <= a then m else m - 1, if b <= a then 8 * (a - b) + r else 8 * (a - b) + r + 168;
    ModIs(n - 8 * b, q, f);
    if f == 167 { ModIs(n + 1 - 8 * b, q + 1, 0); } else { ModIs(n + 1 - 8 * b, q, f + 1); }
  }

  lemma ModIs(x: int, q: int, f: int)
    requires x == 168 * q + f && 0 <= f < 168
    ensures x % 168 == f
  {}

  /** Only the busy process on turn, and those that have not had a turn yet, are at the top level. */
  lemma PhaseLevel(t: Task, b: nat, n: nat)
    requires b < BUSY && InPhase(t, b, n)
    ensures b == OnTurn(n) ==> Aged(t).priority == 3
    ensures b < OnTurn(n) ==> Aged(t).priority < 3
  {
    hide AtPlace, Fresh;
    PhaseIs(t, b, n);
    var f := if n <= 8 * b then 0 else (n - 8 * b) % 168;
    if b == OnTurn(n) { PickedNext(t, f); } else if b < OnTurn(n) { AgedNext(t, f); }
  }

  /** The first round, and the rounds after it. */
  lemma PhaseIs(t: Task, b: nat, n: nat)
    requires b < BUSY && InPhase(t, b, n)
    ensures n < 8 * b ==> b != OnTurn(n) && Fresh(t) && !(b < OnTurn(n))
    ensures n == 8 * b ==> b == OnTurn(n) && Fresh(t) && (n + 1 - 8 * b) % 168 == 1
    ensures n > 8 * b ==> var f := (n - 8 * b) % 168;
              AtPlace(t, f) && (f < 8 <==> b == OnTurn(n)) && (n + 1 - 8 * b) % 168 == if f == 167 then 0 else f + 1
  {
    hide AtPlace, Fresh;
    if n > 8 * b { PhaseArith(b, n); }
  }

  lemma PhaseNext(t: Task, b: nat, n: nat)
    requires b < BUSY && InPhase(t, b, n)
    ensures b == OnTurn(n) ==> Ok(Aged(t)) && InPhase(Picked(Aged(t)).(state := RUNNABLE), b, n + 1)
    ensures b != OnTurn(n) ==> InPhase(Aged(t), b, n + 1)
  {
    PhaseIs(t, b, n);
    var f := if n <= 8 * b then 0 else (n - 8 * b) % 168;
    AgedOk(t);
    hide AtPlace, Fresh, Aged, Picked, OnTurn;
    if b == OnTurn(n) {
      PickedNext(t, f);
      AtPlaceState(Picked(Aged(t)), f + 1);
    } else if n < 8 * b {
      AgedFresh(t);
    } else {
      AgedNext(t, f);
    }
  }

  lemma AtPlaceState(t: Task, f: nat)
    requires Ok(t) && AtPlace(t, f)
    ensures Ok(t.(state := RUNNABLE)) && AtPlace(t.(state := RUNNABLE), f)
  {}

  lemma TurnLow(q: nat, current: nat)
    requires q < NPROC && current % NPROC <= 1
    ensures Turn(q, current) == if current % NPROC == 0 then q else if q == 0 then NPROC - 1 else q - 1
  {}

  /** The busy process on turn is the one to run. */
  lemma BusyBest(s: State, n: nat)
    requires Busy(s, n)
    ensures Best(s.proc, s.current, NPROC, OnTurn(n) + 1) && Aged(s.proc[OnTurn(n) + 1]).priority == 3
  {
    hide Aged, OnTurn, Turn;
    var h := OnTurn(n) + 1;
    PhaseLevel(s.proc[h], h - 1, n);
    TurnLow(h, s.current);
    forall q: nat | q < NPROC && s.proc[q].state == RUNNABLE
      ensures NotBefore(s.proc[q], Turn(q, s.current), s.proc[h], Turn(h, s.current))
    {
      AgedOk(s.proc[q]);
      TurnLow(q, s.current);
      if q <= BUSY { PhaseLevel(s.proc[q], q - 1, n); }
    }
  }

  lemma BusyPick(s: State, n: nat, h: nat, s': State)
    requires Busy(s, n) && Pass(s, h, s')
    ensures h == OnTurn(n) + 1 && s'.current % NPROC <= 1
  {
    hide Aged, OnTurn, Turn, InPhase, Picked;
    BusyBest(s, n);
    var k := OnTurn(n) + 1;
    TurnLow(k, s.current);
    assert h != NPROC;
    TurnLow(h, s.current);
    assert NotBefore(s.proc[k], Turn(k, s.current), s.proc[h], Turn(h, s.current));
    assert NotBefore(s.proc[h], Turn(h, s.current), s.proc[k], Turn(k, s.current));
  }

  /** The busy processes are runnable, and the process in slot 0 is not. */
  ghost predicate BusyAgain(s: State) {
    |s.proc| == NPROC && s.proc[0].state != RUNNABLE && forall p: nat | 1 <= p <= BUSY :: s.proc[p].state == RUNNABLE
  }

  lemma BusyNext(s: State, n: nat, h: nat, s': State, s'': State)
    requires Busy(s, n) && Pass(s, h, s') && Shift(s', s'') && BusyAgain(s'')
    ensures Busy(s'', n + 1)
  {
    hide OnTurn, Aged, Picked, InPhase, Best;
    BusyPick(s, n, h, s');
    StepOk(s', Between, s'');
    forall p: nat | 1 <= p <= BUSY ensures InPhase(s''.proc[p], p - 1, n + 1) {
      PhaseNext(s.proc[p], p - 1, n);
      assert Shifted(s'.proc[p], s''.proc[p]);
      PhaseRunning(s, n, p);
    }
  }

  lemma PhaseRunning(s: State, n: nat, p: nat)
    requires Busy(s, n) && 1 <= p <= BUSY
    ensures Ok(s.proc[p]) && Aged(s.proc[p]).state == RUNNABLE && Picked(Aged(s.proc[p])).state == RUNNING
  {}

  /** Passes alternate with times in which the process picked gives the processor back. */
  ghost predicate Rounds(run: seq<State>, labels: seq<Label>) {
    && (forall i: nat | i < |labels| :: labels[i].Picks? <==> i % 2 == 0)
    && (forall i: nat | i < |run| && i % 2 == 0 :: BusyAgain(run[i]))
  }

  lemma {:induction false} BusyRun(run: seq<State>, labels: seq<Label>, n: nat)
    requires Run(run, labels) && Busy(run[0], 0) && Rounds(run, labels) && 2 * n < |run|
    ensures Busy(run[2 * n], n)
    ensures 2 * n < |labels| ==> labels[2 * n] == Picks(OnTurn(n) + 1)
  {
    hide Busy, BusyAgain, Pass, Shift;
    if n > 0 {
      var i: nat := 2 * n - 2;
      BusyRun(run, labels, n - 1);
      assert Step(run[i], labels[i], run[i + 1]) && Step(run[i + 1], labels[i + 1], run[i + 1 + 1]);
      BusyNext(run[i], n - 1, labels[i].h, run[i + 1], run[i + 2]);
    }
    if 2 * n < |labels| {
      assert Step(run[2 * n], labels[2 * n], run[2 * n + 1]);
      BusyPick(run[2 * n], n, labels[2 * n].h, run[2 * n + 1]);
    }
  }

  /** While 21 processes in the slots 1 to 21 keep the processor busy, no process in a slot above
      them is ever picked, also when it is at the top level. */
  lemma TopWaits(run: seq<State>, labels: seq<Label>, q: nat)
    requires Run(run, labels) && Busy(run[0], 0) && Rounds(run, labels) && BUSY < q
    ensures Picks(q) !in labels
  {
    hide Busy, BusyAgain, Step, OnTurn;
    forall i: nat | i < |labels| ensures labels[i] != Picks(q) {
      if labels[i].Picks? {
        BusyRun(run, labels, i / 2);
        assert 2 * (i / 2) == i;
      }
    }
  }

  // ----- such runs exist, of any length -----

  /** New processes in the slots 1 to 22. */
  function FirstState(): State {
    State(seq(NPROC, p => NEWTASK.(state := if 1 <= p <= BUSY + 1 then RUNNABLE else UNUSED)), 0)
  }

  lemma FirstBusy()
    ensures Busy(FirstState(), 0) && AtTop(FirstState(), BUSY + 1) && Others(FirstState(), BUSY + 1, NPROC) == BUSY
  {
    OthersCounted(NPROC);
  }

  lemma {:induction false} OthersCounted(n: nat)
    requires n <= NPROC
    ensures Others(FirstState(), BUSY + 1, n) == if n == 0 then 0 else if n <= BUSY + 1 then n - 1 else BUSY
  {
    if n > 0 { OthersCounted(n - 1); }
  }

  /** The state after the pass that picks h, and after h has given the processor back. */
  ghost function AfterPass(s: State, h: nat): State
    requires AllOk(s) && h < NPROC
  {
    AgedOk(s.proc[h]);
    var t := Picked(Aged(s.proc[h]));
    State(seq(NPROC, p requires 0 <= p < NPROC => if p == h then t else Aged(s.proc[p])),
          if t.priority != Aged(s.proc[h]).priority then 1 else NPROC)
  }

  lemma BusyPass(s: State, n: nat) returns (h: nat, s': State, s'': State)
    requires Busy(s, n)
    ensures Pass(s, h, s') && Shift(s', s'') && BusyAgain(s'') && NoneMade(s, s') && NoneMade(s', s'')
  {
    hide Aged, Picked, Turn, OnTurn;
    h := OnTurn(n) + 1;
    BusyBest(s, n);
    s' := AfterPass(s, h);
    forall p: nat | p < NPROC ensures Ok(s'.proc[p]) && Aged(s.proc[p]).state == s.proc[p].state {
      AgedOk(s.proc[p]);
      AgedOk(Aged(s.proc[p]));
    }
    PhaseRunning(s, n, h);
    AgedOk(s.proc[h]);
    s'' := s'.(proc := s'.proc[h := s'.proc[h].(state := RUNNABLE)]);
  }

  /** A run goes on by one step. */
  lemma Prolonged(run: seq<State>, labels: seq<Label>, l: Label, s: State)
    requires Run(run, labels) && NoneCreated(run) && Step(run[|run| - 1], l, s) && NoneMade(run[|run| - 1], s)
    ensures Run(run + [s], labels + [l]) && NoneCreated(run + [s])
  {
    hide Step, NoneMade;
    var run', labels' := run + [s], labels + [l];
    forall i: nat | i < |labels'| ensures Step(run'[i], labels'[i], run'[i + 1]) {
      if i < |labels| { assert Step(run[i], labels[i], run[i + 1]); }
    }
    assert run'[..|run'| - 1] == run;
  }

  lemma RoundsMore(run: seq<State>, labels: seq<Label>, h: nat, s: State, s': State)
    requires Rounds(run, labels) && |run| == |labels| + 1 && |labels| % 2 == 0 && BusyAgain(s')
    ensures Rounds(run + [s] + [s'], labels + [Picks(h)] + [Between])
  {
    hide BusyAgain;
  }

  lemma StepsAre(s: State, h: nat, s': State, s'': State)
    requires Pass(s, h, s') && Shift(s', s'')
    ensures Step(s, Picks(h), s') && Step(s', Between, s'')
  {
    hide Pass, Shift;
  }

  /** With 21 other processes a process at the top level can wait for ever: for every n there is a
      run of n passes from one and the same state. */
  lemma {:induction false} TopWaitsForever(n: nat) returns (run: seq<State>, labels: seq<Label>)
    ensures Run(run, labels) && Rounds(run, labels) && |labels| == 2 * n && run[0] == FirstState()
    ensures AtTop(run[0], BUSY + 1) && Others(run[0], BUSY + 1, NPROC) == 21 && NoneCreated(run)
    ensures Picks(BUSY + 1) !in labels
  {
    hide Busy, BusyAgain, Pass, Shift, AtTop, AllOk, NoneMade, Others;
    FirstBusy();
    FirstOk();
    if n == 0 {
      run, labels := [FirstState()], [];
    } else {
      run, labels := TopWaitsForever(n - 1);
      BusyRun(run, labels, n - 1);
      var h, s', s'' := BusyPass(run[2 * (n - 1)], n - 1);
      hide Run, NoneCreated, Rounds, Step, FirstState;
      RoundsMore(run, labels, h, s', s'');
      assert Step(run[|run| - 1], Picks(h), s') && Step(s', Between, s'') by { StepsAre(run[|run| - 1], h, s', s''); }
      Prolonged(run, labels, Picks(h), s');
      Prolonged(run + [s'], labels + [Picks(h)], Between, s'');
      run, labels := run + [s'] + [s''], labels + [Picks(h)] + [Between];
    }
    TopWaits(run, labels, BUSY + 1);
  }

  lemma FirstOk()
    ensures AllOk(FirstState()) && BusyAgain(FirstState())
  {}
}
