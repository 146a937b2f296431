/** The multi-level feedback queue: one pass over the process table ages the runnable processes and
    picks the next one to run. */
module Mlfq {
  const NPROC: nat := 64

  /** How many ticks a process may use at a level before it moves down. */
  const DOWNPQ: seq<nat> := [50, 32, 16, 8]

  datatype TState = UNUSED | EMBRYO | SLEEPING | RUNNABLE | RUNNING | ZOMBIE

  type Counts = s: seq<nat> | |s| == 4 witness [0, 0, 0, 0]

  datatype Task = Task(state: TState, priority: nat, ticks: Counts, wait: Counts)

  /** Levels are 0 to 3; a process has waited only at its own level and, below the top, never longer
      than it takes to move up. */
  predicate Ok(t: Task) {
    && t.priority <= 3 && (forall l: nat | l < 4 && l != t.priority :: t.wait[l] == 0)
    && (t.priority < 3 ==> t.wait[t.priority] <= 10 * DOWNPQ[t.priority])
  }

  /** A runnable process that the pass comes by: it moves up if it has waited long enough, and has
      waited once more. */
  function Aged(t: Task): Task
    requires Ok(t)
  {
    if t.state != RUNNABLE then t
    else if t.priority != 3 && t.wait[t.priority] >= 10 * DOWNPQ[t.priority]
      then t.(wait := t.wait[t.priority := 0][t.priority + 1 := t.wait[t.priority + 1] + 1], priority := t.priority + 1)
    else t.(wait := t.wait[t.priority := t.wait[t.priority] + 1])
  }

  /** The process that is picked: it gets a tick, and moves down when it has used up its ticks. */
  function Picked(t: Task): Task
    requires Ok(t)
  {
    var ticks := t.ticks[t.priority := t.ticks[t.priority] + 1];
    t.(ticks := ticks, wait := t.wait[t.priority := 0], state := RUNNING,
       priority := if t.priority != 0 && ticks[t.priority] % DOWNPQ[t.priority] == 0 then t.priority - 1
           else t.priority)
  }

  /** What ageing does: only runnable processes change. A process below the top that has waited ten
      times the ticks of its level moves up by one and starts to wait there; any other has waited once
      more. */
  lemma AgedIs(t: Task)
    requires Ok(t)
    ensures t.state != RUNNABLE ==> Aged(t) == t
    ensures t.state == RUNNABLE ==>
              var up := (t.priority == 0 && t.wait[0] >= 500) || (t.priority == 1 && t.wait[1] >= 320)
                        || (t.priority == 2 && t.wait[2] >= 160);
              && Aged(t).priority == (if up then t.priority + 1 else t.priority)
              && Aged(t).wait[Aged(t).priority] == (if up then 1 else t.wait[t.priority] + 1)
              && (forall l: nat | l < 4 && l != Aged(t).priority :: Aged(t).wait[l] == 0)
              && Aged(t).ticks == t.ticks && Aged(t).state == RUNNABLE
  {
    assert t.priority == 0 || t.priority == 1 || t.priority == 2 || t.priority == 3;
  }

  /** What a tick does: it counts at the level of the process, which has not waited then; with every
      50th tick nothing happens at the lowest level, and with every 32nd, 16th and 8th at levels 1, 2
      and 3 the process moves down. */
  lemma PickedIs(t: Task)
    requires Ok(t)
    ensures var l, n := t.priority, t.ticks[t.priority] + 1;
            && Picked(t).state == RUNNING && Picked(t).ticks[l] == n && Picked(t).wait[l] == 0
            && (forall k: nat | k < 4 && k != l :: Picked(t).ticks[k] == t.ticks[k] && Picked(t).wait[k] == 0)
            && Picked(t).priority == if (l == 1 && n % 32 == 0) || (l == 2 && n % 16 == 0) || (l == 3 && n % 8 == 0)
               then l - 1 else l
  {
    assert t.priority == 0 || t.priority == 1 || t.priority == 2 || t.priority == 3;
  }

  lemma AgedOk(t: Task)
    requires Ok(t)
    ensures Ok(Aged(t)) && Ok(Picked(t)) && Aged(t).state == t.state
  {
    assert t.priority == 0 || t.priority == 1 || t.priority == 2 || t.priority == 3;
  }

  // ----- the way to the top -----

  /** How many passes it takes a runnable process that is not picked to reach the top level. */
  function Left(t: Task): nat
    requires Ok(t)
  {
    if t.priority == 3 then 0
    else if t.priority == 2 then 161 - t.wait[2]
    else if t.priority == 1 then 321 - t.wait[1] + 160
    else 501 - t.wait[0] + 480
  }

  lemma LeftLess(t: Task)
    requires Ok(t) && t.state == RUNNABLE
    ensures Ok(Aged(t)) && Aged(t).state == RUNNABLE && Left(t) <= 981 && (Left(t) == 0 <==> t.priority == 3)
    ensures Left(Aged(t)) == if Left(t) == 0 then 0 else Left(t) - 1
  {
    AgedOk(t);
    assert t.priority == 0 || t.priority == 1 || t.priority == 2 || t.priority == 3;
  }

  // ----- one pass -----

  /** The place of slot q in a pass that starts at slot current. */
  function Turn(q: nat, current: nat): nat
    requires q < NPROC
  {
    (q + NPROC - current % NPROC) % NPROC
  }

  /** The pass comes by each slot exactly once. */
  lemma TurnIs(q: nat, current: nat, i: nat)
    requires q < NPROC && i < NPROC
    ensures Turn(q, current) < NPROC && ((current + i) % NPROC == q <==> i == Turn(q, current))
  {
    var c := current % NPROC;
    assert (current + i) % NPROC == (c + i) % NPROC;
    assert (c + i) % NPROC == if c + i < NPROC then c + i else c + i - NPROC;
  }

  /** h is the process to run among those with turns before i: no other is at a higher level, and
      those at the same level come later. */
  ghost predicate Best(was: seq<Task>, current: nat, i: nat, h: nat) {
    && |was| == NPROC && (forall q: nat | q < NPROC :: Ok(was[q]))
    && h < NPROC && was[h].state == RUNNABLE && Turn(h, current) < i
    && forall q: nat | q < NPROC && was[q].state == RUNNABLE && Turn(q, current) < i ::
         NotBefore(was[q], Turn(q, current), was[h], Turn(h, current))
  }

  predicate NotBefore(t: Task, turn: nat, h: Task, hturn: nat)
    requires Ok(t) && Ok(h)
  {
    Aged(t).priority < Aged(h).priority || (Aged(t).priority == Aged(h).priority && hturn <= turn)
  }

  ghost predicate NoneRunnable(was: seq<Task>, current: nat, i: nat) {
    |was| == NPROC && forall q: nat | q < NPROC && Turn(q, current) < i :: was[q].state != RUNNABLE
  }

  /** The process table, and where the next pass starts. */
  datatype State = State(proc: seq<Task>, current: nat)

  ghost predicate AllOk(s: State) { |s.proc| == NPROC && forall q: nat | q < NPROC :: Ok(s.proc[q]) }

  /** A pass from s to s' that picks h, or nobody when h is 64: all runnable processes age, and the
      first of those at the highest level runs. The next pass starts at slot 1 if the process has
      moved down, and at slot 0 otherwise. */
  ghost predicate Pass(s: State, h: nat, s': State) {
    && AllOk(s) && AllOk(s') && h <= NPROC
    && (forall q: nat | q < NPROC && q != h :: s'.proc[q] == Aged(s.proc[q]))
    && if h == NPROC then NoneRunnable(s.proc, s.current, NPROC) && s'.current == s.current
       else
         && Best(s.proc, s.current, NPROC, h) && Ok(Aged(s.proc[h])) && s'.proc[h] == Picked(Aged(s.proc[h]))
         && s'.current == if s'.proc[h].priority != Aged(s.proc[h]).priority then 1 else NPROC
  }

  class Scheduler {
    const proc: array<Task>
    var current: nat

    ghost function View(): State
      reads this, proc
    {
      State(proc[..], current)
    }

    ghost predicate Valid()
      reads this, proc
    {
      AllOk(View())
    }

    constructor ()
      ensures Valid() && fresh(proc)
    {
      proc := new Task[NPROC](_ => Task(UNUSED, 0, [0, 0, 0, 0], [0, 0, 0, 0]));
      current := 0;
    }

    /** A new process starts at the top level with all counts zero. */
    method Allocproc() returns (i: nat)
      requires Valid()
      modifies proc
      ensures Valid() && i <= NPROC && forall j: nat | j < i :: old(proc[j]).state != UNUSED
      ensures forall j: nat | j < NPROC && j != i :: proc[j] == old(proc[j])
      ensures i < NPROC ==> old(proc[..])[i].state == UNUSED && proc[i] == Task(EMBRYO, 3, [0, 0, 0, 0], [0, 0, 0, 0])
    {
      i := 0;
      while i < NPROC && proc[i].state != UNUSED
        invariant i <= NPROC && forall j: nat | j < i :: proc[j].state != UNUSED
      {
        i := i + 1;
      }
      if i < NPROC {
        proc[i] := Task(EMBRYO, 3, [0, 0, 0, 0], [0, 0, 0, 0]);
      }
    }

    /** One pass: all runnable processes age, and the best of them runs. */
    method MLFQ() returns (h: nat)
      requires Valid()
      modifies proc, this
      ensures Valid() && Pass(old(View()), h, View())
      ensures h < NPROC ==>
                && old(proc[..])[h].state == RUNNABLE && proc[h].state == RUNNING
                && forall q: nat | q < NPROC && q != h && old(proc[..])[q].state == RUNNABLE ::
                     var level := proc[h].priority + if current == 1 then 1 else 0;
                     proc[q].priority < level
                     || (proc[q].priority == level
                         && (h + NPROC - old(current) % NPROC) % NPROC < (q + NPROC - old(current) % NPROC) % NPROC)
      ensures h == NPROC <==> forall q: nat | q < NPROC :: old(proc[..])[q].state != RUNNABLE
    {
      hide Aged, Picked, Best, NoneRunnable, Ok;
      ghost var s := View();
      h := Scan();
      if h != NPROC {
        Run(h);
      }
      PassMeans(s, h, View());
    }

    /** The loop of the pass: all runnable processes age, and h becomes the best of them. */
    method Scan() returns (h: nat)
      requires Valid()
      modifies proc
      ensures Valid() && current == old(current) && h <= NPROC
      ensures forall q: nat | q < NPROC :: Ok(old(proc[q])) && proc[q] == Aged(old(proc[q]))
      ensures if h < NPROC then Best(old(proc[..]), current, NPROC, h) else NoneRunnable(old(proc[..]), current, NPROC)
    {
      ghost var was := proc[..];
      h := NPROC;
      var i := 0;
      while i < NPROC
        invariant i <= NPROC && h <= NPROC && current == old(current)
        invariant forall q: nat | q < NPROC :: proc[q] == if Turn(q, current) < i then Aged(was[q]) else was[q]
        invariant h < NPROC ==> Best(was, current, i, h)
        invariant h == NPROC ==> NoneRunnable(was, current, i)
      {
        var p := (current + i) % NPROC;
        forall q: nat | q < NPROC
          ensures (q == p <==> Turn(q, current) == i) && Turn(q, current) < NPROC
        {
          TurnIs(q, current, i);
        }
        Visit(p);
        h := Better(was, i, p, h);
        i := i + 1;
      }
      forall q: nat | q < NPROC ensures Turn(q, current) < NPROC { TurnIs(q, current, 0); }
      forall q: nat | q < NPROC ensures Ok(proc[q]) { AgedOk(was[q]); }
    }

    /** The part of the pass that ages slot p. */
    method Visit(p: nat)
      requires p < proc.Length && Ok(proc[p])
      modifies proc
      ensures proc[..] == old(proc[..])[p := Aged(old(proc[p]))]
    {
      if proc[p].state == RUNNABLE {
        if proc[p].priority != 3 && proc[p].wait[proc[p].priority] >= 10 * DOWNPQ[proc[p].priority] {
          proc[p] := proc[p].(wait := proc[p].wait[proc[p].priority := 0]);
          proc[p] := proc[p].(priority := proc[p].priority + 1);
        }
        proc[p] := proc[p].(wait := proc[p].wait[proc[p].priority := proc[p].wait[proc[p].priority] + 1]);
      }
      assert proc[..] == old(proc[..])[p := Aged(old(proc[p]))];
    }

    /** The part of the pass that compares slot p, at turn i, with the best one so far. */
    method Better(ghost was: seq<Task>, ghost i: nat, p: nat, h: nat) returns (h': nat)
      requires proc.Length == NPROC && |was| == NPROC && i < NPROC && p < NPROC && h <= NPROC && Turn(p, current) == i
      requires forall q: nat | q < NPROC :: Ok(was[q]) && (q != p ==> Turn(q, current) != i)
      requires forall q: nat | q < NPROC :: proc[q] == if Turn(q, current) <= i then Aged(was[q]) else was[q]
      requires h < NPROC ==> Best(was, current, i, h)
      requires h == NPROC ==> NoneRunnable(was, current, i)
      ensures h' <= NPROC && (h' < NPROC ==> Best(was, current, i + 1, h'))
          && (h' == NPROC ==> NoneRunnable(was, current, i + 1))
    {
      hide Aged, Turn, Ok;
      h' := h;
      KeepsState(was[p]);
      if proc[p].state == RUNNABLE {
        if h == NPROC || proc[p].priority > proc[h].priority {
          h' := p;
        }
      }
    }

    /** The part of the pass that gives slot h, the best one, the processor. */
    method Run(h: nat)
      requires Valid() && h < NPROC
      modifies proc, this
      ensures proc[..] == old(proc[..])[h := Picked(old(proc[h]))] && Ok(proc[h])
      ensures current == if proc[h].priority != old(proc[h]).priority then 1 else NPROC
    {
      ghost var t := proc[h];
      AgedOk(t);
      current := NPROC;
      var hpp := proc[h].priority;
      proc[h] := proc[h].(ticks := proc[h].ticks[hpp := proc[h].ticks[hpp] + 1]);
      proc[h] := proc[h].(wait := proc[h].wait[hpp := 0]);
      if hpp != 0 && proc[h].ticks[hpp] % DOWNPQ[hpp] == 0 {
        proc[h] := proc[h].(priority := hpp - 1);
        current := (current + 1) % NPROC;
      }
      proc[h] := proc[h].(state := RUNNING);
      assert proc[h] == Picked(t);
      assert proc[..] == old(proc[..])[h := Picked(t)];
    }
  }

  /** The best process is strictly before all others at its level. */
  lemma FirstBest(was: seq<Task>, current: nat, h: nat)
    requires Best(was, current, NPROC, h)
    ensures forall q: nat | q < NPROC && q != h && was[q].state == RUNNABLE ::
              Aged(was[q]).priority < Aged(was[h]).priority
              || (Aged(was[q]).priority == Aged(was[h]).priority && Turn(h, current) < Turn(q, current))
  {
    hide Aged, Ok;
    forall q: nat | q < NPROC && q != h && was[q].state == RUNNABLE
      ensures NotBefore(was[q], Turn(q, current), was[h], Turn(h, current)) && Turn(q, current) != Turn(h, current)
    {
      TurnIs(q, current, Turn(q, current));
      TurnIs(h, current, Turn(h, current));
    }
  }

  /** Who is picked by a pass, from the levels after it. */
  lemma PassMeans(s: State, h: nat, s': State)
    requires Pass(s, h, s')
    ensures h == NPROC <==> forall q: nat | q < NPROC :: s.proc[q].state != RUNNABLE
    ensures h < NPROC ==> s.proc[h].state == RUNNABLE && s'.proc[h].state == RUNNING
    ensures h < NPROC ==> forall q: nat | q < NPROC && q != h && s.proc[q].state == RUNNABLE ::
                var level := s'.proc[h].priority + if s'.current == 1 then 1 else 0;
                s'.proc[q].priority < level
                || (s'.proc[q].priority == level
                    && (h + NPROC - s.current % NPROC) % NPROC < (q + NPROC - s.current % NPROC) % NPROC)
  {
    forall q: nat | q < NPROC ensures Turn(q, s.current) < NPROC { TurnIs(q, s.current, 0); }
    if h < NPROC {
      FirstBest(s.proc, s.current, h);
      hide Best;
      hide Aged;
    }
  }

  lemma KeepsState(t: Task)
    requires Ok(t)
    ensures Aged(t).state == t.state
  {}
}
