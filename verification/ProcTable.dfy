/** The process table. Each method is what one process does to the table while it holds the lock of
    the table, or one of the writes that fork makes without it. */
module ProcTable {
  import opened Wrappers

  const NPROC: nat := 64

  datatype PState = UNUSED | EMBRYO | SLEEPING | RUNNABLE | RUNNING | ZOMBIE

  /** What a process sleeps on; in wait a process sleeps on itself. */
  datatype Chan = NoChan | OnProc(p: nat) | OnOther(id: nat)

  datatype Proc = Proc(state: PState, pid: nat, parent: Option<nat>, chan: Chan, killed: bool)

  type Procs = seq<Proc>

  predicate Live(x: Proc) { x.state != UNUSED }

  /** Past fork: the process has a parent, unless it is the first process. */
  predicate Placed(x: Proc) { x.state != UNUSED && x.state != EMBRYO }

  predicate InWait(ps: Procs, p: nat) { p < |ps| && ps[p].state == SLEEPING && ps[p].chan == OnProc(p) }

  predicate ChildOf(ps: Procs, q: nat, p: nat) { q < |ps| && ps[q].parent == Some(p) }

  // ----- the invariant -----

  predicate PidOk(ps: Procs, ip: nat, next: nat, i: nat)
    requires i < |ps| && ip < |ps|
  {
    Live(ps[i]) ==> 1 <= ps[i].pid < next && (i != ip ==> ps[ip].pid < ps[i].pid)
  }

  /** A process past fork has a parent; a parent is an older process that has not exited. */
  predicate ParentOk(ps: Procs, ip: nat, i: nat)
    requires i < |ps|
  {
    && (Placed(ps[i]) && i != ip ==> ps[i].parent.Some?)
    && (ps[i].parent.Some? ==>
          Live(ps[i]) && i != ip && ps[i].parent.value < |ps| && Placed(ps[ps[i].parent.value])
          && ps[ps[i].parent.value].state != ZOMBIE && ps[ps[i].parent.value].pid < ps[i].pid)
  }

  ghost predicate Inv(ps: Procs, ip: nat, next: nat) {
    && |ps| == NPROC && ip < NPROC && Placed(ps[ip]) && ps[ip].state != ZOMBIE
    && (forall i: nat | i < NPROC :: PidOk(ps, ip, next, i))
    && (forall i: nat, j: nat | i < j < NPROC && Live(ps[i]) && Live(ps[j]) :: ps[i].pid != ps[j].pid)
    && (forall i: nat | i < NPROC :: ParentOk(ps, ip, i))
    && (forall p: nat, q: nat | InWait(ps, p) && ChildOf(ps, q, p) :: ps[q].state != ZOMBIE)
  }

  /** The n-th parent. */
  function Ancestor(ps: Procs, i: nat, n: nat): nat {
    if n == 0 then i
    else
      var j := Ancestor(ps, i, n - 1);
      if j < |ps| && ps[j].parent.Some? then ps[j].parent.value else j
  }

  lemma {:induction false} AncestorShift(ps: Procs, i: nat, n: nat)
    requires i < |ps| && ps[i].parent.Some?
    ensures Ancestor(ps, i, n + 1) == Ancestor(ps, ps[i].parent.value, n)
  {
    if n > 0 { AncestorShift(ps, i, n - 1); }
  }

  /** The parents of every process lead to the first process. */
  lemma {:induction false} ReachesInit(ps: Procs, ip: nat, next: nat, i: nat) returns (n: nat)
    requires Inv(ps, ip, next) && i < NPROC && Placed(ps[i])
    ensures Ancestor(ps, i, n) == ip
    decreases ps[i].pid
  {
    if i == ip {
      n := 0;
    } else {
      assert ParentOk(ps, ip, i);
      n := ReachesInit(ps, ip, next, ps[i].parent.value);
      AncestorShift(ps, i, n);
      n := n + 1;
    }
  }

  /** A zombie is nobody's parent. */
  lemma ZombieChildless(ps: Procs, ip: nat, next: nat, z: nat, q: nat)
    requires Inv(ps, ip, next) && z < NPROC && ps[z].state == ZOMBIE
    ensures !ChildOf(ps, q, z)
  {
    assert q < |ps| ==> ParentOk(ps, ip, q);
  }

  // ----- single changes of the table -----

  /** A process changes between running, runnable and sleeping on something else than itself. */
  lemma StateChange(ps: Procs, ip: nat, next: nat, i: nat, x: Proc)
    requires Inv(ps, ip, next) && i < NPROC && Placed(ps[i]) && ps[i].state != ZOMBIE
    requires x.pid == ps[i].pid && x.parent == ps[i].parent && Placed(x) && x.state != ZOMBIE
    requires x.state == SLEEPING && x.chan == OnProc(i) ==> forall q: nat | ChildOf(ps, q, i) :: ps[q].state != ZOMBIE
    ensures Inv(ps[i := x], ip, next)
  {
    var t := ps[i := x];
    forall j: nat | j < NPROC ensures PidOk(t, ip, next, j) { assert PidOk(ps, ip, next, j); }
    forall j: nat | j < NPROC ensures ParentOk(t, ip, j) { assert ParentOk(ps, ip, j); }
    forall p: nat, q: nat | InWait(t, p) && ChildOf(t, q, p) ensures t[q].state != ZOMBIE {
      assert ChildOf(ps, q, p);
      if p != i { assert InWait(ps, p); }
    }
  }

  function Woken(x: Proc, chan: Chan): Proc {
    if x.state == SLEEPING && x.chan == chan then x.(state := RUNNABLE) else x
  }

  lemma AllWoken(ps: Procs, t: Procs, ip: nat, next: nat, chan: Chan)
    requires Inv(ps, ip, next) && |t| == |ps| && forall i: nat | i < |ps| :: t[i] == Woken(ps[i], chan)
    ensures Inv(t, ip, next)
  {
    forall j: nat | j < NPROC ensures PidOk(t, ip, next, j) { assert PidOk(ps, ip, next, j); }
    forall j: nat | j < NPROC ensures ParentOk(t, ip, j) { assert ParentOk(ps, ip, j); }
    forall p: nat, q: nat | InWait(t, p) && ChildOf(t, q, p) ensures t[q].state != ZOMBIE {
      assert InWait(ps, p) && ChildOf(ps, q, p);
    }
  }

  /** What exit leaves of a process: p itself is a zombie, its children belong to ip, and whoever has
      to know has been woken. */
  function AfterExit(x: Proc, i: nat, p: nat, ip: nat, parent: nat, wakeInit: bool): Proc {
    var y := if x.state == SLEEPING && (x.chan == OnProc(parent) || (wakeInit && x.chan == OnProc(ip)))
        then x.(state := RUNNABLE) else x;
    var z := if x.parent == Some(p) then y.(parent := Some(ip)) else y;
    if i == p then z.(state := ZOMBIE) else z
  }

  lemma AfterExitIs(x: Proc, i: nat, p: nat, ip: nat, parent: nat, wakeInit: bool)
    ensures var y := AfterExit(x, i, p, ip, parent, wakeInit);
            && (i != p && x.state == SLEEPING ==>
                  y.state == if x.chan == OnProc(parent) || (wakeInit && x.chan == OnProc(ip)) then RUNNABLE
                      else SLEEPING)
            && (i != p && x.state != SLEEPING ==> y.state == x.state) && y.killed == x.killed
            && y.pid == x.pid && y.chan == x.chan && y.parent == (if x.parent == Some(p) then Some(ip) else x.parent)
            && (i == p ==> y.state == ZOMBIE)
            && (i != p ==> Live(y) == Live(x) && Placed(y) == Placed(x) && (y.state == ZOMBIE <==> x.state == ZOMBIE))
            && (y.state == SLEEPING ==> x.state == SLEEPING && x.chan != OnProc(parent)
                                        && (wakeInit ==> x.chan != OnProc(ip)))
  {}

  lemma ZombieIs(x: Proc, i: nat, p: nat, ip: nat, parent: nat, wakeInit: bool)
    ensures var y := AfterExit(x, i, p, ip, parent, wakeInit); i == p ==> y == y.(state := ZOMBIE)
  {}

  lemma ExitKeeps(ps: Procs, t: Procs, ip: nat, next: nat, p: nat, wakeInit: bool)
    requires Inv(ps, ip, next) && p < NPROC && p != ip && ps[p].state == RUNNING && ps[p].parent.Some?
    requires (exists q: nat :: ChildOf(ps, q, p) && ps[q].state == ZOMBIE) ==> wakeInit
    requires |t| == NPROC && forall i: nat | i < NPROC ::
        t[i] == AfterExit(ps[i], i, p, ip, ps[p].parent.value, wakeInit)
    ensures Inv(t, ip, next) && !InWait(t, ps[p].parent.value)
    ensures forall q: nat :: !ChildOf(t, q, p)
  {
    var parent := ps[p].parent.value;
    forall i: nat | i < NPROC ensures t[i] == AfterExit(ps[i], i, p, ip, parent, wakeInit) {}
    ExitParents(ps, t, ip, next, p, parent, wakeInit);
    ExitWaits(ps, t, ip, next, p, parent, wakeInit);
  }

  ghost predicate ExitStep(ps: Procs, t: Procs, ip: nat, next: nat, p: nat, parent: nat, wakeInit: bool) {
    && Inv(ps, ip, next) && p < NPROC && p != ip && ps[p].state == RUNNING && ps[p].parent == Some(parent)
       && |t| == NPROC
    && ((exists q: nat :: ChildOf(ps, q, p) && ps[q].state == ZOMBIE) ==> wakeInit)
    && forall i: nat | i < NPROC :: t[i] == AfterExit(ps[i], i, p, ip, parent, wakeInit)
  }

  lemma ExitParents(ps: Procs, t: Procs, ip: nat, next: nat, p: nat, parent: nat, wakeInit: bool)
    requires ExitStep(ps, t, ip, next, p, parent, wakeInit)
    ensures forall j: nat | j < NPROC :: PidOk(t, ip, next, j) && ParentOk(t, ip, j)
    ensures forall i: nat, j: nat | i < j < NPROC && Live(t[i]) && Live(t[j]) :: t[i].pid != t[j].pid
    ensures Placed(t[ip]) && t[ip].state != ZOMBIE
  {
    forall i: nat | i < NPROC ensures t[i].pid == ps[i].pid && Live(t[i]) == Live(ps[i])
        && Placed(t[i]) == Placed(ps[i])
      && (t[i].state == ZOMBIE <==> ps[i].state == ZOMBIE || i == p)
      && t[i].parent == (if ps[i].parent == Some(p) then Some(ip) else ps[i].parent)
    {
      AfterExitIs(ps[i], i, p, ip, parent, wakeInit);
    }
    hide AfterExit, InWait, ChildOf;
    forall j: nat | j < NPROC ensures PidOk(t, ip, next, j) && ParentOk(t, ip, j) {
      assert ParentOk(ps, ip, j) && PidOk(ps, ip, next, j);
    }
  }

  lemma NotOwnParent(ps: Procs, ip: nat, next: nat, p: nat)
    requires Inv(ps, ip, next) && p < NPROC
    ensures ps[p].parent != Some(p)
  {
    assert ParentOk(ps, ip, p);
  }

  lemma ExitWaits(ps: Procs, t: Procs, ip: nat, next: nat, p: nat, parent: nat, wakeInit: bool)
    requires ExitStep(ps, t, ip, next, p, parent, wakeInit)
    ensures forall a: nat, q: nat | InWait(t, a) && ChildOf(t, q, a) :: t[q].state != ZOMBIE
    ensures !InWait(t, parent) && forall q: nat :: !ChildOf(t, q, p)
  {
    NotOwnParent(ps, ip, next, p);
    hide AfterExit, PidOk, ParentOk;
    forall a: nat | InWait(t, a) ensures InWait(ps, a) && a != parent && (wakeInit ==> a != ip) && a != p {
      AfterExitIs(ps[a], a, p, ip, parent, wakeInit);
    }
    forall q: nat ensures !ChildOf(t, q, p) {
      if q < NPROC { AfterExitIs(ps[q], q, p, ip, parent, wakeInit); }
    }
    forall a: nat, q: nat | InWait(t, a) && ChildOf(t, q, a) ensures t[q].state != ZOMBIE {
      AfterExitIs(ps[q], q, p, ip, parent, wakeInit);
      assert ChildOf(ps, q, a) || ChildOf(ps, q, p);
    }
  }

  lemma ReapKeeps(ps: Procs, ip: nat, next: nat, c: nat)
    requires Inv(ps, ip, next) && c < NPROC && ps[c].state == ZOMBIE
    ensures Inv(ps[c := Proc(UNUSED, 0, None, ps[c].chan, false)], ip, next)
  {
    var t := ps[c := Proc(UNUSED, 0, None, ps[c].chan, false)];
    forall j: nat | j < NPROC ensures PidOk(t, ip, next, j) { assert PidOk(ps, ip, next, j); }
    forall j: nat | j < NPROC ensures ParentOk(t, ip, j) { assert ParentOk(ps, ip, j); }
    forall p: nat, q: nat | InWait(t, p) && ChildOf(t, q, p) ensures t[q].state != ZOMBIE {
      assert InWait(ps, p) && ChildOf(ps, q, p);
    }
  }

  lemma EmbryoKeeps(ps: Procs, ip: nat, next: nat, i: nat)
    requires Inv(ps, ip, next) && i < NPROC && ps[i].state == UNUSED
    ensures Inv(ps[i := ps[i].(state := EMBRYO, pid := next)], ip, next + 1)
    ensures ps[i].parent == None
  {
    var t := ps[i := ps[i].(state := EMBRYO, pid := next)];
    assert ParentOk(ps, ip, i);
    var next' := next + 1;
    forall j: nat | j < NPROC
      ensures PidOk(t, ip, next', j)
    {
      assert PidOk(ps, ip, next, j) && PidOk(ps, ip, next, ip);
    }
    forall a: nat, b: nat | a < b < NPROC && Live(t[a]) && Live(t[b]) ensures t[a].pid != t[b].pid {
      assert PidOk(ps, ip, next, a) && PidOk(ps, ip, next, b);
    }
    forall j: nat | j < NPROC ensures ParentOk(t, ip, j) { assert ParentOk(ps, ip, j); }
    forall p: nat, q: nat | InWait(t, p) && ChildOf(t, q, p) ensures t[q].state != ZOMBIE {
      assert InWait(ps, p) && ChildOf(ps, q, p);
    }
  }

  /** An embryo is given up. */
  lemma UnusedKeeps(ps: Procs, ip: nat, next: nat, i: nat)
    requires Inv(ps, ip, next) && i < NPROC && ps[i].state == EMBRYO && ps[i].parent == None
    ensures Inv(ps[i := ps[i].(state := UNUSED)], ip, next)
  {
    var t := ps[i := ps[i].(state := UNUSED)];
    forall j: nat | j < NPROC ensures PidOk(t, ip, next, j) { assert PidOk(ps, ip, next, j); }
    forall j: nat | j < NPROC ensures ParentOk(t, ip, j) { assert ParentOk(ps, ip, j); }
    forall p: nat, q: nat | InWait(t, p) && ChildOf(t, q, p) ensures t[q].state != ZOMBIE {
      assert InWait(ps, p) && ChildOf(ps, q, p);
    }
  }

  /** An embryo gets the running process p as its parent, and may become runnable. */
  lemma ChildKeeps(ps: Procs, ip: nat, next: nat, p: nat, i: nat, x: Proc)
    requires Inv(ps, ip, next) && i < NPROC && i != ip && ps[i].state == EMBRYO && p < NPROC && ps[p].state == RUNNING
    requires ps[p].pid < ps[i].pid && x.pid == ps[i].pid && x.parent == Some(p)
        && (x.state == EMBRYO || x.state == RUNNABLE)
    ensures Inv(ps[i := x], ip, next)
  {
    var t := ps[i := x];
    forall j: nat | j < NPROC ensures PidOk(t, ip, next, j) { assert PidOk(ps, ip, next, j); }
    forall j: nat | j < NPROC ensures ParentOk(t, ip, j) { assert ParentOk(ps, ip, j); }
    forall a: nat, q: nat | InWait(t, a) && ChildOf(t, q, a) ensures t[q].state != ZOMBIE {
      assert InWait(ps, a);
      if q != i { assert ChildOf(ps, q, a); }
    }
  }

  /** Slot c, a zombie child of p without children, has been cleared. */
  ghost predicate ReapedAt(ps: Procs, t: Procs, c: nat, p: nat, pid: nat) {
    && c < |ps| && ChildOf(ps, c, p) && ps[c].state == ZOMBIE && ps[c].pid == pid
       && (forall q: nat :: !ChildOf(ps, q, c))
    && t == ps[c := Proc(UNUSED, 0, None, ps[c].chan, false)]
  }

  /** The result of a pass of wait over the table. */
  datatype Waited = Reaped(pid: nat) | NoChild | Asleep

  class Ptable {
    const proc: array<Proc>
    const initproc: nat
    var nextpid: nat

    ghost predicate Valid()
      reads this, proc
    {
      Inv(proc[..], initproc, nextpid)
    }

    /** A table with nothing but the first process. */
    constructor (init: nat)
      requires init < NPROC
      ensures Valid() && fresh(proc) && initproc == init && nextpid == 2
      ensures proc[init] == Proc(RUNNABLE, 1, None, NoChan, false)
    {
      proc := new Proc[NPROC](_ => Proc(UNUSED, 0, None, NoChan, false));
      initproc, nextpid := init, 2;
      new;
      proc[init] := Proc(RUNNABLE, 1, None, NoChan, false);
    }

    method Set(i: nat, x: Proc)
      requires i < proc.Length
      modifies proc
      ensures proc[..] == old(proc[..])[i := x]
    {
      proc[i] := x;
      assert proc[..] == old(proc[..])[i := x];
    }

    /** The first unused slot becomes an embryo with a new pid; without memory for its stack it is
        given up again. */
    method Allocproc(memory: bool) returns (r: Option<nat>)
      requires Valid() && nextpid < 0x7FFF_FFFF
      modifies proc, this`nextpid
      ensures Valid()
      ensures r.Some? <==> memory && exists i: nat :: i < NPROC && old(proc[..])[i].state == UNUSED
      ensures r.Some? ==> r.value < NPROC && r.value != initproc && old(proc[..])[r.value].state == UNUSED
                          && nextpid == old(nextpid) + 1 && proc[r.value].parent == None
                          && proc[..] == old(proc[..])[r.value := old(proc[..])[r.value].(state := EMBRYO,
                             pid := old(nextpid))]
                          && forall i: nat | i < NPROC && i != r.value && Live(proc[i]) ::
                             proc[i].pid < proc[r.value].pid
    {
      var i := 0;
      while i < NPROC && proc[i].state != UNUSED
        invariant i <= NPROC && forall j: nat | j < i :: proc[j].state != UNUSED
      {
        i := i + 1;
      }
      if i == NPROC {
        return None;
      }
      ghost var ps, n := proc[..], nextpid;
      EmbryoKeeps(ps, initproc, n, i);
      Set(i, proc[i].(state := EMBRYO, pid := nextpid));
      nextpid := nextpid + 1;
      if !memory {
        UnusedKeeps(proc[..], initproc, nextpid, i);
        Set(i, proc[i].(state := UNUSED));
        return None;
      }
      forall j: nat | j < NPROC && j != i && Live(proc[j]) ensures proc[j].pid < proc[i].pid {
        assert PidOk(ps, initproc, n, j);
      }
      r := Some(i);
    }

    /** fork gives up the embryo np because there is no memory for its address space. */
    method ForkFails(np: nat)
      requires Valid() && np < NPROC && proc[np].state == EMBRYO && proc[np].parent == None
      modifies proc
      ensures Valid() && proc[..] == old(proc[..])[np := old(proc[np]).(state := UNUSED)]
    {
      UnusedKeeps(proc[..], initproc, nextpid, np);
      Set(np, proc[np].(state := UNUSED));
    }

    /** `np->parent = proc` in fork, where p has allocated the embryo np. */
    method SetParent(p: nat, np: nat)
      requires Valid() && p < NPROC && np < NPROC && np != initproc && proc[p].state == RUNNING
          && proc[np].state == EMBRYO
      requires proc[p].pid < proc[np].pid
      modifies proc
      ensures Valid() && proc[..] == old(proc[..])[np := old(proc[np]).(parent := Some(p))]
    {
      ChildKeeps(proc[..], initproc, nextpid, p, np, proc[np].(parent := Some(p)));
      Set(np, proc[np].(parent := Some(p)));
    }

    /** `np->state = RUNNABLE` in fork. */
    method StartChild(p: nat, np: nat)
      requires Valid() && p < NPROC && np < NPROC && np != initproc && proc[p].state == RUNNING
          && proc[np].state == EMBRYO
      requires proc[np].parent == Some(p)
      modifies proc
      ensures Valid() && proc[..] == old(proc[..])[np := old(proc[np]).(state := RUNNABLE)]
    {
      assert ParentOk(proc[..], initproc, np);
      ChildKeeps(proc[..], initproc, nextpid, p, np, proc[np].(state := RUNNABLE));
      Set(np, proc[np].(state := RUNNABLE));
    }

    /** Wakes all processes that sleep on chan. */
    method Wakeup1(chan: Chan)
      requires proc.Length == NPROC
      modifies proc
      ensures forall i: nat | i < NPROC :: proc[i] == Woken(old(proc[i]), chan)
      ensures forall i: nat | i < NPROC :: proc[i] ==
                var x := old(proc[i]); if x.state == SLEEPING && x.chan == chan then x.(state := RUNNABLE) else x
      ensures old(Valid()) ==> Valid()
    {
      ghost var ps := proc[..];
      var i := 0;
      while i < NPROC
        invariant i <= NPROC
        invariant forall j: nat | j < NPROC :: proc[j] == if j < i then Woken(ps[j], chan) else ps[j]
      {
        if proc[i].state == SLEEPING && proc[i].chan == chan {
          proc[i] := proc[i].(state := RUNNABLE);
        }
        i := i + 1;
      }
      if Inv(ps, initproc, nextpid) { AllWoken(ps, proc[..], initproc, nextpid, chan); }
    }

    /** The running process p exits: its parent is woken if it waits, its children are given to the
        first process, which is woken if one of them is a zombie, and p becomes a zombie. */
    method Exit(p: nat) returns (ghost zombie: bool)
      requires Valid() && p < NPROC && p != initproc && proc[p].state == RUNNING
      modifies proc
      ensures Valid() && old(proc[p]).parent.Some? && proc[p].state == ZOMBIE
      ensures zombie <==> exists q: nat :: q < NPROC && old(proc[..])[q].parent == Some(p)
                                           && old(proc[..])[q].state == ZOMBIE
      ensures forall i: nat | i < NPROC ::
                proc[i] == AfterExit(old(proc[i]), i, p, initproc, old(proc[p]).parent.value, zombie)
      ensures !InWait(proc[..], old(proc[p]).parent.value) && forall q: nat :: !ChildOf(proc[..], q, p)
      ensures forall i: nat | i < NPROC :: var x := old(proc[..])[i];
                && proc[i].parent == (if x.parent == Some(p) then Some(initproc) else x.parent)
                && proc[i].pid == x.pid && proc[i].chan == x.chan && proc[i].killed == x.killed
                && (i != p && x.state != SLEEPING ==> proc[i].state == x.state)
                && (i != p && x.state == SLEEPING ==> proc[i].state == if x.chan == OnProc(old(proc[p]).parent.value)
                      || (zombie && x.chan == OnProc(initproc)) then RUNNABLE else SLEEPING)
    {
      hide AfterExit;
      ghost var ps := proc[..];
      assert ParentOk(ps, initproc, p);
      var parent := proc[p].parent.value;
      Wakeup1(OnProc(parent));
      zombie := GiveChildren(p, ps, parent);
      Set(p, proc[p].(state := ZOMBIE));
      forall i: nat | i < NPROC ensures proc[i] == AfterExit(ps[i], i, p, initproc, parent, zombie) {
        ZombieIs(ps[i], i, p, initproc, parent, zombie);
      }
      ExitKeeps(ps, proc[..], initproc, nextpid, p, zombie);
      ChildBound(ps, p);
      forall i: nat | i < NPROC { AfterExitIs(ps[i], i, p, initproc, parent, zombie); }
    }

    /** The loop of exit over the children of p. */
    method GiveChildren(p: nat, ghost ps: Procs, ghost parent: nat) returns (ghost zombie: bool)
      requires proc.Length == NPROC && initproc < NPROC && p < NPROC && |ps| == NPROC
      requires p != initproc && ps[p].state == RUNNING
      requires forall i: nat | i < NPROC :: proc[i] == Woken(ps[i], OnProc(parent))
      modifies proc
      ensures zombie <==> exists q: nat :: ChildOf(ps, q, p) && ps[q].state == ZOMBIE
      ensures forall i: nat | i < NPROC ::
          proc[i].(state := ZOMBIE) == AfterExit(ps[i], i, p, initproc, parent, zombie).(state := ZOMBIE)
      ensures forall i: nat | i < NPROC && i != p :: proc[i] == AfterExit(ps[i], i, p, initproc, parent, zombie)
    {
      hide ChildOf, Half, Given;
      zombie := false;
      var i := 0;
      forall j: nat | j < NPROC
        ensures proc[j] == Half(ps[j], j < i, p, initproc, parent, zombie)
      {
        HalfStart(ps[j], p, initproc, parent);
      }
      while i < NPROC
        invariant i <= NPROC
        invariant zombie <==> exists q: nat :: q < i && ChildOf(ps, q, p) && ps[q].state == ZOMBIE
        invariant forall j: nat | j < NPROC :: proc[j] == Half(ps[j], j < i, p, initproc, parent, zombie)
      {
        ChildIs(ps, i, p);
        HalfIs(ps[i], p, initproc, parent, zombie);
        ghost var woke := GiveChild(i, p);
        forall j: nat | j < NPROC ensures proc[j] == Half(ps[j], j < i + 1, p, initproc, parent, zombie || woke) {
          HalfNext(ps[j], j < i, j == i, p, initproc, parent, zombie, woke);
        }
        zombie := zombie || woke;
        i := i + 1;
      }
      forall j: nat | j < NPROC
        ensures proc[j].(state := ZOMBIE) == AfterExit(ps[j], j, p, initproc, parent, zombie).(state := ZOMBIE)
        ensures j != p ==> proc[j] == AfterExit(ps[j], j, p, initproc, parent, zombie)
      {
        HalfEnd(ps[j], j, p, initproc, parent, zombie);
      }
      ChildBound(ps, p);
    }

    /** One round of that loop: a child in slot i goes to the first process, which is woken when the
        child is a zombie. */
    method GiveChild(i: nat, p: nat) returns (ghost woke: bool)
      requires proc.Length == NPROC && i < NPROC
      modifies proc
      ensures woke <==> old(proc[i]).parent == Some(p) && old(proc[i]).state == ZOMBIE
      ensures forall j: nat | j < NPROC :: proc[j] == Given(old(proc[j]), j == i, p, initproc, woke)
    {
      woke := false;
      if proc[i].parent == Some(p) {
        proc[i] := proc[i].(parent := Some(initproc));
        if proc[i].state == ZOMBIE {
          woke := true;
          Wakeup1(OnProc(initproc));
        }
      }
    }

    /** One pass of wait of the running process p: it reaps a zombie child, or returns because it has
        no children or has been killed, or goes to sleep. */
    method Wait(p: nat) returns (w: Waited, ghost c: nat)
      requires Valid() && p < NPROC && proc[p].state == RUNNING
      modifies proc
      ensures Valid()
      ensures w.Reaped? <==> exists q: nat :: ChildOf(old(proc[..]), q, p) && old(proc[..])[q].state == ZOMBIE
      ensures w.Reaped? <==> exists q: nat :: q < NPROC && old(proc[..])[q].parent == Some(p)
                                              && old(proc[..])[q].state == ZOMBIE
      ensures w.NoChild? ==> old(proc[p]).killed || forall q: nat | q < NPROC :: old(proc[..])[q].parent != Some(p)
      ensures w.Reaped? ==>
                && c < NPROC && old(proc[..])[c].parent == Some(p) && old(proc[..])[c].state == ZOMBIE
                && w.pid == old(proc[..])[c].pid && proc[c].state == UNUSED && proc[c].parent == None
                && forall i: nat | i < NPROC && i != c :: proc[i] == old(proc[..])[i]
      ensures w.Reaped? ==> ReapedAt(old(proc[..]), proc[..], c, p, w.pid)
      ensures w.NoChild? ==> proc[..] == old(proc[..])
                             && (old(proc[p]).killed || forall q: nat :: !ChildOf(old(proc[..]), q, p))
      ensures w.Asleep? ==> !old(proc[p]).killed && (exists q: nat :: ChildOf(old(proc[..]), q, p))
                            && proc[..] == old(proc[..])[p := old(proc[p]).(state := SLEEPING, chan := OnProc(p))]
    {
      var havekids, i := false, 0;
      ghost var ps := proc[..];
      while i < NPROC
        invariant i <= NPROC && proc[..] == ps
        invariant havekids <==> exists q: nat :: q < i && ChildOf(ps, q, p)
        invariant forall q: nat | q < i && ChildOf(ps, q, p) :: ps[q].state != ZOMBIE
      {
        if proc[i].parent == Some(p) {
          havekids := true;
          assert ChildOf(ps, i, p);
          if proc[i].state == ZOMBIE {
            forall q: nat ensures !ChildOf(ps, q, i) { ZombieChildless(ps, initproc, nextpid, i, q); }
            ReapKeeps(ps, initproc, nextpid, i);
            w := Reaped(proc[i].pid);
            Set(i, Proc(UNUSED, 0, None, proc[i].chan, false));
            c := i;
            return;
          }
        }
        i := i + 1;
      }
      if !havekids || proc[p].killed {
        ChildBound(ps, p);
        forall q: nat | q < NPROC && ps[q].parent == Some(p) ensures ChildOf(ps, q, p) {}
        return NoChild, 0;
      }
      StateChange(ps, initproc, nextpid, p, proc[p].(state := SLEEPING, chan := OnProc(p)));
      Set(p, proc[p].(state := SLEEPING, chan := OnProc(p)));
      w, c := Asleep, 0;
    }

    /** The running process p goes to sleep on something else than a process. */
    method Sleep(p: nat, chan: Chan)
      requires Valid() && p < NPROC && proc[p].state == RUNNING && !chan.OnProc?
      modifies proc
      ensures Valid() && proc[..] == old(proc[..])[p := old(proc[p]).(state := SLEEPING, chan := chan)]
    {
      StateChange(proc[..], initproc, nextpid, p, proc[p].(state := SLEEPING, chan := chan));
      Set(p, proc[p].(state := SLEEPING, chan := chan));
    }

    /** The first runnable process from slot i on runs. */
    method Schedule(i: nat) returns (p: nat)
      requires Valid() && i <= NPROC
      modifies proc
      ensures Valid() && i <= p <= NPROC && forall j: nat | i <= j < p :: old(proc[..])[j].state != RUNNABLE
      ensures p < NPROC ==> old(proc[..])[p].state == RUNNABLE
                            && proc[..] == old(proc[..])[p := old(proc[..])[p].(state := RUNNING)]
      ensures p == NPROC ==> proc[..] == old(proc[..])
    {
      p := i;
      while p < NPROC && proc[p].state != RUNNABLE
        invariant i <= p <= NPROC && forall j: nat | i <= j < p :: proc[j].state != RUNNABLE
      {
        p := p + 1;
      }
      if p < NPROC {
        StateChange(proc[..], initproc, nextpid, p, proc[p].(state := RUNNING));
        Set(p, proc[p].(state := RUNNING));
      }
    }

    /** The running process p gives up the processor. */
    method Yield(p: nat)
      requires Valid() && p < NPROC && proc[p].state == RUNNING
      modifies proc
      ensures Valid() && proc[..] == old(proc[..])[p := old(proc[p]).(state := RUNNABLE)]
    {
      StateChange(proc[..], initproc, nextpid, p, proc[p].(state := RUNNABLE));
      Set(p, proc[p].(state := RUNNABLE));
    }

    /** Marks the first process with the pid as killed, and wakes it if it sleeps. */
    method Kill(pid: nat) returns (r: int, ghost i: nat)
      requires Valid()
      modifies proc
      ensures Valid() && (r == 0 || r == -1)
      ensures r == 0 <==> exists i: nat :: i < NPROC && old(proc[..])[i].pid == pid
      ensures r == 0 ==>
                && i < NPROC && old(proc[..])[i].pid == pid && (forall j: nat | j < i :: old(proc[..])[j].pid != pid)
                && (forall j: nat | j < NPROC && j != i :: proc[j] == old(proc[..])[j])
                && proc[i] == old(proc[..])[i].(killed := true,
                   state := if old(proc[..])[i].state == SLEEPING then RUNNABLE else old(proc[..])[i].state)
      ensures r == -1 ==> proc[..] == old(proc[..])
    {
      ghost var ps := proc[..];
      var k := 0;
      while k < NPROC
        invariant k <= NPROC && proc[..] == ps && forall j: nat | j < k :: ps[j].pid != pid
      {
        if proc[k].pid == pid {
          KillKeeps(ps, initproc, nextpid, k);
          var x := proc[k].(killed := true);
          if x.state == SLEEPING {
            x := x.(state := RUNNABLE);
          }
          Set(k, x);
          return 0, k;
        }
        k := k + 1;
      }
      r, i := -1, 0;
    }
  }

  function Killed(x: Proc): Proc { x.(killed := true, state := if x.state == SLEEPING then RUNNABLE else x.state) }

  lemma KillKeeps(ps: Procs, ip: nat, next: nat, i: nat)
    requires Inv(ps, ip, next) && i < NPROC
    ensures Inv(ps[i := Killed(ps[i])], ip, next)
  {
    var t := ps[i := Killed(ps[i])];
    forall j: nat | j < NPROC ensures PidOk(t, ip, next, j) { assert PidOk(ps, ip, next, j); }
    forall j: nat | j < NPROC ensures ParentOk(t, ip, j) { assert ParentOk(ps, ip, j); }
    forall p: nat, q: nat | InWait(t, p) && ChildOf(t, q, p) ensures t[q].state != ZOMBIE {
      assert InWait(ps, p) && ChildOf(ps, q, p);
    }
  }

  /** A process in the middle of the loop of exit. */
  function Half(x: Proc, done: bool, p: nat, ip: nat, parent: nat, wakeInit: bool): Proc {
    var y := if x.state == SLEEPING && (x.chan == OnProc(parent) || (wakeInit && x.chan == OnProc(ip)))
        then x.(state := RUNNABLE) else x;
    if done && x.parent == Some(p) then y.(parent := Some(ip)) else y
  }

  /** A process after one round, in which it was looked at or not. */
  function Given(x: Proc, here: bool, p: nat, ip: nat, woke: bool): Proc {
    var y := if here && x.parent == Some(p) then x.(parent := Some(ip)) else x;
    if woke then Woken(y, OnProc(ip)) else y
  }

  lemma HalfStart(x: Proc, p: nat, ip: nat, parent: nat)
    ensures Half(x, false, p, ip, parent, false) == Woken(x, OnProc(parent))
  {}

  lemma HalfIs(x: Proc, p: nat, ip: nat, parent: nat, wakeInit: bool)
    ensures var y := Half(x, false, p, ip, parent, wakeInit); y.parent == x.parent
                                                              && (y.state == ZOMBIE <==> x.state == ZOMBIE)
  {}

  lemma HalfNext(x: Proc, done: bool, here: bool, p: nat, ip: nat, parent: nat, wakeInit: bool, woke: bool)
    requires !(done && here)
    ensures Given(Half(x, done, p, ip, parent, wakeInit), here, p, ip, woke)
        == Half(x, done || here, p, ip, parent, wakeInit || woke)
  {}

  lemma HalfEnd(x: Proc, i: nat, p: nat, ip: nat, parent: nat, wakeInit: bool)
    ensures Half(x, true, p, ip, parent, wakeInit).(state := ZOMBIE)
        == AfterExit(x, i, p, ip, parent, wakeInit).(state := ZOMBIE)
    ensures i != p ==> Half(x, true, p, ip, parent, wakeInit) == AfterExit(x, i, p, ip, parent, wakeInit)
  {}

  lemma ChildIs(ps: Procs, q: nat, p: nat)
    ensures ChildOf(ps, q, p) <==> q < |ps| && ps[q].parent == Some(p)
  {}

  lemma ChildBound(ps: Procs, p: nat)
    ensures forall q: nat | ChildOf(ps, q, p) :: q < |ps|
  {}
}
