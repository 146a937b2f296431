/** The map phase as steps of any number of threads, in any interleaving. An emit is two steps:
    a thread locks a bucket and reads it, and later writes it back with the new value and unlocks
    it. In between the other threads go on. */
module MrThreads {
  import opened Wrappers
  import opened MrOrder
  import opened MrTable
  import opened MrResult

  type Emits = seq<(Str, Str)>

  /** The next file to take; what each thread still has to emit for its file, and the bucket it
      has read if it is emitting; the tables of the partitions; what has been emitted, and which
      files have been mapped. */
  datatype State = State(next: nat, pending: seq<Emits>, read: seq<Option<Bucket>>, tables: seq<seq<Bucket>>,
                         emitted: Emitted, mapped: seq<nat>)

  /** A job: the files, what mapping each of them emits, and the partitions. */
  datatype Job = Job(files: nat, output: nat -> Emits, parts: nat, part: Str -> nat)

  /** The partitioner names existing partitions. */
  ghost predicate Legal(j: Job) { forall i: nat | i < j.files :: LegalEmits(j, j.output(i)) }

  ghost predicate LegalEmits(j: Job, e: Emits) { forall x | x in e :: j.part(x.0) < j.parts }

  ghost predicate Init(j: Job, s: State) {
    && s.next == 0 && s.emitted == multiset{} && s.mapped == [] && s.tables == seq(j.parts, _ => EmptyTable())
    && |s.read| == |s.pending| && forall t: nat | t < |s.pending| :: s.pending[t] == [] && s.read[t] == None
  }

  /** Thread t is emitting into bucket h of partition p, and holds its lock. */
  ghost predicate Holds(j: Job, s: State, t: nat, p: nat, h: nat) {
    && t < |s.pending| && t < |s.read| && s.read[t].Some? && s.pending[t] != []
    && p == j.part(s.pending[t][0].0) && h == Hash(s.pending[t][0].0)
  }

  ghost predicate HasBucket(s: State, p: nat, h: nat) { p < |s.tables| && h < |s.tables[p]| }

  /** Thread t takes the next file, under the lock of the file counter. */
  ghost predicate Take(j: Job, s: State, s': State, t: nat) {
    && t < |s.pending| && s.pending[t] == [] && s.next < j.files
    && s' == s.(next := s.next + 1, pending := s.pending[t := j.output(s.next)], mapped := s.mapped + [s.next])
  }

  /** Thread t locks the bucket of its next pair, which nobody holds, and reads it. */
  ghost predicate Lock(j: Job, s: State, s': State, t: nat) {
    && t < |s.pending| && t < |s.read| && s.pending[t] != [] && s.read[t] == None
    && var p, h := j.part(s.pending[t][0].0), Hash(s.pending[t][0].0);
       && (forall u: nat :: !Holds(j, s, u, p, h)) && HasBucket(s, p, h)
       && s' == s.(read := s.read[t := Some(s.tables[p][h])])
  }

  /** Thread t writes the bucket that it has read back, with its pair, and unlocks it. */
  ghost predicate Unlock(j: Job, s: State, s': State, t: nat) {
    && t < |s.pending| && t < |s.read| && s.pending[t] != [] && s.read[t].Some?
    && var x := s.pending[t][0];
       && HasBucket(s, j.part(x.0), Hash(x.0))
       && s' == s.(pending := s.pending[t := s.pending[t][1..]], read := s.read[t := None],
                   tables := WithBucket(s.tables, j.part(x.0), Hash(x.0), EmitInto(s.read[t].value, x.0, x.1)),
                   emitted := s.emitted + multiset{x})
  }

  ghost predicate ThreadStep(j: Job, s: State, s': State, t: nat) {
    Take(j, s, s', t) || Lock(j, s, s', t) || Unlock(j, s, s', t)
  }

  ghost predicate Step(j: Job, s: State, s': State) { exists t: nat :: ThreadStep(j, s, s', t) }

  /** All threads have found the files used up. */
  ghost predicate Final(j: Job, s: State) {
    s.next >= j.files && forall t: nat | t < |s.pending| :: s.pending[t] == []
  }

  ghost predicate Run(j: Job, run: seq<State>) {
    && run != [] && Legal(j) && Init(j, run[0])
    && forall i: nat | i + 1 < |run| :: Step(j, run[i], run[i + 1])
  }

  // ----- nothing is lost or emitted twice -----

  ghost function Unemitted(pending: seq<Emits>): Emitted {
    if pending == [] then multiset{} else Unemitted(pending[..|pending| - 1]) + multiset(pending[|pending| - 1])
  }

  /** What the first n files emit. */
  ghost function Output(j: Job, n: nat): Emitted {
    if n == 0 then multiset{} else Output(j, n - 1) + multiset(j.output(n - 1))
  }

  ghost predicate Counts(j: Job, s: State) {
    && s.next <= j.files && s.mapped == seq(s.next, i => i)
    && s.emitted + Unemitted(s.pending) == Output(j, s.next)
  }

  lemma {:induction false} UnemittedAt(pending: seq<Emits>, t: nat, x: Emits)
    requires t < |pending|
    ensures Unemitted(pending[t := x]) + multiset(pending[t]) == Unemitted(pending) + multiset(x)
  {
    var n := |pending| - 1;
    if t < n {
      assert pending[t := x][..n] == pending[..n][t := x];
      UnemittedAt(pending[..n], t, x);
      AddBoth(Unemitted(pending[..n][t := x]), multiset(pending[t]), Unemitted(pending[..n]), multiset(x),
          multiset(pending[n]));
    } else {
      assert pending[t := x][..n] == pending[..n];
    }
  }

  lemma AddBoth(a: Emitted, b: Emitted, c: Emitted, d: Emitted, l: Emitted)
    requires a + b == c + d
    ensures (a + l) + b == (c + l) + d
  {
    forall k ensures ((a + l) + b)[k] == ((c + l) + d)[k] {
      assert (a + b)[k] == (c + d)[k];
    }
  }

  lemma {:induction false} UnemittedNone(pending: seq<Emits>)
    requires forall t: nat | t < |pending| :: pending[t] == []
    ensures Unemitted(pending) == multiset{}
  {
    if pending != [] { UnemittedNone(pending[..|pending| - 1]); }
  }

  lemma TakeCounts(j: Job, s: State, s': State, t: nat)
    requires Counts(j, s) && Take(j, s, s', t)
    ensures Counts(j, s')
  {
    UnemittedAt(s.pending, t, j.output(s.next));
    assert seq(s.next + 1, i => i) == seq(s.next, i => i) + [s.next];
    TakeBags(s.emitted, Unemitted(s.pending), Unemitted(s'.pending), multiset(j.output(s.next)), Output(j, s.next));
  }

  lemma TakeBags(e: Emitted, u: Emitted, u': Emitted, x: Emitted, o: Emitted)
    requires e + u == o && u' == u + x
    ensures e + u' == o + x
  {}

  lemma LockCounts(j: Job, s: State, s': State, t: nat)
    requires Counts(j, s) && Lock(j, s, s', t)
    ensures Counts(j, s')
  {}

  lemma UnlockCounts(j: Job, s: State, s': State, t: nat)
    requires Counts(j, s) && Unlock(j, s, s', t)
    ensures Counts(j, s')
  {
    hide Output, EmitInto, Hash;
    var p := s.pending[t];
    assert p == [p[0]] + p[1..];
    UnemittedAt(s.pending, t, p[1..]);
    EmitBags(s.emitted, Unemitted(s.pending), Unemitted(s'.pending), multiset(p[1..]), multiset{p[0]},
        Output(j, s.next));
  }

  lemma EmitBags(e: Emitted, u: Emitted, u': Emitted, q: Emitted, x: Emitted, o: Emitted)
    requires e + u == o && u' + (x + q) == u + q
    ensures (e + x) + u' == o
  {
    assert u' + x == u by {
      forall k ensures (u' + x)[k] == u[k] {
        assert (u' + (x + q))[k] == (u + q)[k];
      }
    }
  }

  // ----- a lock has one holder, who knows the bucket -----

  /** What a thread that is emitting has read is still in its bucket. */
  ghost predicate Fresh(j: Job, s: State, t: nat)
    requires |s.read| == |s.pending|
  {
    t < |s.read| && s.read[t].Some? ==>
      && s.pending[t] != []
      && var p, h := j.part(s.pending[t][0].0), Hash(s.pending[t][0].0);
         HasBucket(s, p, h) && s.tables[p][h] == s.read[t].value
  }

  ghost predicate Locks(j: Job, s: State) {
    && |s.read| == |s.pending| && (forall t: nat | t < |s.pending| :: Fresh(j, s, t) && LegalEmits(j, s.pending[t]))
    && (forall t: nat, u: nat, p: nat, h: nat | Holds(j, s, t, p, h) && Holds(j, s, u, p, h) :: t == u)
  }

  lemma TakeLocks(j: Job, s: State, s': State, t: nat)
    requires Locks(j, s) && Legal(j) && Take(j, s, s', t)
    ensures Locks(j, s')
  {
    hide Hash, Legal, LegalEmits;
    assert LegalEmits(j, j.output(s.next)) by { LegalOutput(j, s.next); }
    assert Fresh(j, s, t);
    forall u: nat | u < |s'.pending| ensures Fresh(j, s', u) && LegalEmits(j, s'.pending[u]) {
      assert Fresh(j, s, u) && LegalEmits(j, s.pending[u]);
    }
    forall u: nat, p: nat, h: nat | Holds(j, s', u, p, h) ensures Holds(j, s, u, p, h) {}
  }

  lemma LegalOutput(j: Job, i: nat)
    requires Legal(j) && i < j.files
    ensures LegalEmits(j, j.output(i))
  {}

  lemma LockLocks(j: Job, s: State, s': State, t: nat)
    requires Locks(j, s) && Lock(j, s, s', t)
    ensures Locks(j, s')
  {
    hide Hash, LegalEmits;
    forall u: nat | u < |s'.pending| ensures Fresh(j, s', u) && LegalEmits(j, s'.pending[u]) {
      assert Fresh(j, s, u) && LegalEmits(j, s.pending[u]);
    }
    forall u: nat, p: nat, h: nat | Holds(j, s', u, p, h) && u != t ensures Holds(j, s, u, p, h) {}
  }

  lemma UnlockLocks(j: Job, s: State, s': State, t: nat)
    requires Locks(j, s) && Unlock(j, s, s', t)
    ensures Locks(j, s')
  {
    hide Hash, LegalEmits, EmitInto;
    var q, g := j.part(s.pending[t][0].0), Hash(s.pending[t][0].0);
    assert Holds(j, s, t, q, g);
    assert LegalEmits(j, s.pending[t]);
    forall u: nat | u < |s'.pending| ensures Fresh(j, s', u) && LegalEmits(j, s'.pending[u]) {
      assert Fresh(j, s, u) && LegalEmits(j, s.pending[u]);
      if u == t {
        LegalTail(j, s.pending[t]);
      } else {
        assert !Holds(j, s, u, q, g);
      }
    }
    forall u: nat, p: nat, h: nat | Holds(j, s', u, p, h) ensures Holds(j, s, u, p, h) {}
  }

  lemma LegalTail(j: Job, e: Emits)
    requires LegalEmits(j, e) && e != []
    ensures LegalEmits(j, e[1..])
  {}

  // ----- the tables -----

  ghost predicate Tables(j: Job, s: State) { AllReflect(j.part, j.parts, s.emitted, s.tables) }

  lemma InitTables(j: Job, s: State)
    requires Init(j, s)
    ensures Tables(j, s)
  {
    forall p: nat | p < j.parts ensures Reflects(j.part, p, s.emitted, s.tables[p]) {
      NothingReflects(j.part, p);
    }
  }

  /** Writing back the bucket that has been read is one emit into the tables as they are now. */
  lemma UnlockEmits(j: Job, s: State, s': State, t: nat)
    requires Locks(j, s) && Tables(j, s) && Unlock(j, s, s', t)
    ensures var x := s.pending[t][0];
            && j.part(x.0) < |s.tables| && |s.tables[j.part(x.0)]| == NBUCKET
            && s'.tables == EmitTables(j.part, s.tables, x.0, x.1)
  {
    hide Hash, EmitInto, LegalEmits;
    assert Fresh(j, s, t);
    TableShape(j.part, j.parts, s.emitted, s.tables, j.part(s.pending[t][0].0));
  }

  lemma UnlockTables(j: Job, s: State, s': State, t: nat)
    requires Locks(j, s) && Tables(j, s) && Unlock(j, s, s', t)
    ensures Tables(j, s')
  {
    hide Hash, EmitInto, Locks;
    var x := s.pending[t][0];
    UnlockEmits(j, s, s', t);
    hide AllReflect, Reflects, EmitTables;
    assert j.part(x.0) < j.parts by { TablesLength(j, s); }
    EmitKeepsTables(j.part, j.parts, s.emitted, s.tables, x.0, x.1);
    assert (x.0, x.1) == x;
  }

  lemma TablesLength(j: Job, s: State)
    requires Tables(j, s)
    ensures |s.tables| == j.parts
  {}

  // ----- every reachable state -----

  ghost predicate Inv(j: Job, s: State) { Counts(j, s) && Locks(j, s) && Tables(j, s) }

  lemma StepKeeps(j: Job, s: State, s': State)
    requires Inv(j, s) && Legal(j) && Step(j, s, s')
    ensures Inv(j, s')
  {
    hide Counts, Locks, Legal, AllReflect, Hash, EmitInto;
    var t: nat :| ThreadStep(j, s, s', t);
    if Take(j, s, s', t) {
      TakeCounts(j, s, s', t);
      TakeLocks(j, s, s', t);
    } else if Lock(j, s, s', t) {
      LockCounts(j, s, s', t);
      LockLocks(j, s, s', t);
    } else {
      UnlockCounts(j, s, s', t);
      UnlockLocks(j, s, s', t);
      UnlockTables(j, s, s', t);
    }
  }

  lemma {:induction false} RunKeeps(j: Job, run: seq<State>, i: nat)
    requires Run(j, run) && i < |run|
    ensures Inv(j, run[i])
  {
    hide Legal, AllReflect, Hash, Step;
    if i == 0 {
      UnemittedNone(run[0].pending);
      InitTables(j, run[0]);
    } else {
      RunKeeps(j, run, i - 1);
      assert Step(j, run[i - 1], run[i - 1 + 1]);
      hide Inv;
      StepKeeps(j, run[i - 1], run[i]);
    }
  }

  /** In every reachable state the tables, built by the interleaved threads, hold exactly what has
      been emitted. */
  lemma RunReflects(j: Job, run: seq<State>, i: nat)
    requires Run(j, run) && i < |run|
    ensures |run[i].tables| == j.parts
    ensures forall p: nat | p < j.parts :: Reflects(j.part, p, run[i].emitted, run[i].tables[p])
  {
    hide Reflects, Run, Counts, Locks;
    RunKeeps(j, run, i);
  }

  /** However the threads interleave, when all have ended each file has been mapped exactly once
      and just the outputs of the files have been emitted. */
  lemma RunEmits(j: Job, run: seq<State>)
    requires Run(j, run) && Final(j, run[|run| - 1])
    ensures var s := run[|run| - 1]; s.emitted == Output(j, j.files) && s.mapped == seq(j.files, i => i)
  {
    hide Tables, Locks, Init, Legal, Step;
    var s := run[|run| - 1];
    RunKeeps(j, run, |run| - 1);
    UnemittedNone(s.pending);
  }

  /** The calls of the reducer of partition p, from the table that a run has built, are those for
      the outputs of the files. */
  lemma RunResult(j: Job, run: seq<State>, p: nat)
    requires Run(j, run) && Final(j, run[|run| - 1]) && p < j.parts
    ensures |run[|run| - 1].tables| == j.parts
    ensures Result(j.part, p, Output(j, j.files), Calls(run[|run| - 1].tables[p]))
  {
    hide Result, Reflects, Init, Legal, Step, Calls;
    RunEmits(j, run);
    RunReflects(j, run, |run| - 1);
    CallsResult(j.part, p, Output(j, j.files), run[|run| - 1].tables[p]);
  }

  /** Whatever the interleaving, also with other numbers of threads, the reducer of every partition
      is called in the same way. */
  lemma SchedulingIndependent(j: Job, run: seq<State>, run': seq<State>, p: nat)
    requires Run(j, run) && Final(j, run[|run| - 1])
    requires Run(j, run') && Final(j, run'[|run'| - 1])
    requires p < j.parts
    ensures |run[|run| - 1].tables| == |run'[|run'| - 1].tables| == j.parts
    ensures Calls(run[|run| - 1].tables[p]) == Calls(run'[|run'| - 1].tables[p])
  {
    hide Result, Init, Legal, Step, Calls;
    RunResult(j, run, p);
    RunResult(j, run', p);
    ResultUnique(j.part, p, Output(j, j.files), Calls(run[|run| - 1].tables[p]), Calls(run'[|run'| - 1].tables[p]));
  }

  // ----- every run ends -----

  /** The steps that are left: one for each file not taken, two for each pair not emitted, less
      those that have been made. */
  ghost function Work(j: Job, s: State): nat
    requires |s.read| == |s.pending|
  {
    Untaken(j, s.next) + StepsLeft(s.pending, s.read)
  }

  ghost function Untaken(j: Job, n: nat): nat
    decreases j.files - n
  {
    if n >= j.files then 0 else 1 + 2 * |j.output(n)| + Untaken(j, n + 1)
  }

  ghost function StepsOf(e: Emits, r: Option<Bucket>): nat {
    if e == [] then 0 else if r.Some? then 2 * |e| - 1 else 2 * |e|
  }

  ghost function StepsLeft(pending: seq<Emits>, read: seq<Option<Bucket>>): nat
    requires |read| == |pending|
  {
    if pending == [] then 0 else
      var n := |pending| - 1;
      StepsLeft(pending[..n], read[..n]) + StepsOf(pending[n], read[n])
  }

  lemma {:induction false} StepsLeftAt(pending: seq<Emits>, read: seq<Option<Bucket>>, t: nat, e: Emits,
          r: Option<Bucket>)
    requires |read| == |pending| && t < |pending|
    ensures StepsLeft(pending[t := e], read[t := r]) + StepsOf(pending[t], read[t])
        == StepsLeft(pending, read) + StepsOf(e, r)
  {
    hide StepsOf;
    var n := |pending| - 1;
    if t < n {
      assert pending[t := e][..n] == pending[..n][t := e] && read[t := r][..n] == read[..n][t := r];
      StepsLeftAt(pending[..n], read[..n], t, e, r);
    } else {
      assert pending[t := e][..n] == pending[..n] && read[t := r][..n] == read[..n];
    }
  }

  /** Each step leaves one step less. */
  lemma StepWorks(j: Job, s: State, s': State)
    requires Locks(j, s) && Step(j, s, s')
    ensures |s'.read| == |s'.pending| && Work(j, s') == Work(j, s) - 1
  {
    hide Hash, EmitInto, LegalEmits;
    var t: nat :| ThreadStep(j, s, s', t);
    assert Fresh(j, s, t);
    StepsLeftAt(s.pending, s.read, t, s'.pending[t], s'.read[t]);
    assert s'.pending == s.pending[t := s'.pending[t]] && s'.read == s.read[t := s'.read[t]];
  }

  lemma {:induction false} NothingLeft(pending: seq<Emits>, read: seq<Option<Bucket>>)
    requires |read| == |pending| && forall t: nat | t < |pending| :: pending[t] == []
    ensures StepsLeft(pending, read) == 0
  {
    if pending != [] { NothingLeft(pending[..|pending| - 1], read[..|pending| - 1]); }
  }

  lemma {:induction false} RunWorks(j: Job, run: seq<State>, i: nat)
    requires Run(j, run) && i < |run|
    ensures |run[i].read| == |run[i].pending| && Work(j, run[i]) + i == Untaken(j, 0)
  {
    hide Legal, Counts, Tables, Hash, Step;
    if i == 0 {
      NothingLeft(run[0].pending, run[0].read);
    } else {
      hide Init, Work;
      RunWorks(j, run, i - 1);
      RunKeeps(j, run, i - 1);
      assert Step(j, run[i - 1], run[i - 1 + 1]);
      StepWorks(j, run[i - 1], run[i]);
    }
  }

  /** Every run ends: it has one step for each file and two for each pair, and no more. */
  lemma RunEnds(j: Job, run: seq<State>)
    requires Run(j, run)
    ensures |run| <= Untaken(j, 0) + 1
    ensures Final(j, run[|run| - 1]) ==> |run| == Untaken(j, 0) + 1
  {
    hide Init, Legal, Step;
    RunWorks(j, run, |run| - 1);
    var s := run[|run| - 1];
    if Final(j, s) { NothingLeft(s.pending, s.read); }
  }

  /** No deadlock: with at least one thread, a reachable state in which no step can be made is final. */
  lemma NoStepFinal(j: Job, run: seq<State>)
    requires Run(j, run) && run[|run| - 1].pending != []
    ensures var s := run[|run| - 1]; Final(j, s) <==> forall s' :: !Step(j, s, s')
  {
    hide Init, Legal, Counts, EmitInto, Hash;
    var s := run[|run| - 1];
    RunKeeps(j, run, |run| - 1);
    if !Final(j, s) { SomeStep(j, s); }
    if Final(j, s) { FinalStops(j, s); }
  }

  lemma FinalStops(j: Job, s: State)
    requires Final(j, s)
    ensures forall s' :: !Step(j, s, s')
  {}

  lemma SomeStep(j: Job, s: State)
    requires Locks(j, s) && Tables(j, s) && s.pending != [] && !Final(j, s)
    ensures exists s' :: Step(j, s, s')
  {
    hide EmitInto, LegalEmits, AllReflect, Hash;
    if t: nat :| t < |s.read| && s.read[t].Some? {
      assert Fresh(j, s, t);
      var x := s.pending[t][0];
      var tables := WithBucket(s.tables, j.part(x.0), Hash(x.0), EmitInto(s.read[t].value, x.0, x.1));
      var s' := s.(pending := s.pending[t := s.pending[t][1..]], read := s.read[t := None],
                   tables := tables, emitted := s.emitted + multiset{x});
      assert Unlock(j, s, s', t) && ThreadStep(j, s, s', t) && Step(j, s, s');
    } else if t: nat :| t < |s.pending| && s.pending[t] != [] {
      var p, h := j.part(s.pending[t][0].0), Hash(s.pending[t][0].0);
      BucketThere(j, s, t);
      var s' := s.(read := s.read[t := Some(s.tables[p][h])]);
      assert Lock(j, s, s', t) && ThreadStep(j, s, s', t) && Step(j, s, s');
    } else {
      var s' := s.(next := s.next + 1, pending := s.pending[0 := j.output(s.next)], mapped := s.mapped + [s.next]);
      assert Take(j, s, s', 0) && ThreadStep(j, s, s', 0) && Step(j, s, s');
    }
  }

  lemma BucketThere(j: Job, s: State, t: nat)
    requires Locks(j, s) && Tables(j, s) && t < |s.pending| && s.pending[t] != []
    ensures HasBucket(s, j.part(s.pending[t][0].0), Hash(s.pending[t][0].0))
  {
    assert LegalEmits(j, s.pending[t]) && s.pending[t][0] in s.pending[t];
    TableShape(j.part, j.parts, s.emitted, s.tables, j.part(s.pending[t][0].0));
  }
}
