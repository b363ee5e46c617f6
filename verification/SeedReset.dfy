/** The seed/reset flag protocol of the demo apps, one machine for its three versions
    (demo/engineering/control.go, demo/bridge/Seed/DemoController.cs, demo/sickbay/app/seed.py).
    They differ in one point: after a successful reset the C# version stores seeded before it
    releases the work mutex, the Go and Python versions after. */
module SeedReset {
  datatype Version = StoresInsideMutex | StoresAfterRelease

  datatype Lock = Free | Seeder(i: nat) | Worker(w: nat) | Handler(h: nat)

  /** A seed attempt: it holds the work mutex throughout, and the flag mutex while it checks
      whether a reset is pending and stores. */
  datatype SeederAt = Seeding | Succeeded | Checking | Storing | Leaving

  /** A reset request: it holds the flag mutex until it has cleared seeded, then starts the worker. */
  datatype HandlerAt = Swapping | Clearing | Spawning

  /** A reset worker. */
  datatype WorkerAt = Waiting | Reclearing | Removing | Reseeding | Marking | Ending

  datatype State = State(seeded: bool, resetting: bool, dataSeeded: bool, mu: Lock, flag: Lock,
                         seeders: map<nat, SeederAt>, handlers: map<nat, HandlerAt>, workers: map<nat, WorkerAt>)

  datatype Step =
    | SeedStart(i: nat)
    | SeedFail(i: nat)
    | SeedSucceed(i: nat)
    | SeedLockFlag(i: nat)
    | SeedCheck(i: nat)
    | SeedStore(i: nat)
    | SeedLeave(i: nat)
    | Request(h: nat)
    | Swap(h: nat)
    | Clear(h: nat)
    | Spawn(h: nat)
    | Attempt(w: nat)
    | Reclear(w: nat)
    | Remove(w: nat)
    | AttemptFail(w: nat, again: bool)
    | GiveUp(w: nat)
    | Reseed(w: nat)
    | Mark(w: nat)
    | End(w: nat)

  predicate SeederIs(s: State, i: nat, at: SeederAt) { i in s.seeders && s.seeders[i] == at }

  predicate HandlerIs(s: State, h: nat, at: HandlerAt) { h in s.handlers && s.handlers[h] == at }

  predicate WorkerIs(s: State, w: nat, at: WorkerAt) { w in s.workers && s.workers[w] == at }

  predicate Enabled(s: State, step: Step) {
    match step
    case SeedStart(i) => i !in s.seeders && s.mu.Free?
    case SeedFail(i) => SeederIs(s, i, Seeding)
    case SeedSucceed(i) => SeederIs(s, i, Seeding)
    case SeedLockFlag(i) => SeederIs(s, i, Succeeded) && s.flag.Free?
    case SeedCheck(i) => SeederIs(s, i, Checking)
    case SeedStore(i) => SeederIs(s, i, Storing)
    case SeedLeave(i) => SeederIs(s, i, Leaving)
    case Request(h) => h !in s.handlers && s.flag.Free?
    case Swap(h) => HandlerIs(s, h, Swapping)
    case Clear(h) => HandlerIs(s, h, Clearing)
    case Spawn(h) => HandlerIs(s, h, Spawning)
    case Attempt(w) => WorkerIs(s, w, Waiting) && s.mu.Free?
    case Reclear(w) => WorkerIs(s, w, Reclearing)
    case Remove(w) => WorkerIs(s, w, Removing)
    case AttemptFail(w, _) => WorkerIs(s, w, Removing) || WorkerIs(s, w, Reseeding)
    case GiveUp(w) => WorkerIs(s, w, Waiting)
    case Reseed(w) => WorkerIs(s, w, Reseeding)
    case Mark(w) => WorkerIs(s, w, Marking)
    case End(w) => WorkerIs(s, w, Ending)
  }

  function Apply(s: State, step: Step, v: Version): State {
    match step
    case SeedStart(i) => s.(mu := Seeder(i), seeders := s.seeders[i := Seeding])
    case SeedFail(i) => s.(mu := Free, seeders := s.seeders - {i})
    case SeedSucceed(i) => s.(dataSeeded := true, seeders := s.seeders[i := Succeeded])
    case SeedLockFlag(i) => s.(flag := Seeder(i), seeders := s.seeders[i := Checking])
    case SeedCheck(i) =>
      if s.resetting then s.(flag := Free, seeders := s.seeders[i := Leaving])
      else s.(seeders := s.seeders[i := Storing])
    case SeedStore(i) => s.(seeded := true, flag := Free, seeders := s.seeders[i := Leaving])
    case SeedLeave(i) => s.(mu := Free, seeders := s.seeders - {i})
    case Request(h) => s.(flag := Handler(h), handlers := s.handlers[h := Swapping])
    case Swap(h) =>
      if s.resetting then s.(flag := Free, handlers := s.handlers - {h})
      else s.(resetting := true, handlers := s.handlers[h := Clearing])
    case Clear(h) => s.(seeded := false, flag := Free, handlers := s.handlers[h := Spawning])
    case Spawn(h) => s.(handlers := s.handlers - {h}, workers := s.workers[h := Waiting])
    case Attempt(w) => s.(mu := Worker(w), workers := s.workers[w := Reclearing])
    case Reclear(w) => s.(seeded := false, workers := s.workers[w := Removing])
    case Remove(w) => s.(dataSeeded := false, workers := s.workers[w := Reseeding])
    case AttemptFail(w, again) => s.(mu := Free, workers := s.workers[w := if again then Waiting else Ending])
    case GiveUp(w) => s.(workers := s.workers[w := Ending])
    case Reseed(w) =>
      s.(dataSeeded := true, mu := if v.StoresInsideMutex? then s.mu else Free, workers := s.workers[w := Marking])
    case Mark(w) =>
      s.(seeded := true, mu := if v.StoresInsideMutex? then Free else s.mu, workers := s.workers[w := Ending])
    case End(w) => s.(resetting := false, workers := s.workers - {w})
  }

  const Initial: State := State(false, false, false, Free, Free, map[], map[], map[])

  // ---------- The invariant ----------

  predicate HoldsMu(at: WorkerAt, v: Version) {
    at.Reclearing? || at.Removing? || at.Reseeding? || (at.Marking? && v.StoresInsideMutex?)
  }

  /** The work mutex is held by whoever is at a place that holds it. */
  ghost predicate MuHeld(s: State, v: Version) {
    && (forall i :: i in s.seeders ==> s.mu == Seeder(i))
    && (forall w :: w in s.workers && HoldsMu(s.workers[w], v) ==> s.mu == Worker(w))
    && (s.mu.Seeder? ==> s.mu.i in s.seeders)
    && (s.mu.Worker? ==> s.mu.w in s.workers && HoldsMu(s.workers[s.mu.w], v))
    && !s.mu.Handler?
  }

  ghost predicate FlagHeld(s: State) {
    && (forall i :: i in s.seeders && (s.seeders[i].Checking? || s.seeders[i].Storing?) ==> s.flag == Seeder(i))
    && (forall h :: h in s.handlers && !s.handlers[h].Spawning? ==> s.flag == Handler(h))
    && (s.flag.Seeder? ==> SeederIs(s, s.flag.i, Checking) || SeederIs(s, s.flag.i, Storing))
    && (s.flag.Handler? ==> s.flag.h in s.handlers && !s.handlers[s.flag.h].Spawning?)
    && !s.flag.Worker?
  }

  /** The reset belongs to one handler that won the swap, or to the worker it started. */
  predicate Owns(s: State, h: nat) {
    (h in s.handlers && !s.handlers[h].Swapping?) || h in s.workers
  }

  ghost predicate OneOwner(s: State) {
    && (forall h, w :: Owns(s, h) && Owns(s, w) ==> h == w)
    && (forall h :: h in s.handlers && h in s.workers ==> s.handlers[h].Swapping?)
    && (s.resetting <==> exists h :: Owns(s, h))
  }

  /** An accepted reset that has not reseeded yet: the request has cleared seeded and been
      answered, and the worker has not stored seeded or given up. */
  predicate Pending(s: State, h: nat) {
    HandlerIs(s, h, Spawning) || (h in s.workers && !s.workers[h].Ending?)
  }

  ghost predicate FlagsTrue(s: State) {
    && (forall h :: Pending(s, h) ==> !s.seeded)
    && (s.seeded ==> s.dataSeeded)
    && (forall i :: i in s.seeders && s.seeders[i].Storing? ==> !s.resetting)
    && (forall i :: i in s.seeders && (s.seeders[i].Succeeded? || s.seeders[i].Checking? || s.seeders[i].Storing?) ==> s.dataSeeded)
    && (forall w :: w in s.workers && s.workers[w].Marking? ==> s.dataSeeded)
  }

  ghost predicate Inv(s: State, v: Version) {
    MuHeld(s, v) && FlagHeld(s) && OneOwner(s) && FlagsTrue(s)
  }

  lemma StepKeepsMu(s: State, step: Step, v: Version)
    requires Inv(s, v) && Enabled(s, step)
    ensures MuHeld(Apply(s, step, v), v)
  {
  }

  lemma StepKeepsFlag(s: State, step: Step, v: Version)
    requires Inv(s, v) && Enabled(s, step)
    ensures FlagHeld(Apply(s, step, v))
  {
  }

  lemma StepKeepsOwner(s: State, step: Step, v: Version)
    requires Inv(s, v) && Enabled(s, step)
    ensures OneOwner(Apply(s, step, v))
  {
    var t := Apply(s, step, v);
    if step.Swap? && !s.resetting {
      forall k ensures Owns(t, k) <==> k == step.h {
        assert !Owns(s, k);
      }
      assert Owns(t, step.h) && !Owns(s, step.h);
    } else if step.End? {
      assert Owns(s, step.w);
      forall k ensures !Owns(t, k) {
        assert Owns(s, k) ==> k == step.w;
      }
    } else {
      assert t.resetting == s.resetting;
      forall k ensures Owns(t, k) <==> Owns(s, k) {
      }
    }
  }

  lemma StepKeepsFlags(s: State, step: Step, v: Version)
    requires Inv(s, v) && Enabled(s, step)
    ensures FlagsTrue(Apply(s, step, v))
  {
    var t := Apply(s, step, v);
    forall h | Pending(s, h) ensures Owns(s, h) {
    }
    if !step.Clear? {
      forall h | Pending(t, h) ensures Pending(s, h) {
      }
    }
    match step
    case SeedStart(_) =>
    case SeedFail(_) =>
    case SeedSucceed(_) =>
    case SeedLockFlag(_) =>
    case SeedCheck(_) =>
    case SeedStore(i) => assert SeederIs(s, i, Storing);
    case SeedLeave(_) =>
    case Request(_) =>
    case Swap(h) => assert HandlerIs(s, h, Swapping);
    case Clear(h) => assert Owns(s, h);
    case Spawn(h) => assert Pending(s, h);
    case Attempt(w) => assert Pending(s, w);
    case Reclear(w) => assert Pending(s, w);
    case Remove(w) =>
      assert Pending(s, w) && s.mu == Worker(w);
      forall k | k in s.workers ensures k == w {
        assert Owns(s, k) && Owns(s, w);
      }
    case AttemptFail(w, _) => assert Pending(s, w);
    case GiveUp(w) => assert Pending(s, w);
    case Reseed(w) => assert Pending(s, w);
    case Mark(w) => assert Owns(s, w) && WorkerIs(s, w, Marking);
    case End(w) => assert Owns(s, w);
  }

  lemma StepKeepsInv(s: State, step: Step, v: Version)
    requires Inv(s, v) && Enabled(s, step)
    ensures Inv(Apply(s, step, v), v)
  {
    StepKeepsMu(s, step, v);
    StepKeepsFlag(s, step, v);
    StepKeepsOwner(s, step, v);
    StepKeepsFlags(s, step, v);
  }

  // ---------- Runs ----------

  ghost predicate Run(states: seq<State>, steps: seq<Step>, v: Version) {
    && |states| == |steps| + 1 && states[0] == Initial
    && forall i :: 0 <= i < |steps| ==> Enabled(states[i], steps[i]) && states[i + 1] == Apply(states[i], steps[i], v)
  }

  lemma {:induction false} RunKeepsInv(states: seq<State>, steps: seq<Step>, v: Version, i: nat)
    requires Run(states, steps, v) && i < |states|
    ensures Inv(states[i], v)
  {
    if i > 0 {
      RunKeepsInv(states, steps, v, i - 1);
      StepKeepsInv(states[i - 1], steps[i - 1], v);
    }
  }

  /** In every interleaving, of every version: while an accepted reset has not reseeded, seeded
      reads false; and whenever it reads true the data is seeded. */
  lemma PendingReadsFalse(states: seq<State>, steps: seq<Step>, v: Version, i: nat)
    requires Run(states, steps, v) && i < |states|
    ensures (exists h :: Pending(states[i], h)) ==> !states[i].seeded
    ensures states[i].seeded ==> states[i].dataSeeded
  {
    RunKeepsInv(states, steps, v, i);
  }

  /** There is at most one reset worker, and none while resetting is clear. */
  lemma AtMostOneWorker(states: seq<State>, steps: seq<Step>, v: Version, i: nat)
    requires Run(states, steps, v) && i < |states|
    ensures |states[i].workers| <= 1
    ensures states[i].workers != map[] ==> states[i].resetting
  {
    RunKeepsInv(states, steps, v, i);
    var s := states[i];
    forall a, b | a in s.workers && b in s.workers ensures a == b {
      assert Owns(s, a) && Owns(s, b);
    }
    AllEqual(s.workers.Keys);
    assert |s.workers| == |s.workers.Keys|;
    if w :| w in s.workers {
      assert Owns(s, w);
    }
  }

  lemma AllEqual(ws: set<nat>)
    requires forall a, b :: a in ws && b in ws ==> a == b
    ensures |ws| <= 1
  {
    if a :| a in ws {
      assert ws == {a};
    }
  }

  /** Seed work and reset work never overlap, nor do two seeds. */
  lemma WorkNeverOverlaps(states: seq<State>, steps: seq<Step>, v: Version, i: nat, a: nat, b: nat)
    requires Run(states, steps, v) && i < |states|
    ensures var s := states[i];
            !(a in s.seeders && s.seeders[a] == Seeding && b in s.workers && s.workers[b] in {Removing, Reseeding})
    ensures SeederIs(states[i], a, Seeding) && SeederIs(states[i], b, Seeding) ==> a == b
  {
    RunKeepsInv(states, steps, v, i);
  }

  /** Contrary to its comment, the worker's second clearing of seeded never changes anything. */
  lemma ReclearIsNoOp(states: seq<State>, steps: seq<Step>, v: Version, i: nat, w: nat)
    requires Run(states, steps, v) && i < |steps| && steps[i] == Reclear(w)
    ensures !states[i].seeded && states[i + 1] == states[i].(workers := states[i].workers[w := Removing])
  {
    RunKeepsInv(states, steps, v, i);
    assert Pending(states[i], w);
  }

  /** A run never jams: whatever is under way, some step other than a new request is possible, and
      no worker has to give up waiting for it. */
  lemma NeverJams(states: seq<State>, steps: seq<Step>, v: Version, i: nat) returns (next: Step)
    requires Run(states, steps, v) && i < |states|
    requires states[i].seeders != map[] || states[i].handlers != map[] || states[i].workers != map[]
    ensures Enabled(states[i], next) && !next.Request? && !next.SeedStart? && !next.GiveUp?
  {
    RunKeepsInv(states, steps, v, i);
    var s := states[i];
    if h :| h in s.handlers {
      next := if s.handlers[h].Swapping? then Swap(h) else if s.handlers[h].Clearing? then Clear(h) else Spawn(h);
    } else if a :| a in s.seeders {
      next := match s.seeders[a]
        case Seeding => SeedSucceed(a)
        case Succeeded => SeedLockFlag(a)
        case Checking => SeedCheck(a)
        case Storing => SeedStore(a)
        case Leaving => SeedLeave(a);
    } else {
      var w :| w in s.workers;
      if s.mu.Worker? {
        assert Owns(s, s.mu.w) && Owns(s, w);
      }
      next := match s.workers[w]
        case Waiting => Attempt(w)
        case Reclearing => Reclear(w)
        case Removing => Remove(w)
        case Reseeding => Reseed(w)
        case Marking => Mark(w)
        case Ending => End(w);
    }
  }

  /** What the environment may do at any time: start a seed attempt when the work mutex is free, request
      a reset when the flag mutex is, and let work fail, after which a worker tries again or ends. */
  lemma AlwaysPossible(s: State, i: nat, h: nat, w: nat, again: bool, v: Version)
    ensures Enabled(s, SeedStart(i)) <==> s.mu == Free && i !in s.seeders
    ensures Enabled(s, Request(h)) <==> s.flag == Free && h !in s.handlers
    ensures Enabled(s, AttemptFail(w, again)) <==> w in s.workers && s.workers[w] in {Removing, Reseeding}
    ensures var t := Apply(s, AttemptFail(w, again), v);
            t.mu == Free && WorkerIs(t, w, if again then Waiting else Ending)
  {
  }

  // ---------- Undisturbed courses ----------

  ghost predicate CanTake(s: State, steps: seq<Step>, v: Version)
    decreases |steps|
  {
    steps != [] ==> Enabled(s, steps[0]) && CanTake(Apply(s, steps[0], v), steps[1..], v)
  }

  ghost function Taken(s: State, steps: seq<Step>, v: Version): State
    decreases |steps|
  {
    if steps == [] then s else Taken(Apply(s, steps[0], v), steps[1..], v)
  }

  lemma TakeFirst(s: State, first: Step, rest: seq<Step>, v: Version)
    ensures CanTake(s, [first] + rest, v) <==> Enabled(s, first) && CanTake(Apply(s, first, v), rest, v)
    ensures Taken(s, [first] + rest, v) == Taken(Apply(s, first, v), rest, v)
  {
    assert ([first] + rest)[1..] == rest;
  }

  lemma {:induction false} TakeInTwo(s: State, a: seq<Step>, b: seq<Step>, v: Version)
    ensures CanTake(s, a + b, v) <==> CanTake(s, a, v) && CanTake(Taken(s, a, v), b, v)
    ensures Taken(s, a + b, v) == Taken(Taken(s, a, v), b, v)
    decreases |a|
  {
    if a == [] {
      assert a + b == b;
    } else {
      assert (a + b)[1..] == a[1..] + b;
      TakeInTwo(Apply(s, a[0], v), a[1..], b, v);
    }
  }

  /** A seed attempt that succeeds runs to its end, releases both mutexes, and has seeded set. */
  lemma SeedCompletes(s: State, i: nat, v: Version)
    requires s.mu == Free && s.flag == Free && !s.resetting && i !in s.seeders
    ensures var steps := [SeedStart(i), SeedSucceed(i), SeedLockFlag(i), SeedCheck(i), SeedStore(i), SeedLeave(i)];
            CanTake(s, steps, v) && Taken(s, steps, v) == s.(seeded := true, dataSeeded := true)
  {
    var s1 := Apply(s, SeedStart(i), v);
    var s2 := Apply(s1, SeedSucceed(i), v);
    var s3 := Apply(s2, SeedLockFlag(i), v);
    var s4 := Apply(s3, SeedCheck(i), v);
    var s5 := Apply(s4, SeedStore(i), v);
    var s6 := Apply(s5, SeedLeave(i), v);
    assert s6.seeders == s.seeders;
    TakeThree(s, SeedStart(i), SeedSucceed(i), SeedLockFlag(i), v);
    TakeThree(s3, SeedCheck(i), SeedStore(i), SeedLeave(i), v);
    TakeInTwo(s, [SeedStart(i), SeedSucceed(i), SeedLockFlag(i)], [SeedCheck(i), SeedStore(i), SeedLeave(i)], v);
    assert [SeedStart(i), SeedSucceed(i), SeedLockFlag(i)] + [SeedCheck(i), SeedStore(i), SeedLeave(i)] ==
           [SeedStart(i), SeedSucceed(i), SeedLockFlag(i), SeedCheck(i), SeedStore(i), SeedLeave(i)];
  }

  lemma TakeThree(s: State, a: Step, b: Step, c: Step, v: Version)
    ensures var t := Apply(s, a, v);
            var u := Apply(t, b, v);
            && (CanTake(s, [a, b, c], v) <==> Enabled(s, a) && Enabled(t, b) && Enabled(u, c))
            && Taken(s, [a, b, c], v) == Apply(u, c, v)
  {
    var t := Apply(s, a, v);
    var u := Apply(t, b, v);
    assert [a, b, c] == [a] + ([b] + ([c] + []));
    TakeFirst(s, a, [b] + ([c] + []), v);
    TakeFirst(t, b, [c] + [], v);
    TakeFirst(u, c, [], v);
  }

  /** A reset request starts a worker, ... */
  lemma RequestStartsWorker(s: State, h: nat, v: Version)
    requires s.flag == Free && !s.resetting && h !in s.handlers && h !in s.workers
    ensures var steps := [Request(h), Swap(h), Clear(h)];
            && CanTake(s, steps, v) && Enabled(Taken(s, steps, v), Spawn(h))
            && Apply(Taken(s, steps, v), Spawn(h), v) == s.(seeded := false, resetting := true, workers := s.workers[h := Waiting])
  {
    TakeThree(s, Request(h), Swap(h), Clear(h), v);
    var t := Apply(Apply(Apply(s, Request(h), v), Swap(h), v), Clear(h), v);
    assert Apply(t, Spawn(h), v).handlers == s.handlers;
  }

  /** ... which by an attempt that succeeds runs to its end, with the data seeded again, ... */
  lemma WorkerCompletes(s: State, w: nat, v: Version)
    requires s.mu == Free && w in s.workers && s.workers[w] == Waiting
    ensures var steps := [Attempt(w), Reclear(w), Remove(w)] + [Reseed(w), Mark(w), End(w)];
            && CanTake(s, steps, v)
            && Taken(s, steps, v) == s.(seeded := true, dataSeeded := true, resetting := false, workers := s.workers - {w})
  {
    var t := AttemptHalf(s, w, v);
    FinishHalf(t, w, v);
    TakeInTwo(s, [Attempt(w), Reclear(w), Remove(w)], [Reseed(w), Mark(w), End(w)], v);
    assert t.workers - {w} == s.workers - {w};
  }

  lemma AttemptHalf(s: State, w: nat, v: Version) returns (t: State)
    requires s.mu == Free && w in s.workers && s.workers[w] == Waiting
    ensures CanTake(s, [Attempt(w), Reclear(w), Remove(w)], v) && Taken(s, [Attempt(w), Reclear(w), Remove(w)], v) == t
    ensures t == s.(seeded := false, dataSeeded := false, mu := Worker(w), workers := s.workers[w := Reseeding])
  {
    TakeThree(s, Attempt(w), Reclear(w), Remove(w), v);
    t := Taken(s, [Attempt(w), Reclear(w), Remove(w)], v);
    assert t.workers == s.workers[w := Reseeding];
  }

  lemma FinishHalf(t: State, w: nat, v: Version)
    requires t.mu == Worker(w) && w in t.workers && t.workers[w] == Reseeding
    ensures var steps := [Reseed(w), Mark(w), End(w)];
            && CanTake(t, steps, v)
            && Taken(t, steps, v) == t.(seeded := true, dataSeeded := true, resetting := false, mu := Free, workers := t.workers - {w})
  {
    TakeThree(t, Reseed(w), Mark(w), End(w), v);
    assert Taken(t, [Reseed(w), Mark(w), End(w)], v).workers == t.workers - {w};
  }

  /** ... and which may give up instead. */
  lemma WorkerGivesUp(s: State, w: nat, v: Version)
    requires w in s.workers && s.workers[w] == Waiting
    ensures Enabled(s, GiveUp(w)) && Enabled(Apply(s, GiveUp(w), v), End(w))
    ensures Apply(Apply(s, GiveUp(w), v), End(w), v) == s.(resetting := false, workers := s.workers - {w})
  {
    assert s.workers[w := Ending] - {w} == s.workers - {w};
  }

  // ---------- The controller object ----------

  /** One attempt of a worker, up to its outcome. */
  ghost function Attempted(s: State, w: nat, ok: bool, v: Version): State {
    var removed := Apply(Apply(Apply(s, Attempt(w), v), Reclear(w), v), Remove(w), v);
    if ok then Apply(Apply(removed, Reseed(w), v), Mark(w), v) else Apply(removed, AttemptFail(w, true), v)
  }

  /** The steps of one worker, whose attempts end with the first that succeeds. */
  ghost function Attempts(s: State, w: nat, outcomes: seq<bool>, v: Version): State
    decreases |outcomes|
  {
    if outcomes == [] then Apply(Apply(s, GiveUp(w), v), End(w), v)
    else if outcomes[0] then Apply(Attempted(s, w, true, v), End(w), v)
    else Attempts(Attempted(s, w, false, v), w, outcomes[1..], v)
  }

  lemma AttemptedFlags(s: State, w: nat, ok: bool, v: Version)
    ensures var t := Attempted(s, w, ok, v); t.seeded == ok && t.dataSeeded == ok && t.resetting == s.resetting
  {
  }

  lemma EndFlags(s: State, w: nat, v: Version)
    ensures var t := Apply(s, End(w), v); t.seeded == s.seeded && t.dataSeeded == s.dataSeeded && !t.resetting
  {
  }

  lemma {:induction false} AttemptsFlags(s: State, w: nat, outcomes: seq<bool>, v: Version)
    ensures var t := Attempts(s, w, outcomes, v);
            && !t.resetting
            && t.seeded == (if outcomes == [] then s.seeded else true in outcomes)
            && t.dataSeeded == (if outcomes == [] then s.dataSeeded else true in outcomes)
    decreases |outcomes|
  {
    if outcomes == [] {
      EndFlags(Apply(s, GiveUp(w), v), w, v);
    } else if outcomes[0] {
      AttemptedFlags(s, w, true, v);
      EndFlags(Attempted(s, w, true, v), w, v);
    } else {
      AttemptedFlags(s, w, false, v);
      AttemptsFlags(Attempted(s, w, false, v), w, outcomes[1..], v);
      assert outcomes == [false] + outcomes[1..];
    }
  }

  class Controller {
    var seeded: bool
    var resetting: bool
    var dataSeeded: bool

    ghost predicate Shows(s: State)
      reads this
    {
      seeded == s.seeded && resetting == s.resetting && dataSeeded == s.dataSeeded
    }

    constructor ()
      ensures Shows(Initial)
    {
      seeded, resetting, dataSeeded := false, false, false;
    }

    /** What a seed attempt does to the flags once its work has ended. */
    method CommitSeed(ok: bool, ghost s: State, ghost i: nat, ghost v: Version)
      requires Shows(s)
      modifies this
      ensures Shows(if !ok then Apply(s, SeedFail(i), v)
                    else if s.resetting then Apply(Apply(Apply(s, SeedSucceed(i), v), SeedLockFlag(i), v), SeedCheck(i), v)
                    else Apply(Apply(Apply(Apply(s, SeedSucceed(i), v), SeedLockFlag(i), v), SeedCheck(i), v), SeedStore(i), v))
      ensures seeded == (old(seeded) || (ok && !old(resetting)))
      ensures dataSeeded == (old(dataSeeded) || ok) && resetting == old(resetting)
    {
      if !ok {
        return;
      }
      dataSeeded := true;
      if !resetting {
        seeded := true;
      }
    }

    /** The flag section of a reset request; the caller starts a worker when it returns true. */
    method AcceptReset(ghost s: State, ghost h: nat, ghost v: Version) returns (start: bool)
      requires Shows(s)
      modifies this
      ensures start == !s.resetting
      ensures Shows(var t := Apply(Apply(s, Request(h), v), Swap(h), v); if start then Apply(t, Clear(h), v) else t)
      ensures start == !old(resetting) && resetting && seeded == (old(seeded) && !start) && dataSeeded == old(dataSeeded)
    {
      if resetting {
        return false;
      }
      resetting := true;
      seeded := false;
      start := true;
    }

    /** A worker with nothing else running: it stops at the first attempt that succeeds. */
    method ResetWithRetry(outcomes: seq<bool>, ghost s: State, ghost w: nat, ghost v: Version)
      requires Shows(s)
      modifies this
      ensures Shows(Attempts(s, w, outcomes, v)) && !resetting
      ensures seeded == (if outcomes == [] then old(seeded) else true in outcomes)
      ensures dataSeeded == (if outcomes == [] then old(dataSeeded) else true in outcomes)
    {
      AttemptsFlags(s, w, outcomes, v);
      for k := 0 to |outcomes|
        invariant true !in outcomes[..k]
        invariant seeded == (if k == 0 then s.seeded else false)
        invariant dataSeeded == (if k == 0 then s.dataSeeded else false)
      {
        assert outcomes[..k + 1] == outcomes[..k] + [outcomes[k]];
        seeded := false;
        dataSeeded := false;
        if outcomes[k] {
          dataSeeded := true;
          seeded := true;
          resetting := false;
          return;
        }
      }
      assert outcomes[..|outcomes|] == outcomes;
      resetting := false;
    }
  }
}
