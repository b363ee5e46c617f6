/** Who will close an opened store, over all runs of the connection pool (cmd/connpool.go). */
module PoolOwnership {
  import opened Options
  import opened ConnPool

  // ---------- Ownership of every accepted store ----------

  /** Slot x's store passed the re-check, is open, and no call is left that would close it. */
  predicate Orphan(s: State, x: SlotId) {
    && x < |s.slots|
    && s.slots[x].opener.Accepted()
    && s.slots[x].conn.Some?
    && s.slots[x].conn.value < |s.stores|
    && s.stores[s.slots[x].conn.value].closes == 0
    && !Held(s, x)
  }

  ghost predicate Accounted(s: State) {
    forall x :: 0 <= x < |s.slots| ==> !Orphan(s, x)
  }

  /** The step is a delete by slot x's opener that removes somebody else's slot whose store was
      already accepted.  It can be told from the table alone, before the step runs. */
  predicate DropsAccepted(s: State, step: Step) {
    && (step.DropFailed? || step.Recheck?)
    && step.x < |s.slots|
    && var id := s.slots[step.x].id;
       id in s.table && s.table[id] != step.x && s.table[id] < |s.slots| && s.slots[s.table[id]].opener.Accepted()
  }

  /** A held slot stays held unless the step closes its store or deletes it from the table. */
  lemma HeldAfter(s: State, step: Step, policy: Policy, x: SlotId)
    requires RefsOk(s) && Enabled(s, step) && x < |s.slots| && Held(s, x)
    requires !((step.EvictClose? || step.CloseOne?) && Concerns(s, step, x))
    requires (step.DropFailed? || step.Recheck?) && policy.AsWritten? ==> !InTable(s, x) || s.slots[x].id != s.slots[step.x].id
    requires (step.DropFailed? || step.Recheck?) && step.x == x ==> !InTable(s, x) || (step.Recheck? && !LostSlot(s, x))
    ensures Held(Apply(s, step, policy), x)
  {
    var t := Apply(s, step, policy);
    if e :| 0 <= e < |s.evictors| && !s.evictors[e].returned && s.evictors[e].slot == x {
      assert !t.evictors[e].returned && t.evictors[e].slot == x;
    } else if step.EvictTake? && InTable(s, x) && step.id == s.slots[x].id {
      assert t.evictors[|s.evictors|] == Evictor(x, false);
    }
  }

  lemma AcceptedStaysHeld(s: State, step: Step, policy: Policy, x: SlotId)
    requires Inv(s) && Enabled(s, step) && x < |s.slots| && s.slots[x].opener.Accepted() && Held(s, x)
    requires policy.CompareAndDelete? || !DropsAccepted(s, step)
    requires !((step.EvictClose? || step.CloseOne?) && Concerns(s, step, x))
    ensures Held(Apply(s, step, policy), x)
  {
    HeldAfter(s, step, policy, x);
  }

  /** One slot's share: a step that is no DropsAccepted orphans nothing. */
  lemma StepAccountsFor(s: State, step: Step, policy: Policy, x: SlotId)
    requires Inv(s) && Accounted(s) && Enabled(s, step)
    requires policy.CompareAndDelete? || !DropsAccepted(s, step)
    requires x < |Apply(s, step, policy).slots|
    ensures !Orphan(Apply(s, step, policy), x)
  {
    var t := Apply(s, step, policy);
    if x < |s.slots| && t.slots[x].opener.Accepted() {
      assert SlotOk(s, x) && !Orphan(s, x);
      if s.slots[x].opener.Dialed? {
        assert InTable(t, x);
      } else if s.stores[s.slots[x].conn.value].closes == 0 && !((step.EvictClose? || step.CloseOne?) && Concerns(s, step, x)) {
        AcceptedStaysHeld(s, step, policy, x);
      }
    }
  }

  lemma GuardedStepAccounts(s: State, step: Step)
    requires Inv(s) && Accounted(s) && Enabled(s, step)
    ensures Accounted(Apply(s, step, CompareAndDelete))
  {
    var t := Apply(s, step, CompareAndDelete);
    forall x | 0 <= x < |t.slots| ensures !Orphan(t, x) {
      StepAccountsFor(s, step, CompareAndDelete, x);
    }
  }

  lemma AcceptedDropOrphans(s: State, step: Step)
    requires Inv(s) && Enabled(s, step) && DropsAccepted(s, step)
    ensures Orphan(Apply(s, step, AsWritten), s.table[s.slots[step.x].id])
  {
    var y := s.table[s.slots[step.x].id];
    assert SlotOk(s, y) && SlotOk(s, step.x);
    assert InTable(s, y);
  }

  lemma OrphanStays(s: State, step: Step, policy: Policy, x: SlotId)
    requires Inv(s) && Enabled(s, step) && Orphan(s, x)
    ensures Orphan(Apply(s, step, policy), x)
  {
    assert SlotOk(s, x);
    var t := Apply(s, step, policy);
    forall e | 0 <= e < |t.evictors| && !t.evictors[e].returned ensures t.evictors[e].slot != x {
      assert e < |s.evictors| ==> !s.evictors[e].returned;
    }
    if step.EvictClose? {
      assert s.evictors[step.e].slot != x && SlotOk(s, s.evictors[step.e].slot);
    } else if step.CloseOne? || step.CloseOwn? {
      assert SlotOk(s, step.x);
    }
  }

  lemma {:induction false} OrphanStaysInRun(states: seq<State>, steps: seq<Step>, policy: Policy, i: nat, j: nat, x: SlotId)
    requires Run(states, steps, policy) && i <= j < |states| && Orphan(states[i], x)
    ensures Orphan(states[j], x)
  {
    if i < j {
      OrphanStaysInRun(states, steps, policy, i, j - 1, x);
      RunKeepsInv(states, steps, policy, j - 1);
      OrphanStays(states[j - 1], steps[j - 1], policy, x);
    }
  }

  lemma {:induction false} GuardedRunAccounts(states: seq<State>, steps: seq<Step>, n: nat)
    requires Run(states, steps, CompareAndDelete) && n < |states|
    ensures Inv(states[n]) && Accounted(states[n])
  {
    RunKeepsInv(states, steps, CompareAndDelete, n);
    if n > 0 {
      GuardedRunAccounts(states, steps, n - 1);
      GuardedStepAccounts(states[n - 1], steps[n - 1]);
    }
  }

  lemma {:induction false} CarefulRunAccounts(states: seq<State>, steps: seq<Step>, n: nat)
    requires Run(states, steps, AsWritten) && n < |states|
    requires forall i :: 0 <= i < n ==> !DropsAccepted(states[i], steps[i])
    ensures Accounted(states[n])
  {
    if n > 0 {
      CarefulRunAccounts(states, steps, n - 1);
      RunKeepsInv(states, steps, AsWritten, n - 1);
      forall x | 0 <= x < |states[n].slots| ensures !Orphan(states[n], x) {
        StepAccountsFor(states[n - 1], steps[n - 1], AsWritten, x);
      }
    }
  }

  /** As written, a run has lost an accepted store exactly when one of its unconditional deletes
      hit a slot that another caller had already filled. */
  lemma AccountedIff(states: seq<State>, steps: seq<Step>)
    requires Run(states, steps, AsWritten)
    ensures Accounted(states[|steps|]) <==> forall i :: 0 <= i < |steps| ==> !DropsAccepted(states[i], steps[i])
  {
    if i :| 0 <= i < |steps| && DropsAccepted(states[i], steps[i]) {
      RunKeepsInv(states, steps, AsWritten, i);
      AcceptedDropOrphans(states[i], steps[i]);
      OrphanStaysInRun(states, steps, AsWritten, i + 1, |steps|, states[i].table[states[i].slots[steps[i].x].id]);
    } else {
      CarefulRunAccounts(states, steps, |steps|);
    }
  }

  // ---------- After Close ----------

  /** The Close call that set the closed flag has returned. */
  predicate CloseReturned(s: State) { s.closer == Draining({}) }

  /** No openOrGet or evict call is running. */
  ghost predicate Quiet(s: State) {
    && (forall x :: 0 <= x < |s.slots| ==> s.slots[x].opener.Returned())
    && (forall e :: 0 <= e < |s.evictors| ==> s.evictors[e].returned)
  }

  ghost predicate AllClosedOnce(s: State) {
    forall st :: 0 <= st < |s.stores| ==> s.stores[st].closes == 1
  }

  /** With compare-and-delete, a store still open after Close returned is in the hands of its own
      opener or of an evict call, whose next steps close it. */
  lemma OpenStoreHasOwner(states: seq<State>, steps: seq<Step>, n: nat, st: StoreId)
    requires Run(states, steps, CompareAndDelete) && n < |states|
    requires CloseReturned(states[n]) && st < |states[n].stores| && states[n].stores[st].closes == 0
    ensures var x := states[n].stores[st].slot;
            && x < |states[n].slots|
            && (states[n].slots[x].opener.Dialed? || states[n].slots[x].opener.Evicted? || HeldByEvictor(states[n], x))
  {
    GuardedRunAccounts(states, steps, n);
    var x := states[n].stores[st].slot;
    assert SlotOk(states[n], x) && !Orphan(states[n], x);
  }

  lemma QuietAccounting(s: State)
    requires Inv(s) && CloseReturned(s) && Quiet(s)
    ensures AllClosedOnce(s) <==> Accounted(s)
  {
    if Accounted(s) {
      forall st | 0 <= st < |s.stores| ensures s.stores[st].closes == 1 {
        assert SlotOk(s, s.stores[st].slot) && !Orphan(s, s.stores[st].slot);
      }
    } else {
      var x :| 0 <= x < |s.slots| && Orphan(s, x);
      assert s.stores[s.slots[x].conn.value].closes == 0;
    }
  }

  /** With compare-and-delete: once Close and every other call returned, every store ever opened
      has been closed exactly once. */
  lemma NothingLeaks(states: seq<State>, steps: seq<Step>)
    requires Run(states, steps, CompareAndDelete)
    requires CloseReturned(states[|steps|]) && Quiet(states[|steps|])
    ensures AllClosedOnce(states[|steps|])
  {
    GuardedRunAccounts(states, steps, |steps|);
    QuietAccounting(states[|steps|]);
  }

  /** As written: the same holds exactly for the runs without a DropsAccepted step. */
  lemma LeaksIff(states: seq<State>, steps: seq<Step>)
    requires Run(states, steps, AsWritten)
    requires CloseReturned(states[|steps|]) && Quiet(states[|steps|])
    ensures AllClosedOnce(states[|steps|]) <==> forall i :: 0 <= i < |steps| ==> !DropsAccepted(states[i], steps[i])
  {
    AccountedIff(states, steps);
    RunKeepsInv(states, steps, AsWritten, |steps|);
    QuietAccounting(states[|steps|]);
  }

  // ---------- Every call returns ----------

  function Rank(o: Opener): nat {
    match o
    case Dialing => 4
    case Dialed => 3
    case Evicted | Kept => 2
    case EvictedClosed | Published | FailDropped => 1
    case ReturnedOk | ReturnedErr => 0
  }

  function OpenerWork(slots: seq<Slot>): nat {
    if slots == [] then 0 else Rank(slots[0].opener) + OpenerWork(slots[1..])
  }

  function EvictorWork(evictors: seq<Evictor>): nat {
    if evictors == [] then 0 else (if evictors[0].returned then 0 else 1) + EvictorWork(evictors[1..])
  }

  /** How many steps the calls now running still have to take, at most. */
  function Work(s: State): nat {
    OpenerWork(s.slots) + EvictorWork(s.evictors) + (if s.closer.Draining? then |s.closer.left| else 0)
  }

  lemma {:induction false} OpenerWorkUpdate(slots: seq<Slot>, x: nat, slot: Slot)
    requires x < |slots|
    ensures OpenerWork(slots[x := slot]) == OpenerWork(slots) - Rank(slots[x].opener) + Rank(slot.opener)
  {
    if x > 0 {
      OpenerWorkUpdate(slots[1..], x - 1, slot);
      assert slots[x := slot][1..] == slots[1..][x - 1 := slot];
    } else {
      assert slots[0 := slot][1..] == slots[1..];
    }
  }

  lemma {:induction false} EvictorWorkUpdate(evictors: seq<Evictor>, e: nat)
    requires e < |evictors| && !evictors[e].returned
    ensures EvictorWork(evictors[e := evictors[e].(returned := true)]) == EvictorWork(evictors) - 1
  {
    var done := evictors[e].(returned := true);
    if e > 0 {
      EvictorWorkUpdate(evictors[1..], e - 1);
      assert evictors[e := done][1..] == evictors[1..][e - 1 := done];
    } else {
      assert evictors[0 := done][1..] == evictors[1..];
    }
  }

  /** A step of a call already running, as opposed to the start of a new one. */
  predicate Continues(step: Step) { !step.Reserve? && !step.EvictTake? && !step.CloseTake? }

  lemma ContinuingWorks(s: State, step: Step, policy: Policy)
    requires Inv(s) && Enabled(s, step) && Continues(step)
    ensures Work(Apply(s, step, policy)) < Work(s)
  {
    if step.EvictClose? {
      EvictorWorkUpdate(s.evictors, step.e);
    } else if !step.CloseOne? {
      OpenerWorkUpdate(s.slots, step.x, Apply(s, step, policy).slots[step.x]);
    }
  }

  /** No deadlock: while a call is running, one of the running calls can take a step. */
  lemma SomeoneCanStep(s: State) returns (step: Step)
    requires Inv(s)
    requires !Quiet(s) || (s.closer.Draining? && s.closer.left != {})
    ensures Continues(step) && Enabled(s, step)
  {
    if x :| 0 <= x < |s.slots| && !s.slots[x].opener.Returned() {
      assert SlotOk(s, x);
      var o := s.slots[x].opener;
      step := if o.Dialing? then DialDone(x) else if o.Dialed? then Recheck(x) else if o.Evicted? then CloseOwn(x)
              else if o.Kept? then Publish(x) else SignalDone(x);
    } else if e :| 0 <= e < |s.evictors| && !s.evictors[e].returned {
      assert SlotOk(s, s.evictors[e].slot);
      step := EvictClose(e);
    } else {
      var x :| x in s.closer.left;
      assert SlotOk(s, x);
      step := CloseOne(x);
    }
  }

  lemma {:induction false} Drain(s: State, policy: Policy) returns (states: seq<State>, steps: seq<Step>)
    requires Inv(s)
    ensures Trace(states, steps, policy) && states[0] == s
    ensures forall i :: 0 <= i < |steps| ==> Continues(steps[i])
    ensures Quiet(states[|steps|]) && (s.closed ==> CloseReturned(states[|steps|]))
    decreases Work(s)
  {
    if Quiet(s) && (s.closer.Draining? ==> s.closer.left == {}) {
      states, steps := [s], [];
    } else {
      var step := SomeoneCanStep(s);
      StepKeepsInv(s, step, policy);
      ContinuingWorks(s, step, policy);
      var rest, more := Drain(Apply(s, step, policy), policy);
      states, steps := [s] + rest, [step] + more;
      assert steps[|more|] == if more == [] then step else more[|more| - 1];
    }
  }

  /** With compare-and-delete, from any state reached after Close began, the calls still running
      can all finish, and when they have, every store has been closed exactly once. */
  lemma CloseCompletes(states: seq<State>, steps: seq<Step>) returns (rest: seq<State>, more: seq<Step>)
    requires Run(states, steps, CompareAndDelete) && states[|steps|].closed
    ensures Trace(rest, more, CompareAndDelete) && rest[0] == states[|steps|]
    ensures forall i :: 0 <= i < |more| ==> Continues(more[i])
    ensures CloseReturned(rest[|more|]) && Quiet(rest[|more|]) && AllClosedOnce(rest[|more|])
  {
    RunKeepsInv(states, steps, CompareAndDelete, |steps|);
    rest, more := Drain(states[|steps|], CompareAndDelete);
    var whole, all := states + rest[1..], steps + more;
    forall i | 0 <= i < |all|
      ensures Enabled(whole[i], all[i]) && whole[i + 1] == Apply(whole[i], all[i], CompareAndDelete)
    {
      if i >= |steps| {
        assert whole[i] == rest[i - |steps|] && whole[i + 1] == rest[i + 1 - |steps|];
      }
    }
    assert whole[|all|] == rest[|more|];
    NothingLeaks(whole, all);
  }

  // ---------- The losing run ----------

  ghost predicate Reachable(s: State, policy: Policy) {
    exists states, steps :: Run(states, steps, policy) && states[|steps|] == s
  }

  lemma Next(s: State, policy: Policy, step: Step) returns (t: State)
    requires Reachable(s, policy) && Enabled(s, step)
    ensures t == Apply(s, step, policy) && Reachable(t, policy)
  {
    t := Apply(s, step, policy);
    var states, steps :| Run(states, steps, policy) && states[|steps|] == s;
    var longer, more := states + [t], steps + [step];
    assert Run(longer, more, policy) && longer[|more|] == t;
  }

  const SlowDial := Slot("db", Dialing, None, None, false, 0)
  const PublishedSlot := Slot("db", ReturnedOk, Some(0), Some(0), false, 1)

  lemma EvictedWhileDialing() returns (s: State)
    ensures Reachable(s, AsWritten)
    ensures s == State(map["db" := 1], false, [SlowDial, SlowDial], [], [Evictor(0, false)], NotCalled)
  {
    var none: seq<Step> := [];
    assert Run([Init], none, AsWritten) && [Init][|none|] == Init;
    s := Next(Init, AsWritten, Reserve("db"));
    s := Next(s, AsWritten, EvictTake("db"));
    s := Next(s, AsWritten, Reserve("db"));
  }

  lemma SecondDialPublished() returns (s: State)
    ensures Reachable(s, AsWritten)
    ensures s == State(map["db" := 1], false, [SlowDial, PublishedSlot], [Store(1, 0)], [Evictor(0, false)], NotCalled)
  {
    s := EvictedWhileDialing();
    s := Next(s, AsWritten, DialDone(1));
    s := Next(s, AsWritten, Recheck(1));
    s := Next(s, AsWritten, Publish(1));
    s := Next(s, AsWritten, SignalDone(1));
  }

  lemma SlowDialDropsIt() returns (s: State)
    ensures Reachable(s, AsWritten)
    ensures s == State(map[], false, [Slot("db", Opener.Evicted, Some(1), None, false, 0), PublishedSlot],
                       [Store(1, 0), Store(0, 0)], [Evictor(0, false)], NotCalled)
  {
    s := SecondDialPublished();
    s := Next(s, AsWritten, DialDone(0));
    s := Next(s, AsWritten, Recheck(0));
    assert s.table == map[];
  }

  lemma SlowDialReturns() returns (s: State)
    ensures Reachable(s, AsWritten)
    ensures s == State(map[], false, [Slot("db", ReturnedErr, Some(1), None, true, 1), PublishedSlot],
                       [Store(1, 0), Store(0, 1)], [Evictor(0, false)], NotCalled)
  {
    s := SlowDialDropsIt();
    s := Next(s, AsWritten, CloseOwn(0));
    assert s.stores == [Store(1, 0), Store(0, 1)];
    s := Next(s, AsWritten, SignalDone(0));
  }

  /** A slow open (slot 0) is evicted while it dials; a second caller opens the same identity and
      publishes slot 1; the slow open's re-check then deletes slot 1 from the table.  Close finds
      nothing, every call returns, and store 0, the published one, stays open. */
  lemma AsWrittenLosesAStore() returns (s: State)
    ensures Reachable(s, AsWritten) && CloseReturned(s) && Quiet(s)
    ensures s.slots == [Slot("db", ReturnedErr, Some(1), None, true, 1), PublishedSlot]
    ensures s.stores == [Store(1, 0), Store(0, 1)]
  {
    s := SlowDialReturns();
    s := Next(s, AsWritten, EvictClose(0));
    s := Next(s, AsWritten, CloseTake);
  }
}
