/** The connection pool's open/evict/close protocol (cmd/connpool.go).

    Every call is cut into the atomic sections it runs: the sections under the pool's mutex, and
    the single writes outside it (closing a store, writing slot.store, closing slot.done).  A run
    is any interleaving of such steps by any number of openOrGet and evict calls and one Close.
    Slots and stores are numbered in order of creation, so a number stands for a reference. */
module ConnPool {
  import opened Options

  type Identity = string
  type SlotId = nat
  type StoreId = nat

  /** Where the openOrGet call that allocated a slot has got to. */
  datatype Opener =
    | Dialing        // p.open is running, outside the lock
    | FailDropped    // the open failed and the slot was dropped; done is still open
    | Dialed         // the open returned a store; the re-check has not run
    | Evicted        // the re-check failed; the store is still to be closed
    | EvictedClosed  // the store is closed; done is still open
    | Kept           // the re-check passed; slot.store is not written yet
    | Published      // slot.store is written; done is still open
    | ReturnedOk
    | ReturnedErr
  {
    predicate Returned() { ReturnedOk? || ReturnedErr? }

    /** The re-check accepted the store: somebody other than the opener has to close it. */
    predicate Accepted() { Kept? || Published? || ReturnedOk? }
  }

  datatype Slot = Slot(
    id: Identity,
    opener: Opener,
    conn: Option<StoreId>,  // what p.open returned to this slot's opener
    store: Option<StoreId>,   // the slot's store field
    failed: bool,             // the slot's err field is set
    doneCloses: nat)          // how often done has been closed

  datatype Store = Store(slot: SlotId, closes: nat)

  /** One evict call that found a slot. */
  datatype Evictor = Evictor(slot: SlotId, returned: bool)

  datatype Closer = NotCalled | Draining(left: set<SlotId>)

  datatype State = State(
    table: map<Identity, SlotId>,  // p.slots
    closed: bool,
    slots: seq<Slot>,
    stores: seq<Store>,
    evictors: seq<Evictor>,
    closer: Closer)

  /** AsWritten deletes p.slots[id] whoever owns it; CompareAndDelete deletes only one's own slot. */
  datatype Policy = AsWritten | CompareAndDelete

  datatype Step =
    | Reserve(id: Identity)
    | DropFailed(x: SlotId)
    | DialDone(x: SlotId)
    | Recheck(x: SlotId)
    | CloseOwn(x: SlotId)
    | Publish(x: SlotId)
    | SignalDone(x: SlotId)
    | EvictTake(id: Identity)
    | EvictClose(e: nat)
    | CloseTake
    | CloseOne(x: SlotId)

  const Init := State(map[], false, [], [], [], NotCalled)

  predicate InTable(s: State, x: SlotId)
    requires x < |s.slots|
  {
    s.slots[x].id in s.table && s.table[s.slots[x].id] == x
  }

  predicate Enabled(s: State, step: Step) {
    match step
    case Reserve(id) => !s.closed && id !in s.table
    case DropFailed(x) => x < |s.slots| && s.slots[x].opener.Dialing?
    case DialDone(x) => x < |s.slots| && s.slots[x].opener.Dialing?
    case Recheck(x) => x < |s.slots| && s.slots[x].opener.Dialed?
    case CloseOwn(x) =>
      x < |s.slots| && s.slots[x].opener.Evicted? && s.slots[x].conn.Some? && s.slots[x].conn.value < |s.stores|
    case Publish(x) => x < |s.slots| && s.slots[x].opener.Kept?
    case SignalDone(x) =>
      x < |s.slots| && (s.slots[x].opener.FailDropped? || s.slots[x].opener.EvictedClosed? || s.slots[x].opener.Published?)
    case EvictTake(id) => id in s.table
    case EvictClose(e) =>
      e < |s.evictors| && !s.evictors[e].returned && Signalled(s, s.evictors[e].slot)
    case CloseTake => !s.closed
    case CloseOne(x) => s.closer.Draining? && x in s.closer.left && Signalled(s, x)
  }

  /** A receive on slot x's done channel does not block, and the store it guards is a real one. */
  predicate Signalled(s: State, x: SlotId) {
    x < |s.slots| && s.slots[x].doneCloses > 0 && (s.slots[x].store.Some? ==> s.slots[x].store.value < |s.stores|)
  }

  function Without(table: map<Identity, SlotId>, id: Identity, x: SlotId, policy: Policy): map<Identity, SlotId> {
    if policy.AsWritten? || (id in table && table[id] == x) then table - {id} else table
  }

  /** The verdict of the re-check after the open. */
  predicate LostSlot(s: State, x: SlotId)
    requires x < |s.slots|
  {
    s.closed || !InTable(s, x)
  }

  function CloseStore(stores: seq<Store>, st: Option<StoreId>): seq<Store>
    requires st.Some? ==> st.value < |stores|
  {
    if st.Some? then stores[st.value := stores[st.value].(closes := stores[st.value].closes + 1)] else stores
  }

  function Apply(s: State, step: Step, policy: Policy): State
    requires Enabled(s, step)
  {
    match step
    case Reserve(id) =>
      s.(slots := s.slots + [Slot(id, Dialing, None, None, false, 0)], table := s.table[id := |s.slots|])
    case DropFailed(x) =>
      s.(table := Without(s.table, s.slots[x].id, x, policy),
         slots := s.slots[x := s.slots[x].(opener := FailDropped)])
    case DialDone(x) =>
      s.(slots := s.slots[x := s.slots[x].(opener := Dialed, conn := Some(|s.stores|))],
         stores := s.stores + [Store(x, 0)])
    case Recheck(x) =>
      if LostSlot(s, x) then
        s.(table := Without(s.table, s.slots[x].id, x, policy),
           slots := s.slots[x := s.slots[x].(opener := Evicted)])
      else
        s.(slots := s.slots[x := s.slots[x].(opener := Kept)])
    case CloseOwn(x) =>
      s.(stores := CloseStore(s.stores, s.slots[x].conn),
         slots := s.slots[x := s.slots[x].(opener := EvictedClosed)])
    case Publish(x) =>
      s.(slots := s.slots[x := s.slots[x].(opener := Published, store := s.slots[x].conn)])
    case SignalDone(x) =>
      var slot := s.slots[x];
      var ok := slot.opener.Published?;
      s.(slots := s.slots[x := slot.(opener := if ok then ReturnedOk else ReturnedErr,
                                     failed := !ok, doneCloses := slot.doneCloses + 1)])
    case EvictTake(id) =>
      s.(table := s.table - {id}, evictors := s.evictors + [Evictor(s.table[id], false)])
    case EvictClose(e) =>
      s.(stores := CloseStore(s.stores, s.slots[s.evictors[e].slot].store),
         evictors := s.evictors[e := s.evictors[e].(returned := true)])
    case CloseTake =>
      s.(closed := true, closer := Draining(s.table.Values), table := map[])
    case CloseOne(x) =>
      s.(stores := CloseStore(s.stores, s.slots[x].store), closer := Draining(s.closer.left - {x}))
  }

  // ---------- What every interleaving keeps, with either deletion policy ----------

  predicate HeldByEvictor(s: State, x: SlotId) {
    exists e :: 0 <= e < |s.evictors| && !s.evictors[e].returned && s.evictors[e].slot == x
  }

  predicate HeldByCloser(s: State, x: SlotId) {
    s.closer.Draining? && x in s.closer.left
  }

  /** Slot x is still reachable by a call that will close its store. */
  predicate Held(s: State, x: SlotId)
    requires x < |s.slots|
  {
    InTable(s, x) || HeldByEvictor(s, x) || HeldByCloser(s, x)
  }

  ghost predicate RefsOk(s: State) {
    && (forall id <- s.table :: s.table[id] < |s.slots| && s.slots[s.table[id]].id == id)
    && (forall e :: 0 <= e < |s.evictors| ==> s.evictors[e].slot < |s.slots|)
    && (s.closer.Draining? ==> forall x <- s.closer.left :: x < |s.slots|)
    && (s.closed <==> s.closer.Draining?)
    && (s.closed ==> s.table == map[])
  }

  /** A slot is held by at most one of the table, one evictor and the closer. */
  ghost predicate TakenOnce(s: State)
    requires RefsOk(s)
  {
    && (forall e :: 0 <= e < |s.evictors| && !s.evictors[e].returned ==>
          !InTable(s, s.evictors[e].slot) && !HeldByCloser(s, s.evictors[e].slot))
    && (forall e, f :: 0 <= e < f < |s.evictors| && !s.evictors[e].returned && !s.evictors[f].returned ==>
          s.evictors[e].slot != s.evictors[f].slot)
    && (s.closer.Draining? ==> forall x <- s.closer.left :: !InTable(s, x))
  }

  predicate SlotOk(s: State, x: SlotId)
    requires x < |s.slots|
  {
    var slot := s.slots[x];
    && slot.store == (if slot.opener.Published? || slot.opener.ReturnedOk? then slot.conn else None)
    && slot.doneCloses == (if slot.opener.Returned() then 1 else 0)
    && slot.failed == slot.opener.ReturnedErr?
    && (slot.opener.Dialing? || slot.opener.FailDropped? ==> slot.conn.None?)
    && (slot.opener.Dialed? || slot.opener.Evicted? || slot.opener.EvictedClosed? || slot.opener.Accepted() ==> slot.conn.Some?)
    && (slot.opener.FailDropped? || slot.opener.Evicted? || slot.opener.EvictedClosed? || slot.opener.ReturnedErr? ==> !InTable(s, x))
    && (slot.conn.Some? ==>
          && slot.conn.value < |s.stores|
          && s.stores[slot.conn.value].slot == x
          && var closes := s.stores[slot.conn.value].closes;
             && closes <= 1
             && (closes == 1 ==> slot.opener.EvictedClosed? || slot.opener.Returned())
             && (slot.opener.EvictedClosed? || slot.opener.ReturnedErr? ==> closes == 1))
  }

  /** Once a published store is closed, nobody can reach it to close it again. */
  ghost predicate ClosedUnheld(s: State) {
    forall x :: 0 <= x < |s.slots| && s.slots[x].opener.ReturnedOk? && Held(s, x) && SlotOk(s, x) ==>
      s.stores[s.slots[x].conn.value].closes == 0
  }

  ghost predicate SlotsOk(s: State) {
    && (forall x :: 0 <= x < |s.slots| ==> SlotOk(s, x))
    && (forall st :: 0 <= st < |s.stores| ==>
          s.stores[st].slot < |s.slots| && s.slots[s.stores[st].slot].conn == Some(st))
  }

  ghost predicate Inv(s: State) {
    RefsOk(s) && TakenOnce(s) && SlotsOk(s) && ClosedUnheld(s)
  }

  lemma StepKeepsBounds(s: State, step: Step, policy: Policy)
    requires RefsOk(s) && Enabled(s, step)
    ensures RefsOk(Apply(s, step, policy))
  {
  }

  /** Only taking a slot out of the table gives it a new holder, and only Reserve fills the table. */
  lemma StepKeepsHolders(s: State, step: Step, policy: Policy)
    requires RefsOk(s) && TakenOnce(s) && Enabled(s, step) && RefsOk(Apply(s, step, policy))
    requires !step.Reserve? && !step.EvictTake? && !step.CloseTake?
    ensures TakenOnce(Apply(s, step, policy))
  {
    var t := Apply(s, step, policy);
    forall x | 0 <= x < |s.slots| ensures InTable(t, x) ==> InTable(s, x) {
    }
    forall x ensures HeldByCloser(t, x) ==> HeldByCloser(s, x) {
    }
  }

  lemma TakeKeepsHolders(s: State, step: Step, policy: Policy)
    requires RefsOk(s) && TakenOnce(s) && Enabled(s, step) && RefsOk(Apply(s, step, policy))
    requires step.Reserve? || step.EvictTake? || step.CloseTake?
    ensures TakenOnce(Apply(s, step, policy))
  {
  }

  lemma StepKeepsRefs(s: State, step: Step, policy: Policy)
    requires Inv(s) && Enabled(s, step)
    ensures var t := Apply(s, step, policy); RefsOk(t) && TakenOnce(t)
  {
    StepKeepsBounds(s, step, policy);
    if step.Reserve? || step.EvictTake? || step.CloseTake? {
      TakeKeepsHolders(s, step, policy);
    } else {
      StepKeepsHolders(s, step, policy);
    }
  }

  /** The slot whose done channel or store a step is about. */
  predicate Concerns(s: State, step: Step, x: SlotId) {
    match step
    case Reserve(_) => x == |s.slots|
    case EvictTake(_) => false
    case CloseTake => false
    case EvictClose(e) => e < |s.evictors| && s.evictors[e].slot == x
    case _ => step.x == x
  }

  lemma StepKeepsOtherSlot(s: State, step: Step, policy: Policy, x: SlotId)
    requires RefsOk(s) && Enabled(s, step) && x < |s.slots| && SlotOk(s, x) && !Concerns(s, step, x)
    requires forall y :: 0 <= y < |s.slots| && Concerns(s, step, y) ==> SlotOk(s, y)
    ensures SlotOk(Apply(s, step, policy), x)
  {
    var t := Apply(s, step, policy);
    assert t.slots[x] == s.slots[x];
    assert InTable(t, x) ==> InTable(s, x);
    if s.slots[x].conn.Some? {
      if step.EvictClose? {
        assert SlotOk(s, s.evictors[step.e].slot);
      } else if step.CloseOne? || step.CloseOwn? {
        assert SlotOk(s, step.x);
      }
      assert t.stores[s.slots[x].conn.value] == s.stores[s.slots[x].conn.value];
    }
  }

  lemma StepKeepsOwnSlot(s: State, step: Step, policy: Policy, x: SlotId)
    requires RefsOk(s) && Enabled(s, step) && Concerns(s, step, x)
    requires x < |s.slots| ==> SlotOk(s, x)
    requires (step.EvictClose? || step.CloseOne?) && s.slots[x].store.Some? ==> s.stores[s.slots[x].store.value].closes == 0
    ensures SlotOk(Apply(s, step, policy), x)
  {
    var t := Apply(s, step, policy);
    if x < |s.slots| {
      assert InTable(t, x) ==> InTable(s, x);
    }
  }

  lemma StepKeepsSlot(s: State, step: Step, policy: Policy, x: SlotId)
    requires Inv(s) && Enabled(s, step) && x < |Apply(s, step, policy).slots|
    ensures SlotOk(Apply(s, step, policy), x)
  {
    if Concerns(s, step, x) {
      if step.EvictClose? || step.CloseOne? {
        assert SlotOk(s, x);
        assert Held(s, x) by {
          assert step.EvictClose? ==> HeldByEvictor(s, x);
        }
      }
      StepKeepsOwnSlot(s, step, policy, x);
    } else {
      StepKeepsOtherSlot(s, step, policy, x);
    }
  }

  /** A slot is held after a step only if it was held before, or it is the newly reserved one. */
  lemma HeldBefore(s: State, step: Step, policy: Policy, x: SlotId)
    requires Inv(s) && Enabled(s, step) && x < |s.slots|
    requires Held(Apply(s, step, policy), x)
    ensures Held(s, x)
  {
    var t := Apply(s, step, policy);
    if HeldByEvictor(t, x) {
      var e :| 0 <= e < |t.evictors| && !t.evictors[e].returned && t.evictors[e].slot == x;
      assert e < |s.evictors| ==> !s.evictors[e].returned && s.evictors[e].slot == x;
    }
  }

  /** The call that closes a published store has let go of its slot in the same step. */
  lemma CloserLetsGo(s: State, step: Step, policy: Policy)
    requires Inv(s) && Enabled(s, step) && (step.EvictClose? || step.CloseOne?)
    ensures var x := if step.EvictClose? then s.evictors[step.e].slot else step.x;
            x < |s.slots| && !Held(Apply(s, step, policy), x)
  {
  }

  lemma StepKeepsInv(s: State, step: Step, policy: Policy)
    requires Inv(s) && Enabled(s, step)
    ensures Inv(Apply(s, step, policy))
  {
    StepKeepsRefs(s, step, policy);
    var t := Apply(s, step, policy);
    forall x | 0 <= x < |t.slots| ensures SlotOk(t, x) {
      StepKeepsSlot(s, step, policy, x);
    }
    forall st | 0 <= st < |t.stores| ensures t.stores[st].slot < |t.slots| && t.slots[t.stores[st].slot].conn == Some(st) {
      assert st < |s.stores| ==> SlotOk(s, s.stores[st].slot);
    }
    forall x | 0 <= x < |t.slots| && t.slots[x].opener.ReturnedOk? && Held(t, x) && SlotOk(t, x)
      ensures t.stores[t.slots[x].conn.value].closes == 0
    {
      ClosedUnheldAfter(s, step, policy, x);
    }
  }

  lemma ClosedUnheldAfter(s: State, step: Step, policy: Policy, x: SlotId)
    requires Inv(s) && Enabled(s, step)
    requires var t := Apply(s, step, policy); x < |t.slots| && t.slots[x].opener.ReturnedOk? && Held(t, x) && SlotOk(t, x)
    ensures var t := Apply(s, step, policy); t.stores[t.slots[x].conn.value].closes == 0
  {
    HeldBefore(s, step, policy, x);
    assert SlotOk(s, x);
    if step.EvictClose? || step.CloseOne? {
      CloserLetsGo(s, step, policy);
      assert SlotOk(s, if step.EvictClose? then s.evictors[step.e].slot else step.x);
    } else if step.CloseOwn? {
      assert SlotOk(s, step.x);
    }
  }

  // ---------- Runs ----------

  /** states is the trace of steps from states[0]. */
  ghost predicate Trace(states: seq<State>, steps: seq<Step>, policy: Policy) {
    && |states| == |steps| + 1
    && forall i :: 0 <= i < |steps| ==> Enabled(states[i], steps[i]) && states[i + 1] == Apply(states[i], steps[i], policy)
  }

  ghost predicate Run(states: seq<State>, steps: seq<Step>, policy: Policy) {
    Trace(states, steps, policy) && states[0] == Init
  }

  lemma {:induction false} RunKeepsInv(states: seq<State>, steps: seq<Step>, policy: Policy, n: nat)
    requires Run(states, steps, policy) && n < |states|
    ensures Inv(states[n])
  {
    if n > 0 {
      RunKeepsInv(states, steps, policy, n - 1);
      StepKeepsInv(states[n - 1], steps[n - 1], policy);
    }
  }

  /** Over every interleaving, with the deletes as written or guarded: no store is closed twice,
      and a slot's done is closed exactly once, by the time its opener has returned. */
  lemma ClosedAtMostOnce(states: seq<State>, steps: seq<Step>, policy: Policy)
    requires Run(states, steps, policy)
    ensures forall i, st :: 0 <= i < |states| && 0 <= st < |states[i].stores| ==> states[i].stores[st].closes <= 1
    ensures forall i, x :: 0 <= i < |states| && 0 <= x < |states[i].slots| ==>
              states[i].slots[x].doneCloses == (if states[i].slots[x].opener.Returned() then 1 else 0)
  {
    forall i | 0 <= i < |states| ensures Inv(states[i]) {
      RunKeepsInv(states, steps, policy, i);
    }
    forall i, st | 0 <= i < |states| && 0 <= st < |states[i].stores| ensures states[i].stores[st].closes <= 1 {
      assert SlotOk(states[i], states[i].stores[st].slot);
    }
    forall i, x | 0 <= i < |states| && 0 <= x < |states[i].slots|
      ensures states[i].slots[x].doneCloses == (if states[i].slots[x].opener.Returned() then 1 else 0)
    {
      assert SlotOk(states[i], x);
    }
  }

  lemma StepKeepsOutcome(s: State, step: Step, policy: Policy, x: SlotId)
    requires Inv(s) && Enabled(s, step) && x < |s.slots| && s.slots[x].doneCloses > 0
    ensures var t := Apply(s, step, policy); x < |t.slots| && t.slots[x] == s.slots[x]
  {
    assert SlotOk(s, x);
  }

  /** The outcome callers waiting on a slot read is final: once done is closed the slot never changes. */
  lemma {:induction false} OutcomeIsFinal(states: seq<State>, steps: seq<Step>, policy: Policy, i: nat, j: nat, x: SlotId)
    requires Run(states, steps, policy) && i <= j < |states|
    requires x < |states[i].slots| && states[i].slots[x].doneCloses > 0
    ensures x < |states[j].slots| && states[j].slots[x] == states[i].slots[x]
  {
    if i < j {
      OutcomeIsFinal(states, steps, policy, i, j - 1, x);
      RunKeepsInv(states, steps, policy, j - 1);
      StepKeepsOutcome(states[j - 1], steps[j - 1], policy, x);
    }
  }

  /** What a waiter reads once done is closed: the store the opener got, or an error and no store. */
  lemma OutcomeIsEither(states: seq<State>, steps: seq<Step>, policy: Policy, i: nat, x: SlotId)
    requires Run(states, steps, policy) && i < |states|
    requires x < |states[i].slots| && states[i].slots[x].doneCloses > 0
    ensures var slot := states[i].slots[x];
            slot.doneCloses == 1 && if slot.failed then slot.store == None else slot.store.Some? && slot.store == slot.conn
  {
    RunKeepsInv(states, steps, policy, i);
    assert SlotOk(states[i], x);
  }

  // ---------- Single flight ----------

  /** The slot's open failed. */
  predicate Failed(slot: Slot) { slot.opener.FailDropped? || slot.opener.ReturnedErr? }

  /** Of id's slots all but the last belong to failed opens, and until Close a slot whose open has
      not failed is the one in the table. */
  ghost predicate OneLiveSlot(s: State, id: Identity) {
    && (forall x, y :: 0 <= x < y < |s.slots| && s.slots[x].id == id && s.slots[y].id == id ==> Failed(s.slots[x]))
    && (!s.closed ==> forall x :: 0 <= x < |s.slots| && s.slots[x].id == id ==> Failed(s.slots[x]) || InTable(s, x))
  }

  lemma StepKeepsFailures(s: State, step: Step, policy: Policy)
    requires Inv(s) && Enabled(s, step)
    ensures var t := Apply(s, step, policy);
            |s.slots| <= |t.slots| && forall x :: 0 <= x < |s.slots| ==> t.slots[x].id == s.slots[x].id && (Failed(s.slots[x]) ==> Failed(t.slots[x]))
  {
    var t := Apply(s, step, policy);
    forall x | 0 <= x < |s.slots| ensures Failed(s.slots[x]) ==> Failed(t.slots[x]) {
      assert SlotOk(s, x);
    }
  }

  lemma StepKeepsLiveSlot(s: State, step: Step, policy: Policy, id: Identity)
    requires Inv(s) && OneLiveSlot(s, id) && Enabled(s, step) && step != EvictTake(id)
    ensures OneLiveSlot(Apply(s, step, policy), id)
  {
    var t := Apply(s, step, policy);
    StepKeepsFailures(s, step, policy);
    if !t.closed {
      forall x | 0 <= x < |t.slots| && t.slots[x].id == id ensures Failed(t.slots[x]) || InTable(t, x) {
        assert x < |s.slots| ==> SlotOk(s, x);
      }
    }
  }

  lemma {:induction false} SingleFlightInv(states: seq<State>, steps: seq<Step>, policy: Policy, n: nat, id: Identity)
    requires Run(states, steps, policy) && n < |states|
    requires forall i :: 0 <= i < n ==> steps[i] != EvictTake(id)
    ensures OneLiveSlot(states[n], id)
  {
    if n > 0 {
      SingleFlightInv(states, steps, policy, n - 1, id);
      RunKeepsInv(states, steps, policy, n - 1);
      StepKeepsLiveSlot(states[n - 1], steps[n - 1], policy, id);
    }
  }

  /** As long as an identity itself is not evicted, whatever happens to others and with or without
      Close, it is dialed again only after its dial before has failed. */
  lemma SingleFlight(states: seq<State>, steps: seq<Step>, policy: Policy, n: nat, x: SlotId, y: SlotId)
    requires Run(states, steps, policy) && n < |states|
    requires x < y < |states[n].slots| && states[n].slots[x].id == states[n].slots[y].id
    requires forall i :: 0 <= i < n ==> steps[i] != EvictTake(states[n].slots[x].id)
    ensures Failed(states[n].slots[x])
  {
    SingleFlightInv(states, steps, policy, n, states[n].slots[x].id);
  }

  // ---------- The pool object: its critical sections, in place ----------

  datatype Lookup = Rejected | Wait(slot: SlotId) | Dial(slot: SlotId)

  /** connPool's fields, with the slots, stores and pending calls it hands out beside them. */
  class Pool {
    var table: map<Identity, SlotId>
    var closed: bool
    var slots: seq<Slot>
    var stores: seq<Store>
    var evictors: seq<Evictor>
    var closer: Closer

    ghost function Abs(): State
      reads this
    {
      State(table, closed, slots, stores, evictors, closer)
    }

    constructor ()
      ensures Abs() == Init
    {
      table, closed, slots, stores, evictors, closer := map[], false, [], [], [], NotCalled;
    }

    /** The first critical section of openOrGet: refuse, wait on another caller's slot, or reserve. */
    method Find(id: Identity) returns (r: Lookup)
      modifies this
      ensures r.Rejected? <==> old(closed)
      ensures r.Wait? <==> !old(closed) && id in old(table)
      ensures r.Wait? ==> r.slot == old(table)[id]
      ensures if r.Dial? then Abs() == Apply(old(Abs()), Reserve(id), AsWritten) && r.slot == |old(slots)| else Abs() == old(Abs())
    {
      if closed {
        return Rejected;
      }
      if id in table {
        return Wait(table[id]);
      }
      slots := slots + [Slot(id, Dialing, None, None, false, 0)];
      table := table[id := |slots| - 1];
      r := Dial(|slots| - 1);
    }

    /** The critical section after a failed open. */
    method Forget(x: SlotId)
      requires Enabled(Abs(), DropFailed(x))
      modifies this
      ensures Abs() == Apply(old(Abs()), DropFailed(x), AsWritten)
    {
      table := table - {slots[x].id};
      slots := slots[x := slots[x].(opener := FailDropped)];
    }

    /** The critical section after a successful open; the result tells the opener to close its store. */
    method StillMine(x: SlotId) returns (evicted: bool)
      requires Enabled(Abs(), Recheck(x))
      modifies this
      ensures evicted <==> old(closed) || !InTable(old(Abs()), x)
      ensures Abs() == Apply(old(Abs()), Recheck(x), AsWritten)
    {
      var id := slots[x].id;
      evicted := closed || id !in table || table[id] != x;
      if evicted {
        table := table - {id};
        slots := slots[x := slots[x].(opener := Opener.Evicted)];
      } else {
        slots := slots[x := slots[x].(opener := Kept)];
      }
    }

    /** The critical section of evict. */
    method Take(id: Identity) returns (found: bool)
      modifies this
      ensures found <==> id in old(table)
      ensures Abs() == if found then Apply(old(Abs()), EvictTake(id), AsWritten) else old(Abs())
    {
      found := id in table;
      if found {
        evictors := evictors + [Evictor(table[id], false)];
        table := table - {id};
      }
    }

    /** The critical section of Close. */
    method TakeAll() returns (first: bool)
      modifies this
      ensures first <==> !old(closed)
      ensures Abs() == if first then Apply(old(Abs()), CloseTake, AsWritten) else old(Abs())
    {
      first := !closed;
      if first {
        closed := true;
        closer := Draining(table.Values);
        table := map[];
      }
    }
  }
}
