/** Pairing history starts with their completions (web/src/lib/pairing.ts). */
module Pairing {
  import opened Options

  datatype Kind =
    | TaskScheduled | TimerCreated | SubOrchestrationCreated
    | TaskCompleted | TaskFailed | TimerFired | SubOrchestrationCompleted | SubOrchestrationFailed
    | Other

  /** time is None when the timestamp does not parse. */
  datatype Event = Event(kind: Kind, sequenceId: int, scheduledId: Option<int>, time: Option<int>)

  datatype Role = Start | End

  datatype PairInfo = PairInfo(pairId: int, role: Role, partner: Option<nat>, duration: Option<int>)

  predicate IsStart(e: Event) {
    (e.kind.TaskScheduled? || e.kind.TimerCreated? || e.kind.SubOrchestrationCreated?) && e.sequenceId >= 0
  }

  predicate IsEnd(e: Event) {
    && (e.kind.TaskCompleted? || e.kind.TaskFailed? || e.kind.TimerFired?
        || e.kind.SubOrchestrationCompleted? || e.kind.SubOrchestrationFailed?)
    && e.scheduledId.Some?
  }

  type Pairs = map<nat, PairInfo>

  /** j is the completion paired with the start i. */
  predicate Paired(r: Pairs, i: nat, j: nat) {
    i in r && r[i].role == Start && r[i].partner == Some(j)
  }

  predicate Alone(r: Pairs, i: nat, role: Role) {
    i in r && r[i].role == role && r[i].partner == None
  }

  // ---------- What a pairing must be ----------

  /** Exactly the valid start and end rows are described. */
  ghost predicate Covers(ev: seq<Event>, r: Pairs) {
    && (forall i: nat :: i in r <==> i < |ev| && (IsStart(ev[i]) || IsEnd(ev[i])))
    && (forall i: nat :: i in r ==> Describes(ev, r, i))
  }

  predicate Describes(ev: seq<Event>, r: Pairs, i: nat)
    requires i in r
  {
    i < |ev| && if r[i].role == Start then IsStart(ev[i]) && r[i].pairId == ev[i].sequenceId
                else IsEnd(ev[i]) && ev[i].scheduledId == Some(r[i].pairId)
  }

  /** Partnership is symmetric, joins a start to a later end, and keeps the id. */
  ghost predicate Symmetric(r: Pairs) {
    forall i: nat :: i in r && r[i].partner.Some? ==>
      var j := r[i].partner.value;
      j in r && r[j].partner == Some(i) && r[j].role != r[i].role && r[j].pairId == r[i].pairId
      && (if r[i].role == Start then i < j else j < i)
  }

  /** Pairs of one id nest or follow each other. */
  ghost predicate NonCrossing(r: Pairs) {
    forall i: nat, j: nat, i': nat, j': nat :: Paired(r, i, j) && Paired(r, i', j') && r[i].pairId == r[i'].pairId ==>
      !(i < i' < j < j')
  }

  /** No unmatched row lies inside a pair of its id. */
  ghost predicate NothingInside(r: Pairs) {
    forall i: nat, j: nat, k: nat :: Paired(r, i, j) && k in r && r[k].partner == None && r[k].pairId == r[i].pairId ==>
      !(i < k < j)
  }

  /** An end is left over only when every earlier start of its id is taken. */
  ghost predicate NoMissedStart(r: Pairs) {
    forall i: nat, j: nat :: Alone(r, i, Start) && Alone(r, j, End) && r[i].pairId == r[j].pairId ==> j < i
  }

  function Elapsed(a: Event, b: Event): Option<int> {
    if a.time.None? || b.time.None? || b.time.value < a.time.value then None else Some(b.time.value - a.time.value)
  }

  ghost predicate Timed(ev: seq<Event>, r: Pairs) {
    forall j: nat :: j in r ==>
      r[j].duration ==
        if r[j].role == End && r[j].partner.Some? && r[j].partner.value < |ev| && j < |ev| then Elapsed(ev[r[j].partner.value], ev[j])
        else None
  }

  ghost predicate IsPairing(ev: seq<Event>, r: Pairs) {
    Covers(ev, r) && Symmetric(r) && NonCrossing(r) && NothingInside(r) && NoMissedStart(r) && Timed(ev, r)
  }

  // ---------- buildPairIndex ----------

  /** A stack: in increasing order, starts of its id that result does not hold yet. */
  ghost predicate StackOk(ev: seq<Event>, n: nat, r: Pairs, p: int, stack: seq<nat>)
    requires n <= |ev|
  {
    && (forall k :: 0 <= k < |stack| ==> stack[k] < n && IsStart(ev[stack[k]]) && ev[stack[k]].sequenceId == p && stack[k] !in r)
    && (forall k, l :: 0 <= k < l < |stack| ==> stack[k] < stack[l])
  }

  /** Every start that result does not hold is on the stack of its id. */
  ghost predicate Stacks(ev: seq<Event>, n: nat, r: Pairs, open: map<int, seq<nat>>)
    requires n <= |ev|
  {
    && (forall p: int :: p in open ==> StackOk(ev, n, r, p, open[p]))
    && (forall i: nat :: i < n && IsStart(ev[i]) && i !in r ==> ev[i].sequenceId in open && i in open[ev[i].sequenceId])
  }

  /** What holds of the rows settled so far. */
  ghost predicate Settled(ev: seq<Event>, n: nat, r: Pairs)
    requires n <= |ev|
  {
    && (forall i: nat :: i in r ==> i < n && Describes(ev, r, i))
    && (forall i: nat :: i < n && IsEnd(ev[i]) ==> i in r)
    && (forall i: nat :: i in r && r[i].role == Start ==> r[i].partner.Some?)
    && Symmetric(r) && NonCrossing(r) && NothingInside(r) && Timed(ev, r)
  }

  predicate OpenStart(ev: seq<Event>, n: nat, r: Pairs, i: nat) { i < n <= |ev| && IsStart(ev[i]) && i !in r }

  /** No open start lies inside a settled pair of its id, or before a left-over end of it. */
  ghost predicate OpenOutside(ev: seq<Event>, n: nat, r: Pairs)
    requires n <= |ev|
  {
    && (forall i: nat, j: nat, k: nat :: OpenStart(ev, n, r, k) && Paired(r, i, j) && r[i].pairId == ev[k].sequenceId ==> !(i < k < j))
    && (forall j: nat, k: nat :: OpenStart(ev, n, r, k) && Alone(r, j, End) && r[j].pairId == ev[k].sequenceId ==> j < k)
  }

  /** The end at n takes s, the last open start of its id. */
  ghost predicate TakesLast(ev: seq<Event>, n: nat, r: Pairs, s: nat, r': Pairs) {
    && n < |ev| && Settled(ev, n, r) && OpenOutside(ev, n, r)
    && IsEnd(ev[n]) && OpenStart(ev, n, r, s) && ev[n].scheduledId == Some(ev[s].sequenceId)
    && (forall k: nat :: OpenStart(ev, n, r, k) && ev[k].sequenceId == ev[s].sequenceId ==> k <= s)
    && r' == r[s := PairInfo(ev[s].sequenceId, Start, Some(n), None)]
              [n := PairInfo(ev[s].sequenceId, End, Some(s), Elapsed(ev[s], ev[n]))]
  }

  lemma TakesLastRows(ev: seq<Event>, n: nat, r: Pairs, s: nat, r': Pairs)
    requires TakesLast(ev, n, r, s, r')
    ensures forall i: nat :: i in r' <==> i in r || i == s || i == n
    ensures forall i: nat :: i in r ==> r'[i] == r[i] && i != s && i < n
    ensures forall i: nat, j: nat :: Paired(r', i, j) <==> Paired(r, i, j) || (i == s && j == n)
    ensures forall k: nat :: OpenStart(ev, n + 1, r', k) <==> OpenStart(ev, n, r, k) && k != s
  {
  }

  lemma TakesLastSymmetric(ev: seq<Event>, n: nat, r: Pairs, s: nat, r': Pairs)
    requires TakesLast(ev, n, r, s, r')
    ensures Symmetric(r')
  {
    TakesLastRows(ev, n, r, s, r');
    forall i: nat | i in r && r[i].partner.Some? ensures r[i].partner.value in r {
    }
  }

  lemma TakesLastNests(ev: seq<Event>, n: nat, r: Pairs, s: nat, r': Pairs)
    requires TakesLast(ev, n, r, s, r')
    ensures NonCrossing(r') && NothingInside(r')
  {
    TakesLastRows(ev, n, r, s, r');
    forall i: nat, j: nat | Paired(r, i, j) ensures j in r && j < n && i in r {
      assert r[i].partner.Some?;
    }
    forall i: nat, j: nat, i': nat, j': nat | Paired(r', i, j) && Paired(r', i', j') && r'[i].pairId == r'[i'].pairId
      ensures !(i < i' < j < j')
    {
      if Paired(r, i, j) && i' == s {
        assert OpenStart(ev, n, r, s);
      }
    }
    forall i: nat, j: nat, k: nat | Paired(r', i, j) && k in r' && r'[k].partner == None && r'[k].pairId == r'[i].pairId
      ensures !(i < k < j)
    {
      if i == s {
        assert Alone(r, k, End);
      }
    }
  }

  lemma SettlePair(ev: seq<Event>, n: nat, r: Pairs, s: nat, r': Pairs)
    requires TakesLast(ev, n, r, s, r')
    ensures Settled(ev, n + 1, r') && OpenOutside(ev, n + 1, r')
  {
    TakesLastRows(ev, n, r, s, r');
    TakesLastSymmetric(ev, n, r, s, r');
    TakesLastNests(ev, n, r, s, r');
    TakesLastTimed(ev, n, r, s, r');
    TakesLastOutside(ev, n, r, s, r');
  }

  lemma TakesLastTimed(ev: seq<Event>, n: nat, r: Pairs, s: nat, r': Pairs)
    requires TakesLast(ev, n, r, s, r')
    ensures Timed(ev, r')
  {
  }

  lemma TakesLastOutside(ev: seq<Event>, n: nat, r: Pairs, s: nat, r': Pairs)
    requires TakesLast(ev, n, r, s, r')
    ensures OpenOutside(ev, n + 1, r')
  {
    TakesLastRows(ev, n, r, s, r');
    forall k: nat, j: nat | OpenStart(ev, n + 1, r', k) && Alone(r', j, End) && r'[j].pairId == ev[k].sequenceId ensures j < k {
      assert Alone(r, j, End);
    }
  }

  ghost predicate LeavesOver(ev: seq<Event>, n: nat, r: Pairs, p: int, r': Pairs) {
    && n < |ev| && Settled(ev, n, r) && OpenOutside(ev, n, r)
    && IsEnd(ev[n]) && ev[n].scheduledId == Some(p)
    && (forall k: nat :: OpenStart(ev, n, r, k) ==> ev[k].sequenceId != p)
    && r' == r[n := PairInfo(p, End, None, None)]
  }

  lemma LeavesOverRows(ev: seq<Event>, n: nat, r: Pairs, p: int, r': Pairs)
    requires LeavesOver(ev, n, r, p, r')
    ensures forall i: nat :: i in r' <==> i in r || i == n
    ensures forall i: nat :: i in r ==> r'[i] == r[i] && i < n
    ensures forall i: nat, j: nat :: Paired(r', i, j) <==> Paired(r, i, j)
    ensures forall k: nat :: OpenStart(ev, n + 1, r', k) <==> OpenStart(ev, n, r, k)
    ensures forall i: nat, j: nat :: Paired(r, i, j) ==> j < n
  {
    forall i: nat, j: nat | Paired(r, i, j) ensures j < n {
      assert r[i].partner.Some?;
      assert j in r;
    }
  }

  lemma LeavesOverNests(ev: seq<Event>, n: nat, r: Pairs, p: int, r': Pairs)
    requires LeavesOver(ev, n, r, p, r')
    ensures Symmetric(r') && NonCrossing(r') && NothingInside(r')
  {
    LeavesOverRows(ev, n, r, p, r');
  }

  lemma SettleOrphan(ev: seq<Event>, n: nat, r: Pairs, p: int, r': Pairs)
    requires LeavesOver(ev, n, r, p, r')
    ensures Settled(ev, n + 1, r') && OpenOutside(ev, n + 1, r')
  {
    LeavesOverRows(ev, n, r, p, r');
    LeavesOverNests(ev, n, r, p, r');
    forall k: nat, j: nat | OpenStart(ev, n + 1, r', k) && Alone(r', j, End) && r'[j].pairId == ev[k].sequenceId ensures j < k {
      assert Alone(r, j, End);
    }
  }

  lemma SettleOther(ev: seq<Event>, n: nat, r: Pairs)
    requires n < |ev| && Settled(ev, n, r) && OpenOutside(ev, n, r) && !IsEnd(ev[n])
    ensures Settled(ev, n + 1, r) && OpenOutside(ev, n + 1, r)
  {
    forall k: nat | OpenStart(ev, n + 1, r, k) ensures OpenStart(ev, n, r, k) || k == n {
    }
  }

  lemma StackPush(ev: seq<Event>, n: nat, r: Pairs, p: int, stack: seq<nat>)
    requires n < |ev| && StackOk(ev, n, r, p, stack) && IsStart(ev[n]) && ev[n].sequenceId == p && n !in r
    ensures StackOk(ev, n + 1, r, p, stack + [n])
  {
  }

  lemma StackStays(ev: seq<Event>, n: nat, r: Pairs, p: int, stack: seq<nat>)
    requires n < |ev| && StackOk(ev, n, r, p, stack)
    ensures StackOk(ev, n + 1, r, p, stack)
  {
  }

  lemma PushKeepsStacks(ev: seq<Event>, n: nat, r: Pairs, open: map<int, seq<nat>>, stack: seq<nat>)
    requires n < |ev| && Settled(ev, n, r) && Stacks(ev, n, r, open) && IsStart(ev[n])
    requires stack == if ev[n].sequenceId in open then open[ev[n].sequenceId] else []
    ensures Stacks(ev, n + 1, r, open[ev[n].sequenceId := stack + [n]])
  {
    var p := ev[n].sequenceId;
    var open' := open[p := stack + [n]];
    StackPush(ev, n, r, p, stack);
    forall q: int | q in open' ensures StackOk(ev, n + 1, r, q, open'[q]) {
      if q != p {
        StackStays(ev, n, r, q, open[q]);
      }
    }
    forall i: nat | i < n + 1 && IsStart(ev[i]) && i !in r ensures ev[i].sequenceId in open' && i in open'[ev[i].sequenceId] {
      if i == n {
        assert (stack + [n])[|stack|] == n;
      } else if ev[i].sequenceId == p {
        assert i in stack;
      }
    }
  }

  /** The top of a stack is the last open start of its id. */
  lemma TopIsLast(ev: seq<Event>, n: nat, r: Pairs, open: map<int, seq<nat>>, p: int, s: nat)
    requires n <= |ev| && Stacks(ev, n, r, open) && p in open && open[p] != [] && s == open[p][|open[p]| - 1]
    ensures OpenStart(ev, n, r, s) && ev[s].sequenceId == p
    ensures forall k: nat :: OpenStart(ev, n, r, k) && ev[k].sequenceId == p ==> k <= s
  {
    assert StackOk(ev, n, r, p, open[p]);
    forall k: nat | OpenStart(ev, n, r, k) && ev[k].sequenceId == p ensures k <= s {
      var l :| 0 <= l < |open[p]| && open[p][l] == k;
    }
  }

  lemma PopKeepsStacks(ev: seq<Event>, n: nat, r: Pairs, open: map<int, seq<nat>>, p: int, s: nat, r': Pairs)
    requires n < |ev| && Settled(ev, n, r) && Stacks(ev, n, r, open) && p in open && open[p] != [] && s == open[p][|open[p]| - 1]
    requires !IsStart(ev[n]) && r'.Keys == r.Keys + {s, n}
    ensures Stacks(ev, n + 1, r', open[p := open[p][..|open[p]| - 1]])
  {
    var stack := open[p];
    var top := |stack| - 1;
    var open' := open[p := stack[..top]];
    assert StackOk(ev, n, r, p, stack) && stack == stack[..top] + [s];
    forall q: int | q in open' ensures StackOk(ev, n + 1, r', q, open'[q]) {
      assert StackOk(ev, n, r, q, open[q]);
    }
    forall i: nat | i < n + 1 && IsStart(ev[i]) && i !in r' ensures ev[i].sequenceId in open' && i in open'[ev[i].sequenceId] {
      assert i in open[ev[i].sequenceId];
      if ev[i].sequenceId == p {
        assert i in stack[..top];
      }
    }
  }

  lemma SkipKeepsStacks(ev: seq<Event>, n: nat, r: Pairs, open: map<int, seq<nat>>, r': Pairs)
    requires n < |ev| && Stacks(ev, n, r, open) && !IsStart(ev[n])
    requires r.Keys <= r'.Keys <= r.Keys + {n}
    ensures Stacks(ev, n + 1, r', open)
  {
    forall q: int | q in open ensures StackOk(ev, n + 1, r', q, open[q]) {
      assert StackOk(ev, n, r, q, open[q]);
    }
  }

  /** The loop over the rows; order lists the ids with a stack as they were first pushed. */
  method PairRows(ev: seq<Event>) returns (r: Pairs, open: map<int, seq<nat>>, order: seq<int>)
    ensures Settled(ev, |ev|, r) && OpenOutside(ev, |ev|, r) && Stacks(ev, |ev|, r, open)
    ensures Lists(order, open)
  {
    r, open, order := map[], map[], [];
    for n := 0 to |ev|
      invariant Lists(order, open)
      invariant Settled(ev, n, r) && OpenOutside(ev, n, r)
      invariant Stacks(ev, n, r, open)
    {
      if IsStart(ev[n]) {
        open, order := PushStart(ev, n, r, open, order);
      } else if IsEnd(ev[n]) {
        r, open := CloseOne(ev, n, r, open);
      } else {
        SettleOther(ev, n, r);
        SkipKeepsStacks(ev, n, r, open, r);
      }
    }
  }

  /** The ids with a stack are exactly those listed. */
  ghost predicate Lists(order: seq<int>, open: map<int, seq<nat>>) {
    (forall l :: 0 <= l < |order| ==> order[l] in open) && forall p: int :: p in open ==> p in order
  }

  method PushStart(ev: seq<Event>, n: nat, ghost r: Pairs, open: map<int, seq<nat>>, order: seq<int>)
      returns (open': map<int, seq<nat>>, order': seq<int>)
    requires n < |ev| && IsStart(ev[n]) && Settled(ev, n, r) && OpenOutside(ev, n, r) && Stacks(ev, n, r, open) && Lists(order, open)
    ensures Settled(ev, n + 1, r) && OpenOutside(ev, n + 1, r) && Stacks(ev, n + 1, r, open') && Lists(order', open')
  {
    var p := ev[n].sequenceId;
    var stack := if p in open then open[p] else [];
    SettleOther(ev, n, r);
    PushKeepsStacks(ev, n, r, open, stack);
    order' := if p in open then order else order + [p];
    open' := open[p := stack + [n]];
  }

  /** One completion: it pops its stack, or is left over when the stack is missing or empty. */
  method CloseOne(ev: seq<Event>, n: nat, r: Pairs, open: map<int, seq<nat>>) returns (r': Pairs, open': map<int, seq<nat>>)
    requires n < |ev| && IsEnd(ev[n]) && Settled(ev, n, r) && OpenOutside(ev, n, r) && Stacks(ev, n, r, open)
    ensures Settled(ev, n + 1, r') && OpenOutside(ev, n + 1, r') && Stacks(ev, n + 1, r', open') && open'.Keys == open.Keys
  {
    var p := ev[n].scheduledId.value;
    if p !in open || open[p] == [] {
      r', open' := r[n := PairInfo(p, End, None, None)], open;
      SettleOrphan(ev, n, r, p, r');
      SkipKeepsStacks(ev, n, r, open, r');
    } else {
      var top := |open[p]| - 1;
      var s := open[p][top];
      TopIsLast(ev, n, r, open, p, s);
      open' := open[p := open[p][..top]];
      r' := r[s := PairInfo(p, Start, Some(n), None)][n := PairInfo(p, End, Some(s), Elapsed(ev[s], ev[n]))];
      SettlePair(ev, n, r, s, r');
      PopKeepsStacks(ev, n, r, open, p, s, r');
    }
  }

  method BuildPairIndex(ev: seq<Event>) returns (r: Pairs)
    ensures IsPairing(ev, r)
    ensures forall i: nat :: i in r <==>
              i < |ev| && var e := ev[i];
              || (e.kind in {TaskScheduled, TimerCreated, SubOrchestrationCreated} && e.sequenceId >= 0)
              || (e.kind in {TaskCompleted, TaskFailed, TimerFired, SubOrchestrationCompleted, SubOrchestrationFailed} && e.scheduledId.Some?)
    ensures forall i: nat :: i in r ==>
              i < |ev| && var e := ev[i];
              if e.kind in {TaskScheduled, TimerCreated, SubOrchestrationCreated} then r[i].role == Start && r[i].pairId == e.sequenceId
              else r[i].role == End && e.scheduledId == Some(r[i].pairId)
    ensures forall i: nat, j: nat :: Paired(r, i, j) ==>
              && i < j < |ev| && j in r && r[i].duration == None
              && r[j].duration == if ev[i].time.Some? && ev[j].time.Some? && ev[i].time.value <= ev[j].time.value
                                  then Some(ev[j].time.value - ev[i].time.value) else None
  {
    var settled, open, order := PairRows(ev);
    r := settled;
    for l := 0 to |order|
      invariant LeavesOpen(ev, settled, r, order[l..], [])
    {
      r := AddOpen(ev, settled, r, order, l, open);
    }
    LeftOverStarts(ev, settled, r);
    RowsInFields(ev, r);
  }

  lemma RowsInFields(ev: seq<Event>, r: Pairs)
    requires IsPairing(ev, r)
    ensures forall i: nat :: i in r <==>
              i < |ev| && var e := ev[i];
              || (e.kind in {TaskScheduled, TimerCreated, SubOrchestrationCreated} && e.sequenceId >= 0)
              || (e.kind in {TaskCompleted, TaskFailed, TimerFired, SubOrchestrationCompleted, SubOrchestrationFailed} && e.scheduledId.Some?)
    ensures forall i: nat :: i in r ==>
              i < |ev| && var e := ev[i];
              if e.kind in {TaskScheduled, TimerCreated, SubOrchestrationCreated} then r[i].role == Start && r[i].pairId == e.sequenceId
              else r[i].role == End && e.scheduledId == Some(r[i].pairId)
    ensures forall i: nat, j: nat :: Paired(r, i, j) ==>
              && i < j < |ev| && j in r && r[i].duration == None
              && r[j].duration == if ev[i].time.Some? && ev[j].time.Some? && ev[i].time.value <= ev[j].time.value
                                  then Some(ev[j].time.value - ev[i].time.value) else None
  {
    forall i: nat | i in r ensures Describes(ev, r, i) {
    }
    forall i: nat, j: nat | Paired(r, i, j) ensures j in r && i < j && r[j].partner == Some(i) && r[j].role == End {
      assert r[i].partner.Some?;
    }
  }

  /** The left-over starts of one id. */
  method AddOpen(ev: seq<Event>, settled: Pairs, r: Pairs, order: seq<int>, l: nat, open: map<int, seq<nat>>) returns (r': Pairs)
    requires l < |order| && order[l] in open && Stacks(ev, |ev|, settled, open)
    requires LeavesOpen(ev, settled, r, order[l..], [])
    ensures LeavesOpen(ev, settled, r', order[l + 1..], [])
  {
    r' := r;
    var p := order[l];
    var stack := open[p];
    NextStack(ev, settled, r, order, l, open);
    for k := 0 to |stack|
      invariant LeavesOpen(ev, settled, r', order[l + 1..], stack[k..])
    {
      AddOne(ev, settled, r', order[l + 1..], stack, k, p);
      r' := r'[stack[k] := PairInfo(p, Start, None, None)];
    }
  }

  lemma NextStack(ev: seq<Event>, settled: Pairs, r: Pairs, order: seq<int>, l: nat, open: map<int, seq<nat>>)
    requires l < |order| && order[l] in open && Stacks(ev, |ev|, settled, open)
    requires LeavesOpen(ev, settled, r, order[l..], [])
    ensures LeavesOpen(ev, settled, r, order[l + 1..], open[order[l]])
    ensures StackOk(ev, |ev|, settled, order[l], open[order[l]])
  {
    assert order[l..] == [order[l]] + order[l + 1..];
    var p: int := order[l];
    assert p in open;
  }

  lemma AddOne(ev: seq<Event>, settled: Pairs, r: Pairs, left: seq<int>, stack: seq<nat>, k: nat, p: int)
    requires k < |stack| && LeavesOpen(ev, settled, r, left, stack[k..])
    requires stack[k] < |ev| && IsStart(ev[stack[k]]) && ev[stack[k]].sequenceId == p && stack[k] !in settled
    ensures LeavesOpen(ev, settled, r[stack[k] := PairInfo(p, Start, None, None)], left, stack[k + 1..])
  {
    assert stack[k..] == [stack[k]] + stack[k + 1..];
  }

  /** r is settled plus open starts, all but those with ids in left and those in todo. */
  ghost predicate LeavesOpen(ev: seq<Event>, settled: Pairs, r: Pairs, left: seq<int>, todo: seq<nat>) {
    && (forall i: nat :: i in settled ==> i in r && r[i] == settled[i])
    && (forall i: nat :: i in r && i !in settled ==> i < |ev| && IsStart(ev[i]) && r[i] == PairInfo(ev[i].sequenceId, Start, None, None))
    && (forall i: nat :: i < |ev| && IsStart(ev[i]) && i !in r ==> ev[i].sequenceId in left || i in todo)
  }

  lemma LeftOverStarts(ev: seq<Event>, s: Pairs, r: Pairs)
    requires Settled(ev, |ev|, s) && OpenOutside(ev, |ev|, s)
    requires forall i: nat :: i in s ==> i in r && r[i] == s[i]
    requires forall i: nat :: i in r && i !in s ==> i < |ev| && IsStart(ev[i]) && r[i] == PairInfo(ev[i].sequenceId, Start, None, None)
    requires forall i: nat :: i < |ev| && IsStart(ev[i]) ==> i in r
    ensures IsPairing(ev, r)
  {
    forall i: nat, j: nat | Paired(r, i, j) ensures Paired(s, i, j) {
    }
    forall i: nat | i in r && i !in s ensures OpenStart(ev, |ev|, s, i) {
    }
    forall i: nat | Alone(r, i, End) ensures Alone(s, i, End) {
    }
  }

  // ---------- There is only one pairing ----------

  /** A start not yet completed at n. */
  predicate OpenAt(r: Pairs, i: nat, n: nat) {
    i in r && r[i].role == Start && i < n && (r[i].partner.None? || r[i].partner.value >= n)
  }

  /** A start inside a pair of its id is closed before the pair is. */
  lemma InsideCloses(ev: seq<Event>, r: Pairs, i: nat, j: nat, m: nat)
    requires IsPairing(ev, r) && Paired(r, i, j) && i < m < j
    requires m in r && r[m].role == Start && r[m].pairId == r[i].pairId
    ensures r[m].partner.Some? && r[m].partner.value < j
  {
    assert r[m].partner.Some?;
    var k := r[m].partner.value;
    assert Paired(r, m, k);
    assert r[j].partner == Some(i) && r[k].partner == Some(m);
  }

  /** Every start before a left-over end of its id is closed before it. */
  lemma OrphanFollowsClosed(ev: seq<Event>, r: Pairs, i: nat, j: nat)
    requires IsPairing(ev, r) && Alone(r, j, End) && i < j
    requires i in r && r[i].role == Start && r[i].pairId == r[j].pairId
    ensures r[i].partner.Some? && r[i].partner.value < j
  {
    assert !Alone(r, i, Start);
    var k := r[i].partner.value;
    assert Paired(r, i, k);
    assert r[k].partner == Some(i);
  }

  /** An end takes the latest start of its id that is still open. */
  lemma EndTakesLatest(ev: seq<Event>, r: Pairs, j: nat, m: nat)
    requires IsPairing(ev, r) && j in r && r[j].role == End
    requires OpenAt(r, m, j) && r[m].pairId == r[j].pairId
    requires forall k: nat :: OpenAt(r, k, j) && r[k].pairId == r[j].pairId ==> k <= m
    ensures r[j].partner == Some(m)
  {
    if r[j].partner == None {
      OrphanFollowsClosed(ev, r, m, j);
    } else {
      var i := r[j].partner.value;
      assert Paired(r, i, j) && OpenAt(r, i, j);
      if i < m {
        InsideCloses(ev, r, i, j, m);
      }
    }
  }

  lemma EndWithoutStart(ev: seq<Event>, r: Pairs, j: nat)
    requires IsPairing(ev, r) && j in r && r[j].role == End
    requires forall k: nat :: OpenAt(r, k, j) ==> r[k].pairId != r[j].pairId
    ensures r[j].partner == None
  {
    assert r[j].partner.Some? ==> OpenAt(r, r[j].partner.value, j);
  }

  lemma RolesAgree(ev: seq<Event>, r: Pairs, t: Pairs, i: nat)
    requires IsPairing(ev, r) && IsPairing(ev, t)
    ensures i in r <==> i in t
    ensures i in r ==> r[i].role == t[i].role && r[i].pairId == t[i].pairId
  {
    assert i in r ==> Describes(ev, r, i);
    assert i in t ==> Describes(ev, t, i);
  }

  /** If two pairings agree on every end before j they have the same open starts there. */
  lemma SameOpen(ev: seq<Event>, r: Pairs, t: Pairs, j: nat, k: nat)
    requires IsPairing(ev, r) && IsPairing(ev, t)
    requires forall i: nat :: i < j && i in r && r[i].role == End ==> r[i].partner == t[i].partner
    ensures OpenAt(r, k, j) ==> OpenAt(t, k, j)
  {
    RolesAgree(ev, r, t, k);
    if OpenAt(r, k, j) && t[k].partner.Some? && t[k].partner.value < j {
      RolesAgree(ev, r, t, t[k].partner.value);
    }
  }

  ghost function LatestOpen(r: Pairs, j: nat, p: int, n: nat): (m: Option<nat>)
    ensures m.Some? ==> m.value < n && OpenAt(r, m.value, j) && r[m.value].pairId == p
    ensures forall k: nat :: k < n && OpenAt(r, k, j) && r[k].pairId == p ==> m.Some? && k <= m.value
  {
    if n == 0 then None
    else if OpenAt(r, n - 1, j) && r[n - 1].pairId == p then Some(n - 1)
    else LatestOpen(r, j, p, n - 1)
  }

  lemma {:induction false} EndsAgree(ev: seq<Event>, r: Pairs, t: Pairs, j: nat)
    requires IsPairing(ev, r) && IsPairing(ev, t)
    ensures j in r && r[j].role == End ==> j in t && r[j].partner == t[j].partner
  {
    RolesAgree(ev, r, t, j);
    if j in r && r[j].role == End {
      forall i: nat | i < j && i in r && r[i].role == End ensures i in t && r[i].partner == t[i].partner {
        EndsAgree(ev, r, t, i);
      }
      forall i: nat ensures i in r <==> i in t
                    ensures i in r ==> r[i].role == t[i].role && r[i].pairId == t[i].pairId {
        RolesAgree(ev, r, t, i);
      }
      forall k: nat ensures OpenAt(r, k, j) <==> OpenAt(t, k, j) {
        SameOpen(ev, r, t, j, k);
        SameOpen(ev, t, r, j, k);
      }
      var m := LatestOpen(r, j, r[j].pairId, j);
      if m.Some? {
        EndTakesLatest(ev, r, j, m.value);
        EndTakesLatest(ev, t, j, m.value);
      } else {
        EndWithoutStart(ev, r, j);
        EndWithoutStart(ev, t, j);
      }
    }
  }

  /** The properties above leave one pairing only, the one buildPairIndex returns. */
  lemma PairingIsUnique(ev: seq<Event>, r: Pairs, t: Pairs)
    requires IsPairing(ev, r) && IsPairing(ev, t)
    ensures r == t
  {
    forall i: nat
      ensures i in r <==> i in t
      ensures i in r ==> r[i] == t[i]
    {
      RolesAgree(ev, r, t, i);
      EndsAgree(ev, r, t, i);
      if i in r && r[i].role == Start {
        if r[i].partner.Some? {
          EndsAgree(ev, r, t, r[i].partner.value);
        }
        if t[i].partner.Some? {
          EndsAgree(ev, t, r, t[i].partner.value);
        }
      }
    }
  }

  // ---------- Reuse of ids ----------

  /** An id is scheduled again only after a completion for it. */
  ghost predicate ReusedAfterCompletion(ev: seq<Event>) {
    forall i: nat, k: nat :: i < k < |ev| && IsStart(ev[i]) && IsStart(ev[k]) && ev[i].sequenceId == ev[k].sequenceId ==>
      exists j: nat :: i < j < k && IsEnd(ev[j]) && ev[j].scheduledId == Some(ev[i].sequenceId)
  }

  ghost predicate OneOpenPerId(r: Pairs) {
    forall n: nat, i: nat, k: nat :: OpenAt(r, i, n) && OpenAt(r, k, n) && r[i].pairId == r[k].pairId ==> i == k
  }

  lemma EndBetween(ev: seq<Event>, r: Pairs, i: nat, k: nat) returns (j: nat)
    requires Covers(ev, r) && ReusedAfterCompletion(ev)
    requires i in r && k in r && r[i].role == Start && r[k].role == Start && i < k && r[i].pairId == r[k].pairId
    ensures i < j < k && j in r && r[j].role == End && r[j].pairId == r[i].pairId
  {
    assert Describes(ev, r, i) && Describes(ev, r, k);
    j :| i < j < k && IsEnd(ev[j]) && ev[j].scheduledId == Some(ev[i].sequenceId);
    assert j in r && Describes(ev, r, j);
  }

  lemma EndCloses(ev: seq<Event>, r: Pairs, i: nat, j: nat)
    requires IsPairing(ev, r) && i < j && i in r && j in r && r[i].role == Start && r[j].role == End && r[i].pairId == r[j].pairId
    ensures (r[i].partner.Some? && r[i].partner.value <= j)
            || (r[j].partner.Some? && i < r[j].partner.value < j && Paired(r, r[j].partner.value, j))
  {
    if r[j].partner == None {
      OrphanFollowsClosed(ev, r, i, j);
    } else {
      var m := r[j].partner.value;
      assert Paired(r, m, j);
      if m < i {
        InsideCloses(ev, r, m, j, i);
      }
    }
  }

  /** A completion between a start and the next start of its id closes the first. */
  lemma {:induction false} ClosedBeforeNext(ev: seq<Event>, r: Pairs, i: nat, k: nat)
    requires IsPairing(ev, r) && ReusedAfterCompletion(ev)
    requires i in r && k in r && r[i].role == Start && r[k].role == Start && i < k && r[i].pairId == r[k].pairId
    ensures r[i].partner.Some? && r[i].partner.value < k
    decreases k
  {
    var j := EndBetween(ev, r, i, k);
    EndCloses(ev, r, i, j);
    if !(r[i].partner.Some? && r[i].partner.value <= j) {
      assert r[j].partner.Some?;
      ClosedBeforeNext(ev, r, i, r[j].partner.value);
    }
  }

  lemma ReuseGivesOne(ev: seq<Event>, r: Pairs)
    requires IsPairing(ev, r) && ReusedAfterCompletion(ev)
    ensures OneOpenPerId(r)
  {
    forall n: nat, i: nat, k: nat | OpenAt(r, i, n) && OpenAt(r, k, n) && r[i].pairId == r[k].pairId ensures i == k {
      if i < k {
        ClosedBeforeNext(ev, r, i, k);
      } else if k < i {
        ClosedBeforeNext(ev, r, k, i);
      }
    }
  }

  lemma OneGivesEnd(ev: seq<Event>, r: Pairs, i: nat, k: nat) returns (j: nat)
    requires Covers(ev, r) && Symmetric(r) && OneOpenPerId(r)
    requires i < k < |ev| && IsStart(ev[i]) && IsStart(ev[k]) && ev[i].sequenceId == ev[k].sequenceId
    ensures i < j < k && IsEnd(ev[j]) && ev[j].scheduledId == Some(ev[i].sequenceId)
  {
    assert Describes(ev, r, i) && Describes(ev, r, k);
    assert OpenAt(r, k, k + 1) by {
      assert r[k].partner.Some? ==> Paired(r, k, r[k].partner.value);
    }
    assert !OpenAt(r, i, k + 1);
    j := r[i].partner.value;
    assert Paired(r, i, j) && Describes(ev, r, j);
  }

  /** No stack ever holds two starts exactly when ids are reused only after completion. */
  lemma OneOpenIff(ev: seq<Event>, r: Pairs)
    requires IsPairing(ev, r)
    ensures OneOpenPerId(r) <==> ReusedAfterCompletion(ev)
  {
    if ReusedAfterCompletion(ev) {
      ReuseGivesOne(ev, r);
    }
    if OneOpenPerId(r) {
      forall i: nat, k: nat | i < k < |ev| && IsStart(ev[i]) && IsStart(ev[k]) && ev[i].sequenceId == ev[k].sequenceId
        ensures exists j: nat :: i < j < k && IsEnd(ev[j]) && ev[j].scheduledId == Some(ev[i].sequenceId)
      {
        var j := OneGivesEnd(ev, r, i, k);
      }
    }
  }
}
