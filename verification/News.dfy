/** The stale-while-revalidate news cache (pkg/news/news.go) as a machine whose steps are its
    critical sections, over a clock that never goes back. */
module News {
  import opened Options

  const MaxNegativeTtl: nat := 30_000_000_000

  function NegativeTtl(ttl: nat): nat { if ttl / 2 > MaxNegativeTtl then MaxNegativeTtl else ttl / 2 }

  /** The fields behind the mutex; channels are numbered as they are made, failedAt is None for
      the zero time. */
  datatype Cache<R> = Cache(cached: R, fetchedAt: nat, failedAt: Option<nat>, hasGood: bool, inflight: Option<nat>, made: nat)

  /** A refresher with something good serves it at once and fetches in the background. */
  datatype Answer<R> = Serve(response: R) | Await(ch: nat) | Refresh(ch: nat, served: Option<R>)

  predicate Fresh<R>(c: Cache<R>, ttl: nat, now: nat) { c.hasGood && now - c.fetchedAt < ttl }

  predicate NegativelyCached<R>(c: Cache<R>, ttl: nat, now: nat) {
    c.inflight.None? && c.failedAt.Some? && now - c.failedAt.value < NegativeTtl(ttl)
  }

  predicate StartsFetch<R>(c: Cache<R>, ttl: nat, now: nat) {
    !Fresh(c, ttl, now) && !NegativelyCached(c, ttl, now) && c.inflight.None?
  }

  function AfterGet<R>(c: Cache<R>, ttl: nat, now: nat): Cache<R> {
    if StartsFetch(c, ttl, now) then c.(inflight := Some(c.made), made := c.made + 1) else c
  }

  function AnswerOf<R>(c: Cache<R>, ttl: nat, now: nat): Answer<R> {
    if StartsFetch(c, ttl, now) then Refresh(c.made, if c.hasGood then Some(c.cached) else None)
    else if Fresh(c, ttl, now) || NegativelyCached(c, ttl, now) || c.hasGood || c.inflight.None? then Serve(c.cached)
    else Await(c.inflight.value)
  }

  function AfterFetch<R>(c: Cache<R>, outcome: Option<R>, now: nat): Cache<R> {
    if outcome.Some? then c.(cached := outcome.value, fetchedAt := now, failedAt := None, hasGood := true, inflight := None)
    else c.(failedAt := Some(now), inflight := None)
  }

  /** Starts and ends of fetches, in order. */
  datatype Event<R> = Started(at: nat) | Ended(at: nat, outcome: Option<R>)

  /** running are the refreshers fetching, closing those that have recorded their outcome and not
      yet closed their channel; waiting are the callers blocked, by caller. */
  datatype State<R> = State(cache: Cache<R>, now: nat, running: set<nat>, closing: set<nat>, closed: set<nat>,
                            waiting: map<nat, nat>, log: seq<Event<R>>)

  datatype Step<R> =
    | Tick(elapsed: nat)
    | Get(caller: nat)
    | Finish(ch: nat, outcome: Option<R>)
    | CloseChannel(ch: nat)
    | Wake(caller: nat)
    | GiveUp(caller: nat)

  predicate Enabled<R>(s: State<R>, step: Step<R>) {
    match step
    case Tick(_) => true
    case Get(caller) => caller !in s.waiting
    case Finish(ch, _) => ch in s.running
    case CloseChannel(ch) => ch in s.closing
    case Wake(caller) => caller in s.waiting && s.waiting[caller] in s.closed
    case GiveUp(caller) => caller in s.waiting
  }

  function Apply<R>(s: State<R>, step: Step<R>, ttl: nat): State<R>
    requires Enabled(s, step)
  {
    match step
    case Tick(elapsed) => s.(now := s.now + elapsed)
    case Get(caller) =>
      (match AnswerOf(s.cache, ttl, s.now)
       case Serve(_) => s
       case Await(ch) => s.(waiting := s.waiting[caller := ch])
       case Refresh(ch, _) => s.(cache := AfterGet(s.cache, ttl, s.now), running := s.running + {ch}, log := s.log + [Started(s.now)]))
    case Finish(ch, outcome) =>
      s.(cache := AfterFetch(s.cache, outcome, s.now), running := s.running - {ch}, closing := s.closing + {ch},
         log := s.log + [Ended(s.now, outcome)])
    case CloseChannel(ch) => s.(closing := s.closing - {ch}, closed := s.closed + {ch})
    case Wake(caller) => s.(waiting := s.waiting - {caller})
    case GiveUp(caller) => s.(waiting := s.waiting - {caller})
  }

  function Initial<R>(empty: R): State<R> {
    State(Cache(empty, 0, None, false, None, 0), 0, {}, {}, {}, map[], [])
  }

  // ---------- What every step keeps ----------

  /** The least time before the next start, after the last event. */
  function Pause<R>(e: Event<R>, ttl: nat): nat
    requires e.Ended?
  {
    if e.outcome.Some? then ttl else NegativeTtl(ttl)
  }

  /** Starts and ends alternate, and every start keeps its distance from the end before it. */
  ghost predicate Spaced<R>(log: seq<Event<R>>, ttl: nat) {
    && (forall i :: 0 <= i < |log| ==> log[i].Started? == (i % 2 == 0))
    && (forall i :: 0 <= i < |log| - 1 ==> log[i].at <= log[i + 1].at)
    && (forall i :: 0 < i < |log| && log[i].Started? && log[i - 1].Ended? ==> log[i].at - log[i - 1].at >= Pause(log[i - 1], ttl))
  }

  /** The response of the last successful fetch. */
  function LastGood<R>(log: seq<Event<R>>): Option<R> {
    if log == [] then None
    else if log[|log| - 1].Ended? && log[|log| - 1].outcome.Some? then log[|log| - 1].outcome
    else LastGood(log[..|log| - 1])
  }

  /** The cache reflects the fetches so far: their last good response, or nothing; and when and how
      the last of them ended. */
  ghost predicate Reflects<R>(s: State<R>, empty: R) {
    var log := s.log;
    && s.cache.cached == (if LastGood(log).Some? then LastGood(log).value else empty)
    && s.cache.hasGood == LastGood(log).Some?
    && (log != [] ==> log[|log| - 1].at <= s.now)
    && (log == [] ==> s.cache.failedAt == None && !s.cache.hasGood)
    && (log != [] && log[|log| - 1].Ended? ==>
          if log[|log| - 1].outcome.Some? then s.cache.fetchedAt == log[|log| - 1].at && s.cache.failedAt == None
          else s.cache.failedAt == Some(log[|log| - 1].at))
  }

  /** Once a fetch has been started or has failed, what is cached is stale. */
  ghost predicate StaleSince<R>(s: State<R>, ttl: nat) {
    s.log != [] && !(s.log[|s.log| - 1].Ended? && s.log[|s.log| - 1].outcome.Some?) ==> !Fresh(s.cache, ttl, s.now)
  }

  /** inflight is set exactly while its one refresher runs; no channel is in two places. */
  ghost predicate OneRefresher<R>(s: State<R>) {
    && s.running == (if s.cache.inflight.Some? then {s.cache.inflight.value} else {})
    && (s.cache.inflight.Some? <==> s.log != [] && s.log[|s.log| - 1].Started?)
    && s.running !! s.closing && s.running !! s.closed && s.closing !! s.closed
    && (forall ch :: ch in s.running || ch in s.closing || ch in s.closed ==> ch < s.cache.made)
    && (forall c :: c in s.waiting ==> s.waiting[c] in s.running || s.waiting[c] in s.closing || s.waiting[c] in s.closed)
  }

  ghost predicate Inv<R>(s: State<R>, empty: R, ttl: nat) {
    OneRefresher(s) && Reflects(s, empty) && Spaced(s.log, ttl)
  }

  lemma LastGoodSnoc<R>(log: seq<Event<R>>, e: Event<R>)
    ensures LastGood(log + [e]) == if e.Ended? && e.outcome.Some? then e.outcome else LastGood(log)
  {
    assert (log + [e])[..|log|] == log;
  }

  lemma StartKeepsInv<R>(s: State<R>, caller: nat, empty: R, ttl: nat)
    requires Inv(s, empty, ttl) && Enabled(s, Get(caller)) && StartsFetch(s.cache, ttl, s.now)
    ensures Inv(Apply(s, Get(caller), ttl), empty, ttl)
  {
    LastGoodSnoc(s.log, Started(s.now));
    StartKeepsDistance(s, empty, ttl);
    StartIsAlone(s, caller, ttl);
  }

  lemma StartKeepsDistance<R>(s: State<R>, empty: R, ttl: nat)
    requires Spaced(s.log, ttl) && Reflects(s, empty) && OneRefresher(s) && StartsFetch(s.cache, ttl, s.now)
    ensures Spaced(s.log + [Started(s.now)], ttl)
  {
    if s.log != [] {
      assert s.log[|s.log| - 1].Ended?;
    }
  }

  lemma StartIsAlone<R>(s: State<R>, caller: nat, ttl: nat)
    requires OneRefresher(s) && Enabled(s, Get(caller)) && StartsFetch(s.cache, ttl, s.now)
    ensures OneRefresher(Apply(s, Get(caller), ttl))
  {
  }

  lemma FinishKeepsInv<R>(s: State<R>, ch: nat, outcome: Option<R>, empty: R, ttl: nat)
    requires Inv(s, empty, ttl) && Enabled(s, Finish(ch, outcome))
    ensures Inv(Apply(s, Finish(ch, outcome), ttl), empty, ttl)
  {
    LastGoodSnoc(s.log, Ended(s.now, outcome));
  }

  lemma StepKeepsInv<R>(s: State<R>, step: Step<R>, empty: R, ttl: nat)
    requires Inv(s, empty, ttl) && Enabled(s, step)
    ensures Inv(Apply(s, step, ttl), empty, ttl)
  {
    match step
    case Tick(_) =>
    case Get(caller) =>
      if StartsFetch(s.cache, ttl, s.now) {
        StartKeepsInv(s, caller, empty, ttl);
      }
    case Finish(ch, outcome) => FinishKeepsInv(s, ch, outcome, empty, ttl);
    case CloseChannel(_) =>
    case Wake(_) =>
    case GiveUp(_) =>
  }

  // ---------- Runs ----------

  ghost predicate Run<R>(states: seq<State<R>>, steps: seq<Step<R>>, empty: R, ttl: nat) {
    && |states| == |steps| + 1 && states[0] == Initial(empty)
    && forall i :: 0 <= i < |steps| ==> Enabled(states[i], steps[i]) && states[i + 1] == Apply(states[i], steps[i], ttl)
  }

  lemma {:induction false} RunKeepsInv<R>(states: seq<State<R>>, steps: seq<Step<R>>, empty: R, ttl: nat, i: nat)
    requires Run(states, steps, empty, ttl) && i < |states|
    ensures Inv(states[i], empty, ttl)
  {
    if i > 0 {
      RunKeepsInv(states, steps, empty, ttl, i - 1);
      StepKeepsInv(states[i - 1], steps[i - 1], empty, ttl);
    }
  }

  lemma {:induction false} RunKeepsStale<R>(states: seq<State<R>>, steps: seq<Step<R>>, empty: R, ttl: nat, i: nat)
    requires Run(states, steps, empty, ttl) && i < |states|
    ensures StaleSince(states[i], ttl)
  {
    if i > 0 {
      RunKeepsStale(states, steps, empty, ttl, i - 1);
      RunKeepsInv(states, steps, empty, ttl, i - 1);
    }
  }

  /** The pause after a fetch: the ttl when it succeeded, half of it and at most thirty seconds when it
      failed. */
  predicate Due<R>(log: seq<Event<R>>, now: nat, ttl: nat) {
    log == [] ||
    var last := log[|log| - 1];
    last.Ended? && now - last.at >= if last.outcome.Some? then ttl else if ttl / 2 > 30_000_000_000 then 30_000_000_000 else ttl / 2
  }

  /** A caller starts a fetch exactly when none was ever made, or the last has ended and its pause is
      over; that caller is told to fetch, and no other. */
  lemma FetchStartsIff<R>(states: seq<State<R>>, steps: seq<Step<R>>, empty: R, ttl: nat, i: nat, caller: nat)
    requires Run(states, steps, empty, ttl) && i < |states| && Enabled(states[i], Get(caller))
    ensures var s, t := states[i], Apply(states[i], Get(caller), ttl);
            && (AnswerOf(s.cache, ttl, s.now).Refresh? <==> Due(s.log, s.now, ttl))
            && t.log == if Due(s.log, s.now, ttl) then s.log + [Started(s.now)] else s.log
  {
    RunKeepsInv(states, steps, empty, ttl, i);
    RunKeepsStale(states, steps, empty, ttl, i);
  }

  /** What callers are given: the response of the last fetch that succeeded, or nothing while there is
      none; who starts a fetch gets it at once if there is one. */
  lemma AnswersWithLastGood<R>(states: seq<State<R>>, steps: seq<Step<R>>, empty: R, ttl: nat, i: nat)
    requires Run(states, steps, empty, ttl) && i < |states|
    ensures var s := states[i];
            match AnswerOf(s.cache, ttl, s.now)
            case Serve(response) => response == if LastGood(s.log).Some? then LastGood(s.log).value else empty
            case Refresh(_, served) => served == LastGood(s.log)
            case Await(ch) => ch in s.running
  {
    RunKeepsInv(states, steps, empty, ttl, i);
  }

  /** The last good response is that of an ended fetch after which none has succeeded. */
  lemma {:induction false} LastGoodIs<R>(log: seq<Event<R>>, r: R)
    ensures LastGood(log) == Some(r) <==>
            exists i :: 0 <= i < |log| && log[i].Ended? && log[i].outcome == Some(r) &&
                        forall j :: i < j < |log| && log[j].Ended? ==> log[j].outcome.None?
  {
    if log != [] {
      var most, last := log[..|log| - 1], log[|log| - 1];
      LastGoodIs(most, r);
      assert forall i :: 0 <= i < |most| ==> most[i] == log[i];
      if i :| 0 <= i < |most| && most[i].Ended? && most[i].outcome == Some(r) && forall j :: i < j < |most| && most[j].Ended? ==> most[j].outcome.None? {
        assert log[i] == most[i];
      }
      if i :| 0 <= i < |log| && log[i].Ended? && log[i].outcome == Some(r) && forall j :: i < j < |log| && log[j].Ended? ==> log[j].outcome.None? {
        if i < |most| {
          assert most[i] == log[i];
        }
      }
    }
  }

  /** A fetch that succeeds is what is served from then on; the log records when it ended. */
  lemma SuccessIsServed<R>(s: State<R>, ch: nat, response: R, ttl: nat)
    requires Enabled(s, Finish(ch, Some(response)))
    ensures var t := Apply(s, Finish(ch, Some(response)), ttl);
            && t.log == s.log + [Ended(s.now, Some(response))] && LastGood(t.log) == Some(response)
            && (ttl > 0 ==> AnswerOf(t.cache, ttl, t.now) == Serve(response))
  {
    LastGoodSnoc(s.log, Ended(s.now, Some(response)));
  }

  /** In every run at most one fetch is in flight, exactly while inflight is set. */
  lemma SingleFlight<R>(states: seq<State<R>>, steps: seq<Step<R>>, empty: R, ttl: nat, i: nat)
    requires Run(states, steps, empty, ttl) && i < |states|
    ensures |states[i].running| <= 1
    ensures states[i].cache.inflight.Some? <==> |states[i].running| == 1
    ensures states[i].cache.inflight.Some? ==> states[i].cache.inflight.value in states[i].running
  {
    RunKeepsInv(states, steps, empty, ttl, i);
  }

  lemma {:induction false} ClosedForever<R>(states: seq<State<R>>, steps: seq<Step<R>>, empty: R, ttl: nat, i: nat, j: nat, ch: nat)
    requires Run(states, steps, empty, ttl) && i <= j < |states| && ch in states[i].closed
    ensures ch in states[j].closed
  {
    if i < j {
      ClosedForever(states, steps, empty, ttl, i, j - 1, ch);
    }
  }

  /** In every run a channel is closed at most once. */
  lemma ClosedOnce<R>(states: seq<State<R>>, steps: seq<Step<R>>, empty: R, ttl: nat, i: nat, j: nat, ch: nat)
    requires Run(states, steps, empty, ttl) && i < |steps| && j < |steps|
    requires steps[i] == CloseChannel(ch) && steps[j] == CloseChannel(ch)
    ensures i == j
  {
    RunKeepsInv(states, steps, empty, ttl, i);
    RunKeepsInv(states, steps, empty, ttl, j);
    if i < j {
      ClosedForever(states, steps, empty, ttl, i + 1, j, ch);
    } else if j < i {
      ClosedForever(states, steps, empty, ttl, j + 1, i, ch);
    }
  }

  /** In every run a fetch starts no sooner than ttl after a success, or the negative ttl after a
      failure, and what is served is always the last good response, whatever failed since. */
  lemma FetchesAreSpaced<R>(states: seq<State<R>>, steps: seq<Step<R>>, empty: R, ttl: nat, i: nat)
    requires Run(states, steps, empty, ttl) && i < |states|
    ensures Spaced(states[i].log, ttl)
    ensures states[i].cache.cached == if LastGood(states[i].log).Some? then LastGood(states[i].log).value else empty
  {
    RunKeepsInv(states, steps, empty, ttl, i);
  }

  /** A failed fetch never changes the last good response. */
  lemma FailureKeepsGood<R>(s: State<R>, ch: nat, ttl: nat)
    requires Enabled(s, Finish(ch, None))
    ensures var t := Apply(s, Finish(ch, None), ttl);
            t.cache.cached == s.cache.cached && t.cache.hasGood == s.cache.hasGood && LastGood(t.log) == LastGood(s.log)
  {
    LastGoodSnoc(s.log, Ended(s.now, None));
  }

  /** A caller blocks only while there is nothing good to serve and a fetch is under way. */
  lemma BlocksOnlyWithoutGood<R>(states: seq<State<R>>, steps: seq<Step<R>>, empty: R, ttl: nat, i: nat)
    requires Run(states, steps, empty, ttl) && i < |states|
    ensures AnswerOf(states[i].cache, ttl, states[i].now).Await? <==> LastGood(states[i].log).None? && states[i].running != {}
  {
    RunKeepsInv(states, steps, empty, ttl, i);
    var s := states[i];
    if s.cache.inflight.Some? {
      assert s.cache.inflight.value in s.running;
    }
  }

  /** What may happen at any time: time passes, a caller who is not blocked asks, one who is gives up, or
      wakes when the channel waited for is closed. */
  lemma AlwaysPossible<R>(s: State<R>, elapsed: nat, caller: nat, ttl: nat)
    ensures Enabled(s, Tick(elapsed)) && Apply(s, Tick(elapsed), ttl) == s.(now := s.now + elapsed)
    ensures Enabled(s, Get(caller)) <==> caller !in s.waiting
    ensures Enabled(s, GiveUp(caller)) <==> caller in s.waiting
    ensures Enabled(s, Wake(caller)) <==> caller in s.waiting && s.waiting[caller] in s.closed
  {
  }

  /** Nobody waits in vain: the channel waited on is closed, or the step that leads there is enabled. */
  lemma WaitersProgress<R>(states: seq<State<R>>, steps: seq<Step<R>>, empty: R, ttl: nat, i: nat, caller: nat, outcome: Option<R>)
    requires Run(states, steps, empty, ttl) && i < |states| && caller in states[i].waiting
    ensures var s, ch := states[i], states[i].waiting[caller];
            Enabled(s, Wake(caller)) || Enabled(s, CloseChannel(ch)) || Enabled(s, Finish(ch, outcome))
  {
    RunKeepsInv(states, steps, empty, ttl, i);
  }

  // ---------- The service object ----------

  class Service<R> {
    const ttl: nat
    const negTtl: nat
    var cached: R
    var fetchedAt: nat
    var failedAt: Option<nat>
    var hasGood: bool
    var inflight: Option<nat>
    var made: nat

    ghost function Now(): Cache<R>
      reads this
    {
      Cache(cached, fetchedAt, failedAt, hasGood, inflight, made)
    }

    constructor (ttl: nat, empty: R)
      ensures this.ttl == ttl && negTtl == NegativeTtl(ttl) && Now() == Initial(empty).cache
    {
      this.ttl := ttl;
      negTtl := if ttl / 2 > MaxNegativeTtl then MaxNegativeTtl else ttl / 2;
      cached, fetchedAt, failedAt, hasGood, inflight, made := empty, 0, None, false, None, 0;
    }

    /** Get up to its first unlock. */
    method Get(now: nat) returns (answer: Answer<R>)
      requires negTtl == NegativeTtl(ttl)
      modifies this
      ensures Now() == AfterGet(old(Now()), ttl, now) && answer == AnswerOf(old(Now()), ttl, now)
    {
      if hasGood && now - fetchedAt < ttl {
        return Serve(cached);
      }
      if inflight == None && failedAt.Some? && now - failedAt.value < negTtl {
        return Serve(cached);
      }
      if inflight.Some? {
        if hasGood {
          return Serve(cached);
        }
        return Await(inflight.value);
      }
      inflight := Some(made);
      made := made + 1;
      answer := Refresh(made - 1, if hasGood then Some(cached) else None);
    }

    /** refresh between its lock and its unlock. */
    method Finish(outcome: Option<R>, now: nat) returns (response: R)
      modifies this
      ensures Now() == AfterFetch(old(Now()), outcome, now) && response == Now().cached
    {
      if outcome.None? {
        failedAt := Some(now);
      } else {
        cached, fetchedAt, failedAt, hasGood := outcome.value, now, None, true;
      }
      response := cached;
      inflight := None;
    }
  }
}
