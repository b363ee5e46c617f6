/** The workflow summary cache (pkg/workflow/summary_cache.go) and the read protocol around it
    (loadSummaries in pkg/workflow/service.go), against a store that is written all the time. */
module SummaryCache {
  import opened Options

  type Bytes = string

  // ---------- One instance in the store ----------

  /** The two numbers in an instance's metadata record.  Dapr encodes them deterministically, so
      equal records are equal bytes and the other way round. */
  datatype Meta = Meta(length: nat, generation: nat)

  datatype Inst = Inst(generation: nat, history: seq<Bytes>)

  /** One instance id over time: what is stored now, which first history entries its present
      incarnation has had, and which ones belonged to incarnations purged before it. */
  datatype World = World(inst: Option<Inst>, own: set<Bytes>, spent: set<Bytes>)

  const MaxHistoryEntries := 1_000_000

  function MetaOf(w: World): Option<Meta> {
    if w.inst.None? then None else Some(Meta(|w.inst.value.history|, w.inst.value.generation))
  }

  function FirstOf(w: World): Option<Bytes> {
    if w.inst.None? || w.inst.value.history == [] then None else Some(w.inst.value.history[0])
  }

  predicate Usable(meta: Option<Meta>) {
    meta.Some? && 0 < meta.value.length <= MaxHistoryEntries
  }

  /** History entry k as a read of its key finds it. */
  function Piece(w: World, k: nat): Option<Bytes> {
    if w.inst.None? || k >= |w.inst.value.history| then None else Some(w.inst.value.history[k])
  }

  /** The entries of a history one by one, all there. */
  function Pieces(history: seq<Bytes>): seq<Option<Bytes>> {
    seq(|history|, k requires 0 <= k < |history| => Some(history[k]))
  }

  // ---------- What a writer may do ----------

  function Firsts(history: seq<Bytes>): set<Bytes> {
    if history == [] then {} else {history[0]}
  }

  /** A write is a create, an append, a continue-as-new or a purge.  The one assumption: an
      incarnation's first entry (which carries its creation time) differs from those of earlier,
      purged incarnations of the same id. */
  predicate Writes(w: World, v: World) {
    || (w.inst.None? && v.inst.Some?                                              // create
        && v.own == Firsts(v.inst.value.history) && v.own !! w.spent && v.spent == w.spent)
    || (w.inst.Some? && v.inst.Some?                                              // append
        && v.inst.value.generation == w.inst.value.generation
        && w.inst.value.history <= v.inst.value.history
        && v.own == w.own + Firsts(v.inst.value.history) && v.own !! w.spent && v.spent == w.spent)
    || (w.inst.Some? && v.inst.Some?                                              // continue-as-new
        && w.inst.value.generation < v.inst.value.generation
        && v.own == w.own + Firsts(v.inst.value.history) && v.own !! w.spent && v.spent == w.spent)
    || (w.inst.Some? && v == World(None, {}, w.spent + w.own))                    // purge
  }

  predicate WorldOk(w: World) {
    && w.own !! w.spent
    && (w.inst.None? ==> w.own == {})
    && (w.inst.Some? ==> Firsts(w.inst.value.history) <= w.own)
  }

  /** v comes after w in one instance's life. */
  predicate Later(w: World, v: World) {
    && w.spent <= v.spent
    && (w.own <= v.spent
        || (&& w.own <= v.own && w.inst.Some? && v.inst.Some?
            && w.inst.value.generation <= v.inst.value.generation
            && (w.inst.value.generation == v.inst.value.generation ==> w.inst.value.history <= v.inst.value.history)))
  }

  ghost predicate TraceOk(trace: seq<World>) {
    && trace != []
    && (forall a :: 0 <= a < |trace| ==> WorldOk(trace[a]))
    && (forall a, b :: 0 <= a <= b < |trace| ==> Later(trace[a], trace[b]))
  }

  lemma WriteKeepsTrace(trace: seq<World>, v: World)
    requires TraceOk(trace) && Writes(trace[|trace| - 1], v)
    ensures TraceOk(trace + [v])
  {
    var w := trace[|trace| - 1];
    assert Later(w, v);
    forall a | 0 <= a < |trace| ensures Later(trace[a], v) {
      assert Later(trace[a], w);
    }
  }

  /** Metadata and first entry together identify the stored history: if both are the same at two
      moments, the instance did not change at any moment in between. */
  lemma HeadDetermines(trace: seq<World>, a: nat, c: nat, b: nat)
    requires TraceOk(trace) && a <= c <= b < |trace|
    requires Usable(MetaOf(trace[a])) && MetaOf(trace[a]) == MetaOf(trace[b]) && FirstOf(trace[a]) == FirstOf(trace[b])
    ensures trace[c].inst == trace[a].inst
  {
    var first := trace[a].inst.value.history[0];
    assert first in trace[a].own && first in trace[b].own;
    assert first !in trace[b].spent;
    assert Later(trace[a], trace[c]) && Later(trace[c], trace[b]) && Later(trace[a], trace[b]);
    var before, between, after := trace[a].inst.value.history, trace[c].inst.value.history, trace[b].inst.value.history;
    assert before <= between <= after && |before| == |after|;
    assert before == between[..|before|] == between;
  }

  // ---------- Bulk reads ----------

  const BulkGetChunk := 100

  /** Keys are read in chunks, one chunk after the other.  Some backends answer a chunk with one
      query, others read its keys one by one, in any order. */
  datatype Backend = OneQueryPerChunk | KeyByKey

  function ChunkOf(k: nat): nat { k / BulkGetChunk }

  /** The moments at which a bulk read can see its keys. */
  ghost predicate InOrder(b: Backend, at: seq<nat>) {
    && (forall k: nat, l: nat :: k < |at| && l < |at| && ChunkOf(k) < ChunkOf(l) ==> at[k] <= at[l])
    && (b.OneQueryPerChunk? ==> forall k: nat, l: nat :: k < |at| && l < |at| && ChunkOf(k) == ChunkOf(l) ==> at[k] == at[l])
  }

  /** got is what a bulk read of entries 0 to n - 1 can find, at moments at, none before from. */
  ghost predicate ReadAt(trace: seq<World>, b: Backend, from: nat, n: nat, at: seq<nat>, got: seq<Option<Bytes>>) {
    && |at| == |got| == n && InOrder(b, at)
    && forall k: nat :: k < n ==> from <= at[k] < |trace| && got[k] == Piece(trace[at[k]], k)
  }

  // ---------- Readers, cache and store together ----------

  /** What a load answers: nothing found, or the entries it decodes its summary from, the missing
      ones to be skipped.  A summary is a function of these. */
  datatype Answer = Missing | Found(got: seq<Option<Bytes>>)

  /** The cache entry of this instance, with the moments its parts were read. */
  datatype Entry = Entry(meta: Option<Meta>, first: Option<Bytes>, head: nat, at: seq<nat>, got: seq<Option<Bytes>>)

  /** One loadSummaries item.  head is the moment its metadata was read; a fetch reads n entries,
      those in at so far, at the moments given there. */
  datatype Reader =
    | GotMeta(meta: Option<Meta>, head: nat)
    | GotHead(meta: Option<Meta>, first: Option<Bytes>, head: nat)
    | Missed(meta: Option<Meta>, first: Option<Bytes>, head: nat)
    | Fetching(meta: Option<Meta>, first: Option<Bytes>, head: nat, from: nat, n: nat, at: map<nat, nat>)
    | Returned(meta: Option<Meta>, first: Option<Bytes>, head: nat, answer: Answer)

  /** trace[i] is the store at moment i; the last one is now. */
  datatype Sys = Sys(trace: seq<World>, entry: Option<Entry>, readers: seq<Reader>)

  datatype Step =
    | Write(v: World)
    | Forget                          // the entry goes: overflow clear, or prune
    | ReadMeta                        // a reader starts
    | ReadFirst(r: nat)
    | Probe(r: nat)                   // cache.get
    | Begin(r: nat)                   // loadWithMeta: count the entries, by a key scan if need be
    | ReadKeys(r: nat, keys: set<nat>)
    | Finish(r: nat)                  // cache.put when the metadata was usable, then return

  /** Atomic: metadata and first entry come from one moment.  Torn: the first may be read later. */
  datatype HeadRead = Atomic | Torn

  /** How the reads go in one run. */
  datatype Reads = Reads(heads: HeadRead, backend: Backend)

  const Init := Sys([World(None, {}, {})], None, [])

  function Now(s: Sys): nat
    requires s.trace != []
  {
    |s.trace| - 1
  }

  /** No key of a later chunk is read before the chunks in front of it, and where a chunk is one
      query its keys are read together. */
  ghost predicate WholeChunks(b: Backend, n: nat, read: set<nat>) {
    && (forall k: nat, l: nat :: l in read && k < n && ChunkOf(k) < ChunkOf(l) ==> k in read)
    && (b.OneQueryPerChunk? ==> forall k: nat, l: nat :: l in read && k < n && ChunkOf(k) == ChunkOf(l) ==> k in read)
  }

  ghost predicate Enabled(s: Sys, step: Step, how: Reads)
    requires s.trace != []
  {
    match step
    case Write(v) => Writes(s.trace[Now(s)], v)
    case Forget => true
    case ReadMeta => true
    case ReadFirst(r) => r < |s.readers| && s.readers[r].GotMeta? && (how.heads.Atomic? ==> s.readers[r].head == Now(s))
    case Probe(r) => r < |s.readers| && s.readers[r].GotHead?
    case Begin(r) => r < |s.readers| && s.readers[r].Missed?
    case ReadKeys(r, keys) =>
      && r < |s.readers| && s.readers[r].Fetching?
      && keys !! s.readers[r].at.Keys && (forall k <- keys :: k < s.readers[r].n)
      && WholeChunks(how.backend, s.readers[r].n, s.readers[r].at.Keys + keys)
    case Finish(r) =>
      && r < |s.readers| && s.readers[r].Fetching?
      && (forall k: nat :: k < s.readers[r].n ==> k in s.readers[r].at && s.readers[r].at[k] < |s.trace|)
  }

  function AfterProbe(s: Sys, rd: Reader): Reader
    requires rd.GotHead?
  {
    if rd.meta.Some? && s.entry.Some? && s.entry.value.meta == rd.meta && s.entry.value.first == rd.first then
      Returned(rd.meta, rd.first, rd.head, Found(s.entry.value.got))
    else Missed(rd.meta, rd.first, rd.head)
  }

  /** With usable metadata the entries it declares; else those a key scan finds, if any key is there. */
  function AfterBegin(s: Sys, rd: Reader): Reader
    requires s.trace != [] && rd.Missed?
  {
    var w := s.trace[Now(s)];
    if Usable(rd.meta) then Fetching(rd.meta, rd.first, rd.head, Now(s), rd.meta.value.length, map[])
    else if w.inst.None? then Returned(rd.meta, rd.first, rd.head, Missing)
    else Fetching(rd.meta, rd.first, rd.head, Now(s), |w.inst.value.history|, map[])
  }

  function Moments(rd: Reader): (at: seq<nat>)
    requires rd.Fetching? && forall k: nat :: k < rd.n ==> k in rd.at
    ensures |at| == rd.n && forall k: nat :: k < rd.n ==> at[k] == rd.at[k]
  {
    seq(rd.n, k requires 0 <= k < rd.n => rd.at[k])
  }

  function ReadBack(trace: seq<World>, at: seq<nat>): (got: seq<Option<Bytes>>)
    requires forall k :: 0 <= k < |at| ==> at[k] < |trace|
    ensures |got| == |at| && forall k: nat :: k < |at| ==> got[k] == Piece(trace[at[k]], k)
  {
    seq(|at|, k requires 0 <= k < |at| => Piece(trace[at[k]], k))
  }

  ghost function Apply(s: Sys, step: Step, how: Reads): Sys
    requires s.trace != [] && Enabled(s, step, how)
  {
    match step
    case Write(v) => s.(trace := s.trace + [v])
    case Forget => s.(entry := None)
    case ReadMeta => s.(readers := s.readers + [GotMeta(MetaOf(s.trace[Now(s)]), Now(s))])
    case ReadFirst(r) =>
      s.(readers := s.readers[r := GotHead(s.readers[r].meta, FirstOf(s.trace[Now(s)]), s.readers[r].head)])
    case Probe(r) => s.(readers := s.readers[r := AfterProbe(s, s.readers[r])])
    case Begin(r) => s.(readers := s.readers[r := AfterBegin(s, s.readers[r])])
    case ReadKeys(r, keys) =>
      s.(readers := s.readers[r := s.readers[r].(at := s.readers[r].at + map k | k in keys :: Now(s))])
    case Finish(r) =>
      var rd := s.readers[r];
      var got := ReadBack(s.trace, Moments(rd));
      Sys(s.trace,
          if Usable(rd.meta) then Some(Entry(rd.meta, rd.first, rd.head, Moments(rd), got)) else s.entry,
          s.readers[r := Returned(rd.meta, rd.first, rd.head, Found(got))])
  }

  // ---------- Transparency ----------

  /** What a reader without a cache, having read meta at moment head, could have answered. */
  ghost predicate Could(trace: seq<World>, b: Backend, meta: Option<Meta>, head: nat, answer: Answer) {
    if Usable(meta) then
      answer.Found? && exists at :: ReadAt(trace, b, head, meta.value.length, at, answer.got)
    else
      exists scan: nat :: head <= scan < |trace| && CouldScan(trace, b, scan, answer)
  }

  ghost predicate CouldScan(trace: seq<World>, b: Backend, scan: nat, answer: Answer)
    requires scan < |trace|
  {
    if trace[scan].inst.None? then answer == Missing
    else answer.Found? && exists at :: ReadAt(trace, b, scan, |trace[scan].inst.value.history|, at, answer.got)
  }

  predicate HeadAt(trace: seq<World>, meta: Option<Meta>, first: Option<Bytes>, head: nat) {
    head < |trace| && meta == MetaOf(trace[head]) && first == FirstOf(trace[head])
  }

  /** A fetch so far. */
  ghost predicate FetchOk(trace: seq<World>, b: Backend, rd: Reader)
    requires rd.Fetching?
  {
    && rd.head <= rd.from < |trace|
    && (if Usable(rd.meta) then rd.n == rd.meta.value.length
        else trace[rd.from].inst.Some? && rd.n == |trace[rd.from].inst.value.history|)
    && (forall k <- rd.at :: k < rd.n && rd.from <= rd.at[k] < |trace|)
    && WholeChunks(b, rd.n, rd.at.Keys)
    && (forall k: nat, l: nat :: k in rd.at && l in rd.at && ChunkOf(k) < ChunkOf(l) ==> rd.at[k] <= rd.at[l])
    && (b.OneQueryPerChunk? ==> forall k: nat, l: nat :: k in rd.at && l in rd.at && ChunkOf(k) == ChunkOf(l) ==> rd.at[k] == rd.at[l])
  }

  ghost predicate ReaderOk(trace: seq<World>, b: Backend, rd: Reader) {
    match rd
    case GotMeta(meta, head) => head < |trace| && meta == MetaOf(trace[head])
    case GotHead(meta, first, head) => HeadAt(trace, meta, first, head)
    case Missed(meta, first, head) => HeadAt(trace, meta, first, head)
    case Fetching(meta, first, head, _, _, _) => HeadAt(trace, meta, first, head) && FetchOk(trace, b, rd)
    case Returned(meta, first, head, answer) => HeadAt(trace, meta, first, head) && Could(trace, b, meta, head, answer)
  }

  ghost predicate EntryOk(trace: seq<World>, b: Backend, e: Entry) {
    Usable(e.meta) && HeadAt(trace, e.meta, e.first, e.head) && ReadAt(trace, b, e.head, e.meta.value.length, e.at, e.got)
  }

  ghost predicate Inv(s: Sys, b: Backend) {
    && TraceOk(s.trace)
    && (s.entry.Some? ==> EntryOk(s.trace, b, s.entry.value))
    && (forall r :: 0 <= r < |s.readers| ==> ReaderOk(s.trace, b, s.readers[r]))
  }

  /** The entry's reads, moved forward to the reader's own head where they lie before it. */
  function Forward(at: seq<nat>, head: nat): (r: seq<nat>)
    ensures |r| == |at| && forall k: nat :: k < |at| ==> r[k] == if at[k] < head then head else at[k]
  {
    seq(|at|, k requires 0 <= k < |at| => if at[k] < head then head else at[k])
  }

  /** The heart of it: a hit answers what an uncached fetch, its reads in the same order and none
      before the reader's own head, could have. */
  lemma HitIsFresh(trace: seq<World>, b: Backend, e: Entry, meta: Option<Meta>, first: Option<Bytes>, head: nat)
    requires TraceOk(trace) && EntryOk(trace, b, e) && HeadAt(trace, meta, first, head)
    requires e.meta == meta && e.first == first
    ensures ReadAt(trace, b, head, meta.value.length, Forward(e.at, head), e.got)
    ensures Could(trace, b, meta, head, Found(e.got))
  {
    forall k: nat | k < |e.at| && e.at[k] < head ensures e.got[k] == Piece(trace[head], k) {
      HeadDetermines(trace, e.head, e.at[k], head);
      HeadDetermines(trace, e.head, head, head);
    }
    assert ReadAt(trace, b, head, meta.value.length, Forward(e.at, head), e.got);
  }

  lemma CouldLater(trace: seq<World>, longer: seq<World>, b: Backend, meta: Option<Meta>, head: nat, answer: Answer)
    requires trace <= longer && Could(trace, b, meta, head, answer)
    ensures Could(longer, b, meta, head, answer)
  {
    if Usable(meta) {
      var at :| ReadAt(trace, b, head, meta.value.length, at, answer.got);
      assert ReadAt(longer, b, head, meta.value.length, at, answer.got);
    } else {
      var scan: nat :| head <= scan < |trace| && CouldScan(trace, b, scan, answer);
      if trace[scan].inst.Some? {
        var at :| ReadAt(trace, b, scan, |trace[scan].inst.value.history|, at, answer.got);
        assert ReadAt(longer, b, scan, |longer[scan].inst.value.history|, at, answer.got);
      }
      assert CouldScan(longer, b, scan, answer);
    }
  }

  lemma ReaderOkLater(trace: seq<World>, longer: seq<World>, b: Backend, rd: Reader)
    requires trace <= longer && ReaderOk(trace, b, rd)
    ensures ReaderOk(longer, b, rd)
  {
    if rd.Returned? {
      CouldLater(trace, longer, b, rd.meta, rd.head, rd.answer);
    }
  }

  lemma ReadKeysKeepsFetch(trace: seq<World>, b: Backend, rd: Reader, keys: set<nat>, now: nat)
    requires rd.Fetching? && FetchOk(trace, b, rd) && now == |trace| - 1
    requires keys !! rd.at.Keys && (forall k <- keys :: k < rd.n) && WholeChunks(b, rd.n, rd.at.Keys + keys)
    ensures FetchOk(trace, b, rd.(at := rd.at + map k | k in keys :: now))
  {
    var at := rd.at + map k | k in keys :: now;
    assert at.Keys == rd.at.Keys + keys;
    forall k: nat, l: nat | k in at && l in at && ChunkOf(k) < ChunkOf(l) ensures at[k] <= at[l] {
      if l in rd.at {
        assert k in rd.at;
      }
    }
  }

  /** A finished fetch is a possible bulk read. */
  lemma FetchIsRead(trace: seq<World>, b: Backend, rd: Reader)
    requires rd.Fetching? && FetchOk(trace, b, rd) && forall k: nat :: k < rd.n ==> k in rd.at
    ensures ReadAt(trace, b, rd.from, rd.n, Moments(rd), ReadBack(trace, Moments(rd)))
    ensures Could(trace, b, rd.meta, rd.head, Found(ReadBack(trace, Moments(rd))))
  {
    var at := Moments(rd);
    assert ReadAt(trace, b, rd.from, rd.n, at, ReadBack(trace, at));
    if Usable(rd.meta) {
      assert ReadAt(trace, b, rd.head, rd.n, at, ReadBack(trace, at));
    } else {
      assert CouldScan(trace, b, rd.from, Found(ReadBack(trace, at)));
    }
  }

  lemma ReaderStep(s: Sys, step: Step, how: Reads, r: nat)
    requires Inv(s, how.backend) && Enabled(s, step, how) && how.heads.Atomic?
    requires r < |s.readers| && Apply(s, step, how).readers[r] != s.readers[r]
    ensures ReaderOk(s.trace, how.backend, Apply(s, step, how).readers[r])
  {
    var rd, rd' := s.readers[r], Apply(s, step, how).readers[r];
    assert ReaderOk(s.trace, how.backend, rd);
    if step.Probe? && rd'.Returned? {
      HitIsFresh(s.trace, how.backend, s.entry.value, rd.meta, rd.first, rd.head);
    } else if step.Begin? && rd'.Returned? {
      assert CouldScan(s.trace, how.backend, Now(s), Missing);
    } else if step.ReadKeys? {
      ReadKeysKeepsFetch(s.trace, how.backend, rd, step.keys, Now(s));
    } else if step.Finish? {
      FetchIsRead(s.trace, how.backend, rd);
    }
  }

  lemma StepKeepsInv(s: Sys, step: Step, how: Reads)
    requires Inv(s, how.backend) && Enabled(s, step, how) && how.heads.Atomic?
    ensures Inv(Apply(s, step, how), how.backend)
  {
    var t := Apply(s, step, how);
    if step.Write? {
      WriteKeepsTrace(s.trace, step.v);
    } else if step.Finish? {
      assert ReaderOk(s.trace, how.backend, s.readers[step.r]);
      FetchIsRead(s.trace, how.backend, s.readers[step.r]);
    }
    forall r | 0 <= r < |t.readers| ensures ReaderOk(t.trace, how.backend, t.readers[r]) {
      if r < |s.readers| {
        assert ReaderOk(s.trace, how.backend, s.readers[r]);
        if t.readers[r] != s.readers[r] {
          ReaderStep(s, step, how, r);
        }
        ReaderOkLater(s.trace, t.trace, how.backend, t.readers[r]);
      }
    }
  }

  ghost predicate Trace(states: seq<Sys>, steps: seq<Step>, how: Reads) {
    && |states| == |steps| + 1
    && (forall i :: 0 <= i < |states| ==> states[i].trace != [])
    && forall i :: 0 <= i < |steps| ==> Enabled(states[i], steps[i], how) && states[i + 1] == Apply(states[i], steps[i], how)
  }

  ghost predicate Run(states: seq<Sys>, steps: seq<Step>, how: Reads) { Trace(states, steps, how) && states[0] == Init }

  lemma {:induction false} RunKeepsInv(states: seq<Sys>, steps: seq<Step>, how: Reads, n: nat)
    requires Run(states, steps, how) && n < |states| && how.heads.Atomic?
    ensures Inv(states[n], how.backend)
  {
    if n > 0 {
      RunKeepsInv(states, steps, how, n - 1);
      StepKeepsInv(states[n - 1], steps[n - 1], how);
    }
  }

  /** Whatever writes, clears, prunes and stale puts happen in whatever order, also between the reads
      of one fetch: every returned answer is one that a reader without a cache, having read the same
      metadata, could have returned, reading the entries during the same call in an order its
      backend allows. */
  lemma CacheIsTransparent(states: seq<Sys>, steps: seq<Step>, how: Reads, n: nat, r: nat)
    requires Run(states, steps, how) && how.heads.Atomic?
    requires n < |states| && r < |states[n].readers| && states[n].readers[r].Returned?
    ensures var rd := states[n].readers[r];
            && rd.head < |states[n].trace| && rd.meta == MetaOf(states[n].trace[rd.head])
            && Could(states[n].trace, how.backend, rd.meta, rd.head, rd.answer)
  {
    RunKeepsInv(states, steps, how, n);
    assert ReaderOk(states[n].trace, how.backend, states[n].readers[r]);
  }

  /** If the instance did not change since the metadata was read, the answer is its full history. */
  lemma QuietReadIsExact(states: seq<Sys>, steps: seq<Step>, how: Reads, n: nat, r: nat)
    requires Run(states, steps, how) && how.heads.Atomic?
    requires n < |states| && r < |states[n].readers| && states[n].readers[r].Returned?
    requires states[n].readers[r].head < |states[n].trace|
    requires forall j :: states[n].readers[r].head <= j < |states[n].trace| ==>
               states[n].trace[j].inst == states[n].trace[states[n].readers[r].head].inst
    ensures var now := states[n].trace[|states[n].trace| - 1].inst;
            states[n].readers[r].answer == (if now.None? then Missing else Found(Pieces(now.value.history)))
  {
    CacheIsTransparent(states, steps, how, n, r);
    var rd, trace := states[n].readers[r], states[n].trace;
    if Usable(rd.meta) {
      var at :| ReadAt(trace, how.backend, rd.head, rd.meta.value.length, at, rd.answer.got);
      QuietPieces(trace, how.backend, rd.head, at, rd.answer.got);
    } else {
      var scan: nat :| rd.head <= scan < |trace| && CouldScan(trace, how.backend, scan, rd.answer);
      if trace[scan].inst.Some? {
        var at :| ReadAt(trace, how.backend, scan, |trace[scan].inst.value.history|, at, rd.answer.got);
        QuietPieces(trace, how.backend, scan, at, rd.answer.got);
      }
    }
  }

  lemma QuietPieces(trace: seq<World>, b: Backend, from: nat, at: seq<nat>, got: seq<Option<Bytes>>)
    requires from < |trace| && trace[from].inst.Some?
    requires ReadAt(trace, b, from, |trace[from].inst.value.history|, at, got)
    requires forall j :: from <= j < |trace| ==> trace[j].inst == trace[from].inst
    ensures got == Pieces(trace[from].inst.value.history)
  {
  }

  // ---------- When one bulk read sees each pair at one moment ----------

  /** Metadata and first entry of item i of n are keys i and n + i of one bulk read. */
  ghost predicate PairsTogether(at: seq<nat>, n: nat)
    requires |at| == 2 * n
  {
    forall i: nat :: i < n ==> at[i] == at[n + i]
  }

  lemma PairsShareChunkIff(n: nat)
    ensures (forall i: nat :: i < n ==> ChunkOf(i) == ChunkOf(n + i)) <==> n <= 50
  {
    if n > 50 {
      var i: nat := if n < 100 then n - 1 else 0;
      assert ChunkOf(i) != ChunkOf(n + i);
    }
  }

  lemma PairsApart(b: Backend, n: nat) returns (at: seq<nat>)
    requires n > 0 && (b.KeyByKey? || n > 50)
    ensures |at| == 2 * n && InOrder(b, at) && !PairsTogether(at, n)
  {
    var i: nat := if n <= 50 || n >= 100 then 0 else n - 1;
    var late: nat -> nat := (k: nat) => if b.KeyByKey? && k >= n then 2 * ChunkOf(k) + 1 else 2 * ChunkOf(k);
    at := seq(2 * n, k requires 0 <= k => late(k));
    assert ChunkOf(i) != ChunkOf(n + i) || b.KeyByKey?;
    assert at[i] != at[n + i];
  }

  /** A call for n items reads every pair at one moment, whatever is written meanwhile, exactly when
      its backend answers a chunk with one query and there are at most 50 items (or none at all). */
  lemma PairsTogetherIff(b: Backend, n: nat)
    ensures (forall at: seq<nat> | |at| == 2 * n && InOrder(b, at) :: PairsTogether(at, n)) <==> n == 0 || (b.OneQueryPerChunk? && n <= 50)
  {
    if n > 0 && (b.KeyByKey? || n > 50) {
      var at := PairsApart(b, n);
    } else if n > 0 {
      PairsShareChunkIff(n);
    }
  }

  // ---------- What a torn pair can do ----------

  /** One write after the other. */
  ghost predicate Follows(path: seq<World>) {
    path != [] && forall i :: 0 <= i < |path| - 1 ==> Writes(path[i], path[i + 1])
  }

  /** A reader whose two reads both see v hits e and is answered with something else than v's history. */
  predicate ServesStale(v: World, e: Entry) {
    v.inst.Some? && MetaOf(v) == e.meta && FirstOf(v) == e.first && e.got != Pieces(v.inst.value.history)
  }

  ghost predicate CanServeStale(w: World, e: Entry) {
    exists path :: Follows(path) && path[0] == w && ServesStale(path[|path| - 1], e)
  }

  /** w can get to an instance of e's generation whose first entry is e's and whose other entries
      are still to be written. */
  predicate CanStartOver(w: World, e: Entry)
    requires e.meta.Some? && e.first.Some?
  {
    && e.first.value !in w.spent
    && (|| w.inst.None? || e.first.value !in w.own
        || w.inst.value.generation < e.meta.value.generation
        || (w.inst.value.generation == e.meta.value.generation && w.inst.value.history == []))
    && (e.meta.value.length > 1 || e.got != [e.first])
  }

  /** w is such an instance, not longer than declared, and still open or other than what was filed. */
  predicate CanGoOn(w: World, e: Entry)
    requires e.meta.Some?
  {
    && w.inst.Some? && w.inst.value.generation == e.meta.value.generation
    && FirstOf(w).Some? && FirstOf(w) == e.first
    && (|w.inst.value.history| < e.meta.value.length
        || (|w.inst.value.history| == e.meta.value.length && e.got != Pieces(w.inst.value.history)))
  }

  lemma {:induction false} PathTrace(path: seq<World>, n: nat)
    requires Follows(path) && WorldOk(path[0]) && n < |path|
    ensures TraceOk(path[..n + 1])
  {
    if n > 0 {
      PathTrace(path, n - 1);
      assert path[..n + 1] == path[..n] + [path[n]];
      WriteKeepsTrace(path[..n], path[n]);
    }
  }

  lemma PathLater(path: seq<World>)
    requires Follows(path) && WorldOk(path[0])
    ensures WorldOk(path[|path| - 1]) && Later(path[0], path[|path| - 1])
  {
    PathTrace(path, |path| - 1);
    assert path[..|path|] == path;
  }

  /** A history of n entries that starts with prefix and is not got. */
  lemma OtherHistory(prefix: seq<Bytes>, n: nat, got: seq<Option<Bytes>>) returns (h: seq<Bytes>)
    requires |prefix| < n
    ensures prefix <= h && |h| == n && Pieces(h) != got
  {
    var last := if |got| == n && got[n - 1] == Some("") then "x" else "";
    h := prefix + seq(n - 1 - |prefix|, _ => "") + [last];
    assert h[n - 1] == last && Pieces(h)[n - 1] == Some(last);
  }

  lemma StepTo(w: World, v: World, e: Entry)
    requires Writes(w, v) && ServesStale(v, e)
    ensures CanServeStale(w, e)
  {
    assert Follows([w, v]) && [w, v][0] == w && [w, v][|[w, v]| - 1] == v;
  }

  lemma StartOverServesStale(w: World, e: Entry)
    requires WorldOk(w) && Usable(e.meta) && e.first.Some? && CanStartOver(w, e)
    ensures CanServeStale(w, e)
  {
    var f, n, g := e.first.value, e.meta.value.length, e.meta.value.generation;
    var h := [f];
    if n > 1 {
      h := OtherHistory([f], n, e.got);
    } else {
      assert Pieces(h) == [e.first];
    }
    if w.inst.None? || f in w.own {
      var v := World(Some(Inst(g, h)), w.own + {f}, w.spent);
      assert w.inst.Some? && w.inst.value.history == [] ==> [] <= h;
      StepTo(w, v, e);
    } else {
      var purged, v := World(None, {}, w.spent + w.own), World(Some(Inst(g, h)), {f}, w.spent + w.own);
      var path := [w, purged, v];
      assert Writes(w, purged) && Writes(purged, v);
      assert Follows(path) && path[0] == w && ServesStale(path[|path| - 1], e);
    }
  }

  lemma GoOnServesStale(w: World, e: Entry)
    requires WorldOk(w) && Usable(e.meta) && CanGoOn(w, e)
    ensures CanServeStale(w, e)
  {
    var n := e.meta.value.length;
    if |w.inst.value.history| == n {
      assert Follows([w]) && [w][0] == w && ServesStale([w][|[w]| - 1], e);
    } else {
      var h := OtherHistory(w.inst.value.history, n, e.got);
      StepTo(w, World(Some(Inst(w.inst.value.generation, h)), w.own, w.spent), e);
    }
  }

  /** The exact condition under which what is filed can still mislead a reader whose own two reads
      are consistent, now or after some further writes. */
  lemma CanServeStaleIff(w: World, e: Entry)
    requires WorldOk(w) && Usable(e.meta)
    ensures CanServeStale(w, e) <==> e.first.Some? && (CanStartOver(w, e) || CanGoOn(w, e))
  {
    if e.first.Some? && CanStartOver(w, e) {
      StartOverServesStale(w, e);
    } else if CanGoOn(w, e) {
      GoOnServesStale(w, e);
    }
    if CanServeStale(w, e) {
      var path :| Follows(path) && path[0] == w && ServesStale(path[|path| - 1], e);
      PathLater(path);
      StaleNeeds(w, path[|path| - 1], e);
    }
  }

  lemma StaleNeeds(w: World, v: World, e: Entry)
    requires WorldOk(w) && WorldOk(v) && Later(w, v) && Usable(e.meta) && ServesStale(v, e)
    ensures e.first.Some? && (CanStartOver(w, e) || CanGoOn(w, e))
  {
    var h, f := v.inst.value.history, v.inst.value.history[0];
    assert f in v.own && f !in v.spent && f !in w.spent;
    assert |h| == 1 ==> Pieces(h) == [e.first];
  }

  /** An instance that came to be like the one an entry was filed for is that one, unchanged. */
  lemma FiledHistoryStands(trace: seq<World>, b: Backend, e: Entry)
    requires TraceOk(trace) && EntryOk(trace, b, e) && HeadAt(trace, e.meta, e.first, |trace| - 1)
    ensures e.got == Pieces(trace[|trace| - 1].inst.value.history)
  {
    HitIsFresh(trace, b, e, e.meta, e.first, |trace| - 1);
    var now := trace[|trace| - 1];
    assert |now.inst.value.history| == e.meta.value.length;
    forall k: nat | k < |e.got| ensures e.got[k] == Piece(now, k) {
      assert Forward(e.at, |trace| - 1)[k] == |trace| - 1;
    }
  }

  lemma EntryNeverStale(trace: seq<World>, b: Backend, e: Entry)
    requires TraceOk(trace) && EntryOk(trace, b, e)
    ensures !CanServeStale(trace[|trace| - 1], e)
  {
    var was, w := trace[e.head], trace[|trace| - 1];
    CanServeStaleIff(w, e);
    assert Later(was, w) && e.first.value in was.own;
    if w.inst.Some? && was.own <= w.own && w.inst.value.generation == e.meta.value.generation {
      assert was.inst.value.history <= w.inst.value.history;
      if |w.inst.value.history| == e.meta.value.length {
        FiledHistoryStands(trace, b, e);
      }
    }
  }

  lemma FiledNeverStale(s: Sys, b: Backend)
    requires Inv(s, b) && s.entry.Some?
    ensures !CanServeStale(s.trace[Now(s)], s.entry.value)
  {
    EntryNeverStale(s.trace, b, s.entry.value);
  }

  /** With both reads at one moment no entry can ever mislead such a reader, even if it was put
      together from reads at several moments. */
  lemma AtomicNeverStale(states: seq<Sys>, steps: seq<Step>, how: Reads, n: nat)
    requires Run(states, steps, how) && how.heads.Atomic?
    requires n < |states| && states[n].entry.Some?
    ensures !CanServeStale(states[n].trace[Now(states[n])], states[n].entry.value)
  {
    RunKeepsInv(states, steps, how, n);
    FiledNeverStale(states[n], how.backend);
  }

  // ---------- Runs with torn pairs ----------

  ghost predicate Reachable(s: Sys, how: Reads) {
    s.trace != [] && exists states, steps :: Run(states, steps, how) && states[|steps|] == s
  }

  lemma RunGoesOn(states: seq<Sys>, steps: seq<Step>, how: Reads, s: Sys, step: Step)
    requires Run(states, steps, how) && states[|steps|] == s && Enabled(s, step, how)
    ensures Run(states + [Apply(s, step, how)], steps + [step], how)
  {
  }

  lemma Next(s: Sys, how: Reads, step: Step) returns (t: Sys)
    requires Reachable(s, how) && Enabled(s, step, how)
    ensures t == Apply(s, step, how) && Reachable(t, how)
  {
    t := Apply(s, step, how);
    var states, steps :| Run(states, steps, how) && states[|steps|] == s;
    RunGoesOn(states, steps, how, s, step);
    assert Run(states + [t], steps + [step], how) && (states + [t])[|steps + [step]|] == t;
  }

  lemma {:induction false} RunWorldsOk(states: seq<Sys>, steps: seq<Step>, how: Reads, n: nat)
    requires Run(states, steps, how) && n < |states|
    ensures TraceOk(states[n].trace)
  {
    if n > 0 {
      RunWorldsOk(states, steps, how, n - 1);
      if steps[n - 1].Write? {
        WriteKeepsTrace(states[n - 1].trace, steps[n - 1].v);
      }
    }
  }

  lemma ReachableWorldsOk(s: Sys, how: Reads)
    requires Reachable(s, how)
    ensures TraceOk(s.trace)
  {
    var states, steps :| Run(states, steps, how) && states[|steps|] == s;
    RunWorldsOk(states, steps, how, |steps|);
  }

  /** w's instance is purged. */
  function PurgedFrom(w: World): World { World(None, {}, w.spent + w.own) }

  /** ... and created anew under the same id. */
  function Recreated(w: World, reborn: Inst): World { World(Some(reborn), Firsts(reborn.history), w.spent + w.own) }

  lemma ReplacedMeanwhile(s: Sys, how: Reads, reborn: Inst) returns (t: Sys)
    requires Reachable(s, how) && s.trace[Now(s)].inst.Some?
    requires reborn.history != [] && reborn.history[0] !in s.trace[Now(s)].own + s.trace[Now(s)].spent
    ensures var w := s.trace[Now(s)];
            && Reachable(t, how)
            && t == Sys(s.trace + [PurgedFrom(w), Recreated(w, reborn)], s.entry, s.readers + [GotMeta(MetaOf(w), |s.trace| - 1)])
  {
    var w := s.trace[Now(s)];
    var u := Next(s, how, ReadMeta);
    var v := Next(u, how, Write(PurgedFrom(w)));
    t := Next(v, how, Write(Recreated(w, reborn)));
    assert t.trace == s.trace + [PurgedFrom(w), Recreated(w, reborn)];
  }

  lemma HeldAcrossReplacement(s: Sys, how: Reads, reborn: Inst) returns (t: Sys)
    requires Reachable(s, how) && how.heads.Torn? && s.trace[Now(s)].inst.Some?
    requires reborn.history != [] && reborn.history[0] !in s.trace[Now(s)].own + s.trace[Now(s)].spent
    ensures var w := s.trace[Now(s)];
            && Reachable(t, how)
            && t == Sys(s.trace + [PurgedFrom(w), Recreated(w, reborn)], None,
                        s.readers + [GotHead(MetaOf(w), Some(reborn.history[0]), |s.trace| - 1)])
  {
    var w := s.trace[Now(s)];
    var u := ReplacedMeanwhile(s, how, reborn);
    t := Next(u, how, ReadFirst(|s.readers|));
    t := Next(t, how, Forget);
  }

  function UpTo(n: nat): (keys: set<nat>)
    ensures forall k: nat :: k in keys <==> k < n
  {
    if n == 0 then {} else UpTo(n - 1) + {n - 1}
  }

  lemma MissAndBegin(s: Sys, how: Reads, r: nat) returns (t: Sys)
    requires Reachable(s, how) && s.entry.None? && r < |s.readers| && s.readers[r].GotHead? && Usable(s.readers[r].meta)
    ensures var rd := s.readers[r];
            && Reachable(t, how)
            && t == s.(readers := s.readers[r := Fetching(rd.meta, rd.first, rd.head, Now(s), rd.meta.value.length, map[])])
  {
    t := Next(s, how, Probe(r));
    t := Next(t, how, Begin(r));
  }

  lemma ReadAndFile(s: Sys, how: Reads, r: nat) returns (t: Sys)
    requires Reachable(s, how) && r < |s.readers| && s.readers[r].Fetching? && Usable(s.readers[r].meta) && s.readers[r].at == map[]
    ensures Reachable(t, how) && t.trace == s.trace && t.entry.Some?
    ensures var rd, e := s.readers[r], t.entry.value;
            && e.meta == rd.meta && e.first == rd.first && |e.got| == rd.n
            && forall k: nat :: k < |e.got| ==> e.got[k] == Piece(s.trace[Now(s)], k)
  {
    var rd := s.readers[r];
    var keys := UpTo(rd.n);
    assert rd.at.Keys + keys == keys;
    var u := Next(s, how, ReadKeys(r, keys));
    var at := u.readers[r].at;
    assert forall k: nat :: k < rd.n ==> k in at && at[k] == Now(s);
    t := Next(u, how, Finish(r));
  }

  lemma MisleadsIff(w: World, reborn: Inst, e: Entry)
    requires Usable(MetaOf(w)) && reborn.history != [] && WorldOk(Recreated(w, reborn))
    requires e.meta == MetaOf(w) && e.first == Some(reborn.history[0]) && |e.got| == |w.inst.value.history|
    requires forall k: nat :: k < |e.got| ==> e.got[k] == Piece(Recreated(w, reborn), k)
    ensures CanServeStale(Recreated(w, reborn), e) <==>
              (reborn.generation == w.inst.value.generation && |reborn.history| < |w.inst.value.history|)
              || (reborn.generation < w.inst.value.generation && |w.inst.value.history| > 1)
  {
    CanServeStaleIff(Recreated(w, reborn), e);
    assert |w.inst.value.history| == 1 ==> e.got == [e.first];
    assert |reborn.history| == |w.inst.value.history| ==> e.got == Pieces(reborn.history);
  }

  /** An instance purged and created anew between a reader's two reads: the reader files what it
      finds of the new one under the old one's metadata and the new one's first entry, and that can
      mislead a later reader exactly when the new one can still grow to the declared length. */
  lemma TornPut(s: Sys, how: Reads, reborn: Inst) returns (t: Sys)
    requires Reachable(s, how) && how.heads.Torn? && Usable(MetaOf(s.trace[Now(s)]))
    requires reborn.history != [] && reborn.history[0] !in s.trace[Now(s)].own + s.trace[Now(s)].spent
    ensures var w := s.trace[Now(s)];
            && Reachable(t, how) && t.trace == s.trace + [PurgedFrom(w), Recreated(w, reborn)]
            && t.entry.Some? && t.entry.value.meta == MetaOf(w) && t.entry.value.first == Some(reborn.history[0])
            && (CanServeStale(Recreated(w, reborn), t.entry.value) <==>
                  (reborn.generation == w.inst.value.generation && |reborn.history| < |w.inst.value.history|)
                  || (reborn.generation < w.inst.value.generation && |w.inst.value.history| > 1))
  {
    var w := s.trace[Now(s)];
    var held := HeldAcrossReplacement(s, how, reborn);
    assert held.trace[Now(held)] == Recreated(w, reborn);
    t := MissAndBegin(held, how, |s.readers|);
    t := ReadAndFile(t, how, |s.readers|);
    ReachableWorldsOk(t, how);
    assert WorldOk(t.trace[Now(t)]);
    MisleadsIff(w, reborn, t.entry.value);
  }

  lemma {:induction false} WriteAlong(s: Sys, how: Reads, path: seq<World>, n: nat) returns (t: Sys)
    requires Reachable(s, how) && Follows(path) && path[0] == s.trace[Now(s)] && n < |path|
    ensures Reachable(t, how) && t.trace[Now(t)] == path[n] && t.entry == s.entry && t.readers == s.readers
  {
    if n == 0 {
      t := s;
    } else {
      t := WriteAlong(s, how, path, n - 1);
      t := Next(t, how, Write(path[n]));
    }
  }

  lemma ConsistentReader(s: Sys, how: Reads) returns (t: Sys)
    requires Reachable(s, how)
    ensures Reachable(t, how)
    ensures var w := s.trace[Now(s)]; t == s.(readers := s.readers + [GotHead(MetaOf(w), FirstOf(w), Now(s))])
  {
    t := Next(s, how, ReadMeta);
    t := Next(t, how, ReadFirst(|s.readers|));
  }

  /** Whenever the condition holds, the run goes on to a reader whose own two reads are consistent, of
      an instance that does not change any more, and who is not answered with its history. */
  lemma TornReadGoesStale(s: Sys, how: Reads) returns (t: Sys)
    requires Reachable(s, how) && s.entry.Some? && CanServeStale(s.trace[Now(s)], s.entry.value)
    ensures Reachable(t, how) && |t.readers| == |s.readers| + 1
    ensures var v, rd := t.trace[Now(t)], t.readers[|s.readers|];
            && v.inst.Some? && rd.Returned? && rd.head == Now(t) && HeadAt(t.trace, rd.meta, rd.first, rd.head)
            && rd.answer.Found? && rd.answer.got != Pieces(v.inst.value.history)
  {
    var path :| Follows(path) && path[0] == s.trace[Now(s)] && ServesStale(path[|path| - 1], s.entry.value);
    var written := WriteAlong(s, how, path, |path| - 1);
    var u := ConsistentReader(written, how);
    t := Next(u, how, Probe(|s.readers|));
    assert t.readers[|s.readers|] == Returned(s.entry.value.meta, s.entry.value.first, Now(written), Found(s.entry.value.got));
  }

  /** What is filed, and when: a finished fetch under metadata that declares from one to a million
      entries, with the bytes of both of its head reads; nothing else changes the entry but forgetting. */
  lemma FilesIff(s: Sys, how: Reads, r: nat)
    requires s.trace != [] && Enabled(s, Finish(r), how)
    ensures var rd, t := s.readers[r], Apply(s, Finish(r), how);
            if rd.meta.Some? && 0 < rd.meta.value.length <= 1_000_000 then
              && t.entry.Some? && t.entry.value.meta == rd.meta && t.entry.value.first == rd.first && |t.entry.value.got| == rd.n
              && forall k: nat :: k < rd.n ==> t.entry.value.got[k] == Piece(s.trace[rd.at[k]], k)
            else t.entry == s.entry
  {
  }

  /** A probe hits exactly when the entry has both of the reader's head reads, and returns what was filed. */
  lemma HitsIff(s: Sys, how: Reads, r: nat)
    requires s.trace != [] && Enabled(s, Probe(r), how)
    ensures var rd, t := s.readers[r], Apply(s, Probe(r), how).readers[r];
            if rd.meta.Some? && s.entry.Some? && s.entry.value.meta == rd.meta && s.entry.value.first == rd.first then
              t == Returned(rd.meta, rd.first, rd.head, Found(s.entry.value.got))
            else t == Missed(rd.meta, rd.first, rd.head)
  {
  }

  /** A miss loads what its metadata declares, or what a scan finds now. */
  lemma BeginsWith(s: Sys, how: Reads, r: nat)
    requires s.trace != [] && Enabled(s, Begin(r), how)
    ensures var rd, t, w := s.readers[r], Apply(s, Begin(r), how).readers[r], s.trace[|s.trace| - 1];
            if rd.meta.Some? && 0 < rd.meta.value.length <= 1_000_000 then t.Fetching? && t.n == rd.meta.value.length && t.from == |s.trace| - 1
            else if w.inst.None? then t.Returned? && t.answer == Missing
            else t.Fetching? && t.n == |w.inst.value.history| && t.from == |s.trace| - 1
  {
  }

  // ---------- The cache object ----------

  const MaxCachedSummaries := 20_000

  datatype Cached<+S> = Cached(ns: string, appID: string, meta: Bytes, first: Option<Bytes>, summary: S)

  function CacheKey(ns: string, appID: string, id: string): string {
    ns + "\0" + appID + "\0" + id
  }

  lemma NulFreePrefix(a: string, x: string, b: string, y: string)
    requires '\0' !in a && '\0' !in b && a + "\0" + x == b + "\0" + y
    ensures a == b && x == y
  {
    var whole := a + "\0" + x;
    assert whole[|a|] == '\0' && whole[|b|] == '\0';
    assert forall i :: 0 <= i < |a| ==> whole[i] == a[i] && a[i] in a;
    assert forall i :: 0 <= i < |b| ==> whole[i] == b[i] && b[i] in b;
    assert |a| == |b|;
    assert a == whole[..|a|] == b && x == whole[|a| + 1..] == y;
  }

  /** Two instances never share a cache key, provided namespaces and app ids hold no NUL. */
  lemma CacheKeyIsUnique(ns: string, appID: string, id: string, ns': string, appID': string, id': string)
    requires '\0' !in ns && '\0' !in appID && '\0' !in ns' && '\0' !in appID'
    requires CacheKey(ns, appID, id) == CacheKey(ns', appID', id')
    ensures ns == ns' && appID == appID' && id == id'
  {
    assert CacheKey(ns, appID, id) == ns + "\0" + (appID + "\0" + id);
    assert CacheKey(ns', appID', id') == ns' + "\0" + (appID' + "\0" + id');
    NulFreePrefix(ns, appID + "\0" + id, ns', appID' + "\0" + id');
    NulFreePrefix(appID, id, appID', id');
  }

  type Cells<S> = map<string, Cached<S>>

  function GetOf<S>(m: Cells<S>, key: string, meta: Option<Bytes>, first: Option<Bytes>): Option<S> {
    if meta.Some? && key in m && m[key].meta == meta.value && m[key].first == first then Some(m[key].summary) else None
  }

  function PutOf<S>(m: Cells<S>, max: nat, key: string, e: Cached<S>): Cells<S> {
    if key !in m && |m| >= max then map[key := e] else m[key := e]
  }

  predicate Prunable<S>(e: Cached<S>, key: string, ns: string, appID: string, keep: set<string>) {
    e.ns == ns && (appID == "" || e.appID == appID) && key !in keep
  }

  function PruneOf<S>(m: Cells<S>, ns: string, appID: string, keep: set<string>): Cells<S> {
    map k | k in m && !Prunable(m[k], k, ns, appID, keep) :: m[k]
  }

  class Cache<S(==)> {
    const max: nat
    var m: Cells<S>

    constructor (max: nat)
      ensures this.max == max && m == map[]
    {
      this.max := max;
      m := map[];
    }

    /** Hits exactly on the entry under key whose two byte strings are both the caller's. */
    method Get(key: string, meta: Option<Bytes>, first: Option<Bytes>) returns (r: Option<S>)
      ensures r == GetOf(m, key, meta, first)
      ensures r.Some? <==> meta.Some? && key in m && m[key].meta == meta.value && m[key].first == first
      ensures r.Some? ==> r.value == m[key].summary
    {
      if meta.None? {
        return None;
      }
      if key !in m || m[key].meta != meta.value || m[key].first != first {
        return None;
      }
      r := Some(m[key].summary);
    }

    /** Every other key keeps its entry, unless a new key overflows the cache and all go. */
    method Put(key: string, ns: string, appID: string, meta: Bytes, first: Option<Bytes>, sum: S)
      modifies this
      ensures m == PutOf(old(m), max, key, Cached(ns, appID, meta, first, sum))
      ensures m == (if key in old(m) || |old(m)| < max then old(m) else map[])[key := Cached(ns, appID, meta, first, sum)]
      ensures |old(m)| <= max && max > 0 ==> |m| <= max
    {
      if key !in m && |m| >= max {
        m := map[];
      }
      m := m[key := Cached(ns, appID, meta, first, sum)];
    }

    /** Removes exactly the entries in scope that the scan did not see. */
    method Prune(ns: string, appID: string, keep: set<string>)
      modifies this
      ensures m == PruneOf(old(m), ns, appID, keep)
      ensures m == map k | k in old(m) && (k in keep || old(m)[k].ns != ns || (appID != "" && old(m)[k].appID != appID)) :: old(m)[k]
    {
      var todo := m.Keys;
      while todo != {}
        invariant todo <= m.Keys
        invariant m == map k | k in old(m) && (k in todo || !Prunable(old(m)[k], k, ns, appID, keep)) :: old(m)[k]
        decreases |todo|
      {
        var k :| k in todo;
        todo := todo - {k};
        var e := m[k];
        if e.ns != ns || (appID != "" && e.appID != appID) {
          continue;
        }
        if k !in keep {
          m := m - {k};
        }
      }
    }
  }

  // ---------- The object at one key is the machine's entry ----------

  /** How an instance's metadata is encoded, and the summary made of its entries. */
  datatype Coding<!S> = Coding(bytes: Meta -> Bytes, summary: seq<Option<Bytes>> -> S)

  ghost predicate Injective<S>(c: Coding<S>) { forall a: Meta, b: Meta :: c.bytes(a) == c.bytes(b) ==> a == b }

  function BytesOf<S>(c: Coding<S>, meta: Option<Meta>): Option<Bytes> {
    if meta.None? then None else Some(c.bytes(meta.value))
  }

  /** The cell under key is the machine's entry. */
  predicate Shows<S(==)>(m: Cells<S>, key: string, c: Coding<S>, entry: Option<Entry>) {
    && (key in m <==> entry.Some?)
    && (entry.Some? ==>
          && entry.value.meta.Some? && m[key].meta == c.bytes(entry.value.meta.value)
          && m[key].first == entry.value.first && m[key].summary == c.summary(entry.value.got))
  }

  /** Get hits exactly when the machine's probe does, with the summary of the same entries. */
  lemma GetIsProbe<S>(m: Cells<S>, key: string, c: Coding<S>, s: Sys, rd: Reader)
    requires Injective(c) && Shows(m, key, c, s.entry) && rd.GotHead?
    ensures GetOf(m, key, BytesOf(c, rd.meta), rd.first) ==
            if AfterProbe(s, rd).Returned? then Some(c.summary(AfterProbe(s, rd).answer.got)) else None
  {
  }

  /** Put files the machine's entry under its own key; to any other instance it is nothing, or its
      entry is forgotten. */
  lemma PutIsFinish<S>(m: Cells<S>, max: nat, key: string, c: Coding<S>, ns: string, appID: string, e: Entry, other: string, had: Option<Entry>)
    requires e.meta.Some? && Shows(m, other, c, had)
    ensures var m' := PutOf(m, max, key, Cached(ns, appID, c.bytes(e.meta.value), e.first, c.summary(e.got)));
            && Shows(m', key, c, Some(e))
            && (other != key ==> Shows(m', other, c, had) || Shows(m', other, c, None))
  {
  }

  /** Prune is nothing to an instance, or it forgets its entry. */
  lemma PruneIsForget<S>(m: Cells<S>, key: string, c: Coding<S>, entry: Option<Entry>, ns: string, appID: string, keep: set<string>)
    requires Shows(m, key, c, entry)
    ensures Shows(PruneOf(m, ns, appID, keep), key, c, entry) || Shows(PruneOf(m, ns, appID, keep), key, c, None)
    ensures key in keep ==> Shows(PruneOf(m, ns, appID, keep), key, c, entry)
  {
  }
}
