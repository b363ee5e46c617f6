/** Loading one workflow instance (pkg/workflow/service.go, decode.go) over chunked bulk reads
    (pkg/statestore/store.go). */
module Loader {
  import opened Options
  import opened Text
  import opened Keys
  import opened Like

  type Bytes = string
  type Db = map<string, Bytes>

  function Get(db: Db, key: string): Option<Bytes> { if key in db then Some(db[key]) else None }

  // ---------- Bulk reads ----------

  datatype Response = Response(key: string, data: Option<Bytes>, failed: bool)

  /** What a backend's BulkGet may answer: any order, repetitions and missing keys left out if it
      likes, but the truth about every key it mentions, and something about every key that exists
      or cannot be read. */
  ghost predicate Answers(db: Db, down: set<string>, reqs: seq<string>, resp: seq<Response>) {
    && (forall r <- resp :: r.failed <==> r.key in down && r.key in reqs)
    && (forall r <- resp :: !r.failed ==> r.data == Get(db, r.key))
    && (forall k <- reqs :: k in db || k in down ==> exists r :: r in resp && r.key == k)
  }

  method BackendBulkGet(db: Db, down: set<string>, reqs: seq<string>) returns (resp: seq<Response>)
    ensures Answers(db, down, reqs, resp)
  {
    resp := [];
    for i := 0 to |reqs|
      invariant forall r <- resp :: r.failed <==> r.key in down && r.key in reqs
      invariant forall r <- resp :: !r.failed ==> r.data == Get(db, r.key)
      invariant forall k <- reqs[..i] :: exists r :: r in resp && r.key == k
    {
      assert reqs[..i + 1] == reqs[..i] + [reqs[i]];
      var next := Response(reqs[i], Get(db, reqs[i]), reqs[i] in down);
      ghost var before := resp;
      resp := [next] + resp;
      assert forall r <- before :: r in resp;
      assert next in resp;
    }
    assert reqs[..|reqs|] == reqs;
  }

  /** The merge of one chunk's responses; fails on the first error in it. */
  method Merge(ghost db: Db, ghost down: set<string>, ghost reqs: seq<string>, resp: seq<Response>,
               out: map<string, Option<Bytes>>) returns (ok: bool, out': map<string, Option<Bytes>>)
    requires Answers(db, down, reqs, resp)
    requires forall k <- reqs :: k in out
    requires forall k <- out :: out[k] == if k in reqs then None else Get(db, k)
    ensures ok <==> forall k <- reqs :: k !in down
    ensures ok ==> out' == map k | k in out :: Get(db, k)
  {
    out' := out;
    for i := 0 to |resp|
      invariant out'.Keys == out.Keys
      invariant forall j :: 0 <= j < i ==> !resp[j].failed
      invariant forall k <- out' :: out'[k] == Get(db, k) || (out'[k] == None && k in reqs && forall j :: 0 <= j < i ==> resp[j].key != k)
    {
      if resp[i].failed {
        assert resp[i] in resp;
        return false, out';
      }
      assert resp[i] in resp;
      if resp[i].key in out' {
        out' := out'[resp[i].key := resp[i].data];
      }
    }
    ok := true;
  }

  /** For any chunk size above zero and any order of responses: the pointwise read of every
      requested key, or an error exactly when some requested key cannot be read. */
  method BulkGetChunked(db: Db, down: set<string>, keys: seq<string>, chunk: nat) returns (r: Option<map<string, Option<Bytes>>>)
    requires chunk > 0
    ensures r.Some? <==> forall k <- keys :: k !in down
    ensures r.Some? ==> r.value == map k | k in keys :: Get(db, k)
  {
    var out: map<string, Option<Bytes>>, start := map[], 0;
    while start < |keys|
      invariant start <= |keys|
      invariant out == map k | k in keys[..start] :: Get(db, k)
      invariant forall k <- keys[..start] :: k !in down
    {
      var end := if start + chunk < |keys| then start + chunk else |keys|;
      var reqs := keys[start..end];
      assert keys[..end] == keys[..start] + reqs;
      out := out + map k | k in reqs :: None;
      var resp := BackendBulkGet(db, down, reqs);
      var ok;
      ok, out := Merge(db, down, reqs, resp, out);
      if !ok {
        assert exists k <- reqs :: k in down;
        assert forall k <- reqs :: k in keys;
        return None;
      }
      start := end;
    }
    assert keys[..|keys|] == keys;
    r := Some(out);
  }

  // ---------- Decoding ----------

  datatype Execution<E> = Execution(events: seq<E>, customStatus: string)

  /** Unmarshals one stored event; None when it does not decode. */
  type Parser<!E> = Bytes -> Option<E>

  function Trim(k: string, prefix: string): string { if HasPrefix(k, prefix) then k[|prefix|..] else k }

  type Values = map<string, Option<Bytes>>

  predicate IsHistory(k: string, prefix: string, v: Option<Bytes>) {
    HasPrefix(Trim(k, prefix), HistoryPrefix) && v.Some? && v.value != ""
  }

  function HistoryKeysOf(prefix: string, values: Values): set<string> {
    set k | k in values && IsHistory(k, prefix, values[k])
  }

  function Parsed<E>(v: Option<Bytes>, parse: Parser<E>): seq<E> {
    if v.Some? && parse(v.value).Some? then [parse(v.value).value] else []
  }

  /** The decodable events behind keys, in the order of keys. */
  function Events<E>(keys: seq<string>, values: Values, parse: Parser<E>): seq<E> {
    if keys == [] then []
    else (if keys[0] in values then Parsed(values[keys[0]], parse) else []) + Events(keys[1..], values, parse)
  }

  lemma {:induction false} EventsSnoc<E>(keys: seq<string>, k: string, values: Values, parse: Parser<E>)
    ensures Events(keys + [k], values, parse) == Events(keys, values, parse) + if k in values then Parsed(values[k], parse) else []
  {
    if keys != [] {
      EventsSnoc(keys[1..], k, values, parse);
      assert (keys + [k])[1..] == keys[1..] + [k];
    }
  }

  function CustomStatusIn(prefix: string, values: Values): string {
    var k := prefix + SuffixCustomStatus;
    if k in values && values[k].Some? then values[k].value else ""
  }

  function TextOf(v: Option<Bytes>): string { if v.Some? then v.value else "" }

  /** The status is that of a key which, its prefix trimmed, is "customStatus": there can be two, the
      instance's own and a bare one, and the map's order decides. */
  ghost predicate StatusFrom(prefix: string, values: Values, customStatus: string) {
    StatusAmong(prefix, values, values.Keys, customStatus)
  }

  ghost predicate StatusAmong(prefix: string, values: Values, seen: set<string>, customStatus: string)
    requires seen <= values.Keys
  {
    if exists k <- seen :: Trim(k, prefix) == SuffixCustomStatus then
      exists k <- seen :: Trim(k, prefix) == SuffixCustomStatus && customStatus == TextOf(values[k])
    else customStatus == ""
  }

  lemma StatusSeen(prefix: string, values: Values, seen: set<string>, k: string, customStatus: string)
    requires seen <= values.Keys && k in values && StatusAmong(prefix, values, seen, customStatus)
    ensures StatusAmong(prefix, values, seen + {k}, if Trim(k, prefix) == SuffixCustomStatus then TextOf(values[k]) else customStatus)
  {
    if Trim(k, prefix) == SuffixCustomStatus {
      assert k in seen + {k};
    }
  }

  lemma StatusIsOwn(prefix: string, values: Values, customStatus: string)
    requires StatusFrom(prefix, values, customStatus)
    requires SuffixCustomStatus !in values || HasPrefix(SuffixCustomStatus, prefix)
    ensures customStatus == CustomStatusIn(prefix, values)
  {
    var own := prefix + SuffixCustomStatus;
    assert Trim(own, prefix) == SuffixCustomStatus;
    forall k <- values | Trim(k, prefix) == SuffixCustomStatus ensures k == own {
      assert HasPrefix(k, prefix);
      assert k == prefix + k[|prefix|..];
    }
  }

  /** decodeInstance, up to the pure DecodeExecution: the events in byte order of their keys. */
  method DecodeInstance<E>(prefix: string, values: Values, parse: Parser<E>) returns (ex: Execution<E>)
    ensures forall keys :: Listing(keys, HistoryKeysOf(prefix, values)) ==> ex.events == Events(keys, values, parse)
    ensures StatusFrom(prefix, values, ex.customStatus)
  {
    var historyKeys, customStatus := CollectHistory(prefix, values);
    SortLists(historyKeys, HistoryKeysOf(prefix, values));
    var sorted := StableSort(historyKeys, KeyBefore);
    var history := DecodeEvents(sorted, values, parse);
    forall keys | Listing(keys, HistoryKeysOf(prefix, values)) ensures history == Events(keys, values, parse) {
      ListingUnique(keys, sorted, HistoryKeysOf(prefix, values));
    }
    ex := Execution(history, customStatus);
  }

  /** The second loop, over the sorted keys. */
  method DecodeEvents<E>(sorted: seq<string>, values: Values, parse: Parser<E>) returns (history: seq<E>)
    requires forall k <- sorted :: k in values && values[k].Some?
    ensures history == Events(sorted, values, parse)
  {
    history := [];
    for i := 0 to |sorted|
      invariant history == Events(sorted[..i], values, parse)
    {
      assert sorted[..i + 1] == sorted[..i] + [sorted[i]];
      EventsSnoc(sorted[..i], sorted[i], values, parse);
      assert sorted[i] in sorted;
      var e := parse(values[sorted[i]].value);
      if e.None? {
        continue;
      }
      history := history + [e.value];
    }
    assert sorted[..|sorted|] == sorted;
  }

  /** The history keys among those seen so far, each once. */
  ghost predicate Collected(prefix: string, values: Values, seen: set<string>, historyKeys: seq<string>) {
    Distinct(historyKeys) && forall k :: k in historyKeys <==> k in seen && k in HistoryKeysOf(prefix, values)
  }

  lemma CollectOne(prefix: string, values: Values, seen: set<string>, historyKeys: seq<string>, k: string)
    requires Collected(prefix, values, seen, historyKeys) && k !in seen && k in values
    ensures Collected(prefix, values, seen + {k}, if IsHistory(k, prefix, values[k]) then historyKeys + [k] else historyKeys)
  {
    assert forall i :: 0 <= i < |historyKeys| ==> historyKeys[i] in historyKeys;
  }

  /** Which keys those are: non-empty entries whose text, after the prefix if they have it, starts with
      "history-". */
  lemma HistoryKeysIff(prefix: string, values: Values, k: string)
    ensures k in HistoryKeysOf(prefix, values) <==>
            k in values && values[k].Some? && values[k].value != "" &&
            if prefix <= k then prefix + "history-" <= k else "history-" <= k
  {
    if prefix <= k {
      assert k == prefix + Trim(k, prefix);
    }
  }

  /** The first loop of decodeInstance, over the map in whatever order it comes. */
  method CollectHistory(prefix: string, values: Values) returns (historyKeys: seq<string>, customStatus: string)
    ensures Distinct(historyKeys) && forall k :: k in historyKeys <==> k in HistoryKeysOf(prefix, values)
    ensures StatusFrom(prefix, values, customStatus)
  {
    historyKeys, customStatus := [], "";
    var todo := values.Keys;
    while todo != {}
      invariant todo <= values.Keys
      invariant Collected(prefix, values, values.Keys - todo, historyKeys)
      invariant StatusAmong(prefix, values, values.Keys - todo, customStatus)
      decreases |todo|
    {
      var k :| k in todo;
      assert values.Keys - (todo - {k}) == values.Keys - todo + {k};
      historyKeys, customStatus := CollectKey(prefix, values, values.Keys - todo, k, historyKeys, customStatus);
      todo := todo - {k};
    }
    assert values.Keys - {} == values.Keys;
  }

  method CollectKey(prefix: string, values: Values, ghost seen: set<string>, k: string, keys: seq<string>, status: string)
      returns (historyKeys: seq<string>, customStatus: string)
    requires seen <= values.Keys && k in values && k !in seen
    requires Collected(prefix, values, seen, keys) && StatusAmong(prefix, values, seen, status)
    ensures Collected(prefix, values, seen + {k}, historyKeys) && StatusAmong(prefix, values, seen + {k}, customStatus)
  {
    StatusSeen(prefix, values, seen, k, status);
    CollectOne(prefix, values, seen, keys, k);
    historyKeys, customStatus := keys, status;
    var suffix := Trim(k, prefix);
    if HasPrefix(suffix, HistoryPrefix) {
      if values[k].Some? && values[k].value != "" {
        historyKeys := historyKeys + [k];
      }
    } else if suffix == SuffixCustomStatus {
      customStatus := TextOf(values[k]);
    }
  }

  // ---------- The two loaders ----------

  const MaxHistoryEntries := 1_000_000
  const BulkGetChunk := 100

  /** The history length a metadata record declares, if it is one the loader can use; declared is
      what the record decodes to. */
  function HistoryLength(declared: Option<nat>): Option<nat> {
    if declared.Some? && 0 < declared.value <= MaxHistoryEntries then declared else None
  }

  function EntryKey(prefix: string, i: nat): string { prefix + HistoryKey(i) }

  function HistoryKeys(prefix: string, n: nat): seq<string> {
    seq(n, i requires 0 <= i < n => EntryKey(prefix, i))
  }

  /** The store holds, under the prefix, exactly the history entries 0 to n - 1. */
  ghost predicate HoldsHistory(db: Db, prefix: string, n: nat) {
    forall k :: k in db && HasPrefix(k, prefix + HistoryPrefix) <==> k in HistoryKeys(prefix, n)
  }

  /** What both loaders should give: entry 0, entry 1, ... with empty and undecodable ones skipped. */
  function Chronological<E>(db: Db, prefix: string, n: nat, parse: Parser<E>): seq<E> {
    if n == 0 then []
    else Chronological(db, prefix, n - 1, parse)
         + var v := Get(db, EntryKey(prefix, n - 1));
           if v.Some? && v.value != "" then Parsed(v, parse) else []
  }

  function Stored<E>(db: Db, prefix: string, n: nat, parse: Parser<E>): Execution<E> {
    var cs := Get(db, prefix + SuffixCustomStatus);
    Execution(Chronological(db, prefix, n, parse), if cs.Some? then cs.value else "")
  }

  lemma HistoryKeysAre(prefix: string, n: nat, k: string)
    ensures k in HistoryKeys(prefix, n) <==> exists i: nat :: i < n && k == EntryKey(prefix, i)
    ensures n > 0 ==> HistoryKeys(prefix, n) == HistoryKeys(prefix, n - 1) + [EntryKey(prefix, n - 1)]
  {
    var key := (i: nat) => EntryKey(prefix, i);
    AreSeq(n, key, k, HistoryKeys(prefix, n));
    assert forall i: nat :: key(i) == EntryKey(prefix, i);
    if n > 0 {
      AreSnoc(n, key, HistoryKeys(prefix, n), HistoryKeys(prefix, n - 1));
    }
  }

  lemma AreSeq(n: nat, key: nat -> string, k: string, keys: seq<string>)
    requires |keys| == n && forall i: nat :: i < n ==> keys[i] == key(i)
    ensures k in keys <==> exists i: nat :: i < n && k == key(i)
  {
  }

  lemma AreSnoc(n: nat, key: nat -> string, keys: seq<string>, before: seq<string>)
    requires n > 0 && |keys| == n && |before| == n - 1
    requires (forall i: nat :: i < n ==> keys[i] == key(i)) && forall i: nat :: i < n - 1 ==> before[i] == key(i)
    ensures keys == before + [key(n - 1)]
  {
  }

  /** The keys of the non-empty entries among the first n. */
  function Filled(db: Db, prefix: string, n: nat): seq<string> {
    if n == 0 then []
    else Filled(db, prefix, n - 1)
         + if Get(db, EntryKey(prefix, n - 1)).Some? && db[EntryKey(prefix, n - 1)] != "" then [EntryKey(prefix, n - 1)] else []
  }

  function FilledKeys(db: Db, prefix: string, n: nat): set<string> {
    set k | k in HistoryKeys(prefix, n) && k in db && db[k] != ""
  }

  lemma EntriesComeBefore(prefix: string, n: nat, k: string)
    requires n < MaxHistoryEntries && k in HistoryKeys(prefix, n)
    ensures Less(k, EntryKey(prefix, n))
  {
    HistoryKeysAre(prefix, n, k);
    var i: nat :| i < n && k == EntryKey(prefix, i);
    HistoryKeyMonotone(i, n);
    LessUnderPrefix(prefix, HistoryKey(i), HistoryKey(n));
  }

  lemma {:induction false} FilledLists(db: Db, prefix: string, n: nat)
    requires n <= MaxHistoryEntries
    ensures Listing(Filled(db, prefix, n), FilledKeys(db, prefix, n))
  {
    if n > 0 {
      FilledLists(db, prefix, n - 1);
      HistoryKeysAre(prefix, n, "");
      var before, key := Filled(db, prefix, n - 1), EntryKey(prefix, n - 1);
      forall j | 0 <= j < |before| ensures Less(before[j], key) {
        assert before[j] in before;
        EntriesComeBefore(prefix, n - 1, before[j]);
      }
    }
  }

  lemma {:induction false} FilledEvents<E>(db: Db, prefix: string, n: nat, values: Values, parse: Parser<E>)
    requires forall k <- HistoryKeys(prefix, n) :: k in db ==> k in values && values[k] == Get(db, k)
    ensures Events(Filled(db, prefix, n), values, parse) == Chronological(db, prefix, n, parse)
  {
    if n > 0 {
      HistoryKeysAre(prefix, n, "");
      FilledEvents(db, prefix, n - 1, values, parse);
      var key := EntryKey(prefix, n - 1);
      EventsSnoc(Filled(db, prefix, n - 1), key, values, parse);
      assert key in HistoryKeys(prefix, n);
      if key in db && db[key] != "" {
        assert Filled(db, prefix, n) == Filled(db, prefix, n - 1) + [key];
      } else {
        assert Filled(db, prefix, n) == Filled(db, prefix, n - 1);
      }
    }
  }

  lemma HistoryOrForeign(db: Db, prefix: string, n: nat, values: Values, k: string)
    requires HoldsHistory(db, prefix, n)
    requires forall k <- values :: values[k] == Get(db, k)
    requires forall k <- HistoryKeys(prefix, n) :: k in values
    ensures k in HistoryKeysOf(prefix, values) <==>
            k in FilledKeys(db, prefix, n) || (k in values && ForeignEvent(k, prefix, values[k]))
  {
    if HasPrefix(k, prefix) {
      assert k == prefix + k[|prefix|..];
      assert HasPrefix(k[|prefix|..], HistoryPrefix) <==> HasPrefix(k, prefix + HistoryPrefix);
    }
    if k in HistoryKeys(prefix, n) {
      HistoryKeysAre(prefix, n, k);
    }
  }

  lemma {:induction false} AllDecode<E>(keys: seq<string>, values: Values, parse: Parser<E>)
    requires (forall b :: parse(b).Some?) && forall k <- keys :: k in values && values[k].Some?
    ensures |Events(keys, values, parse)| == |keys|
  {
    if keys != [] {
      AllDecode(keys[1..], values, parse);
    }
  }

  lemma {:induction false} ListingSize(s: seq<string>, keys: set<string>)
    requires Listing(s, keys)
    ensures |s| == |keys|
    decreases |s|
  {
    if s == [] {
      assert keys == {};
    } else {
      assert s[0] in s;
      TailLists(s, keys);
      ListingSize(s[1..], keys - {s[0]});
    }
  }

  /** While every entry decodes, what is decoded is the stored history exactly when the read brings no
      foreign event. */
  lemma DecodesToStoredIff<E>(db: Db, prefix: string, n: nat, values: Values, parse: Parser<E>, keys: seq<string>)
    requires n <= MaxHistoryEntries && HoldsHistory(db, prefix, n) && forall b :: parse(b).Some?
    requires forall k <- values :: values[k] == Get(db, k)
    requires forall k <- HistoryKeys(prefix, n) :: k in values
    requires Listing(keys, HistoryKeysOf(prefix, values))
    ensures Events(keys, values, parse) == Chronological(db, prefix, n, parse) <==> forall k <- values :: !ForeignEvent(k, prefix, values[k])
  {
    var filled, all := FilledKeys(db, prefix, n), HistoryKeysOf(prefix, values);
    forall k ensures k in all <==> k in filled || (k in values && ForeignEvent(k, prefix, values[k])) {
      HistoryOrForeign(db, prefix, n, values, k);
    }
    FilledLists(db, prefix, n);
    FilledEvents(db, prefix, n, values, parse);
    if forall k <- values :: !ForeignEvent(k, prefix, values[k]) {
      assert all == filled;
      ListingUnique(keys, Filled(db, prefix, n), filled);
    } else {
      var k :| k in values && ForeignEvent(k, prefix, values[k]);
      OwnKeysOnly(prefix, n, k);
      assert k in all && k !in filled && filled <= all - {k};
      SubsetSize(filled, all - {k});
      ListingSize(keys, all);
      ListingSize(Filled(db, prefix, n), filled);
      AllDecode(keys, values, parse);
      AllDecode(Filled(db, prefix, n), values, parse);
    }
  }

  lemma OwnKeysOnly(prefix: string, n: nat, k: string)
    requires !HasPrefix(k, prefix)
    ensures k !in HistoryKeys(prefix, n)
  {
    HistoryKeysAre(prefix, n, k);
  }

  lemma {:induction false} SubsetSize(a: set<string>, b: set<string>)
    requires a <= b
    ensures |a| <= |b|
    decreases |a|
  {
    if x :| x in a {
      SubsetSize(a - {x}, b - {x});
    }
  }

  /** A key outside the prefix keeps its whole text when decoding trims the prefix; if that reads like
      a history key its value is taken for an event of the instance. */
  predicate ForeignEvent(k: string, prefix: string, v: Option<Bytes>) { IsHistory(k, prefix, v) && !HasPrefix(k, prefix) }

  /** Any read of the store that covers the instance's entries, and brings no such key, decodes to its
      stored history. */
  lemma DecodesToStored<E>(db: Db, prefix: string, n: nat, values: Values, parse: Parser<E>, events: seq<E>)
    requires n <= MaxHistoryEntries && HoldsHistory(db, prefix, n)
    requires forall k <- values :: !ForeignEvent(k, prefix, values[k])
    requires forall k <- values :: values[k] == Get(db, k)
    requires forall k <- HistoryKeys(prefix, n) :: k in values
    requires forall keys :: Listing(keys, HistoryKeysOf(prefix, values)) ==> events == Events(keys, values, parse)
    ensures events == Chronological(db, prefix, n, parse)
  {
    forall k ensures k in HistoryKeysOf(prefix, values) <==> k in FilledKeys(db, prefix, n) {
      HistoryOrForeign(db, prefix, n, values, k);
    }
    assert HistoryKeysOf(prefix, values) == FilledKeys(db, prefix, n);
    FilledLists(db, prefix, n);
    FilledEvents(db, prefix, n, values, parse);
  }

  /** The fast path: keys built from the declared length, one bulk read, no scan. */
  method LoadWithMeta<E>(db: Db, down: set<string>, prefix: string, n: nat, parse: Parser<E>) returns (r: Option<Execution<E>>)
    requires 0 < n <= MaxHistoryEntries
    ensures r.Some? <==> forall k <- HistoryKeys(prefix, n) + [prefix + SuffixCustomStatus] :: k !in down
    ensures r.Some? && HoldsHistory(db, prefix, n) ==> r.value == Stored(db, prefix, n, parse)
  {
    var keys: seq<string> := [];
    for i := 0 to n
      invariant keys == HistoryKeys(prefix, i)
    {
      HistoryKeysAre(prefix, i + 1, "");
      keys := keys + [EntryKey(prefix, i)];
    }
    keys := keys + [prefix + SuffixCustomStatus];
    var values := BulkGetChunked(db, down, keys, BulkGetChunk);
    if values.None? {
      return None;
    }
    forall k | k in keys ensures HasPrefix(k, prefix) {
      HistoryKeysAre(prefix, n, k);
    }
    var ex := DecodeInstance(prefix, values.value, parse);
    StatusIsOwn(prefix, values.value, ex.customStatus);
    if HoldsHistory(db, prefix, n) {
      DecodesToStored(db, prefix, n, values.value, parse, ex.events);
    }
    r := Some(ex);
  }

  datatype Outcome<E> = Loaded(ex: Execution<E>) | NotFound | Unreadable

  method ScanKeys(db: Db, pattern: string) returns (keys: seq<string>)
    ensures forall k :: k in keys <==> k in db && Matches(pattern, k)
    ensures Distinct(keys)
  {
    keys := [];
    var todo := db.Keys;
    while todo != {}
      invariant todo <= db.Keys
      invariant forall k :: k in keys <==> k in db && k !in todo && Matches(pattern, k)
      invariant Distinct(keys)
      decreases |todo|
    {
      var k :| k in todo;
      todo := todo - {k};
      if Matches(pattern, k) {
        assert forall i :: 0 <= i < |keys| ==> keys[i] in keys;
        keys := keys + [k];
      }
    }
  }

  lemma PrefixScanned(prefix: string, k: string)
    requires '\\' !in prefix && HasPrefix(k, prefix)
    ensures Matches(prefix + "%", k)
  {
    PercentMatchesAll(k[|prefix|..]);
    FittingMatches(prefix, prefix, "%", k[|prefix|..]);
    assert k == prefix + k[|prefix|..];
  }

  /** An instance's prefix ends in a delimiter. */
  predicate EndsInDelimiter(prefix: string) { |prefix| >= 2 && prefix[|prefix| - 2..] == KeyDelimiter }

  predicate ScanFindsNothing(db: Db, prefix: string) { forall k <- db :: !Matches(prefix + "%", k) }

  predicate HasNoKey(db: Db, prefix: string) { forall k <- db :: !HasPrefix(k, prefix) }

  /** The scan finds all of an instance's own keys, whatever they are, exactly when its prefix holds no
      backslash; with one it finds none of them. */
  lemma ScanCoversIff(prefix: string)
    requires EndsInDelimiter(prefix) && '%' !in prefix
    ensures (forall k: string | HasPrefix(k, prefix) :: Matches(prefix + "%", k)) <==> '\\' !in prefix
    ensures '\\' in prefix ==> forall k: string | HasPrefix(k, prefix) :: !Matches(prefix + "%", k)
  {
    forall k: string | HasPrefix(k, prefix) ensures Matches(prefix + "%", k) <==> '\\' !in prefix {
      if '\\' in prefix {
        assert k == prefix + k[|prefix|..];
        EscapeMissesPrefix(prefix, k[|prefix|..]);
      } else {
        PrefixScanned(prefix, k);
      }
    }
    assert HasPrefix(prefix, prefix);
  }

  /** On all stores, a scan finds nothing exactly when the instance has no key, if and only if its
      prefix holds no metacharacter. */
  lemma NothingScannedMeansAbsentIff(prefix: string)
    requires EndsInDelimiter(prefix)
    ensures (forall db: Db :: ScanFindsNothing(db, prefix) <==> HasNoKey(db, prefix)) <==> MetaFree(prefix)
  {
    PrefixPatternExactIff(prefix);
    if !MetaFree(prefix) {
      var i := FirstMeta(prefix);
      var key := MetaPrefixOvermatches(prefix, i);
      var db: Db := map[key := ""];
      assert key in db && HasNoKey(db, prefix) && !ScanFindsNothing(db, prefix);
    }
  }

  /** The two paths apart: an instance whose id holds a backslash is loaded by its metadata and not
      found by the scan, though nothing but its own keys is stored. */
  lemma BackslashPathsDiffer(db: Db, prefix: string, n: nat)
    requires EndsInDelimiter(prefix) && '%' !in prefix && '\\' in prefix
    requires n > 0 && HoldsHistory(db, prefix, n) && forall k <- db :: HasPrefix(k, prefix)
    ensures !HasNoKey(db, prefix) && ScanFindsNothing(db, prefix)
  {
    HistoryKeysAre(prefix, n, EntryKey(prefix, 0));
    assert EntryKey(prefix, 0) in HistoryKeys(prefix, n);
    ScanCoversIff(prefix);
  }

  // ---------- What else the scan finds ----------

  function ScannedValues(db: Db, prefix: string): Values { map k | k in db && Matches(prefix + "%", k) :: Get(db, k) }

  /** The scan brings an event that is not the instance's. */
  predicate PicksUpForeign(db: Db, prefix: string) {
    exists k <- db :: Matches(prefix + "%", k) && ForeignEvent(k, prefix, Get(db, k))
  }

  /** Some string that starts with h is matched by p and a percent. */
  predicate CanStart(p: string, h: string) {
    if h == "" || p == "" then true
    else if p[0] == '%' then true
    else if p[0] == '_' then CanStart(p[1..], h[1..])
    else if p[0] == '\\' then |p| > 1 && p[1] == h[0] && CanStart(p[2..], h[1..])
    else p[0] == h[0] && CanStart(p[1..], h[1..])
  }

  lemma {:induction false} MatchStarts(p: string, h: string, k: string)
    requires MetaFree(h) && Matches(p + "%", k) && HasPrefix(k, h)
    ensures CanStart(p, h)
    decreases |p|
  {
    if h != "" && p != "" && p[0] != '%' {
      assert k[0] == h[0] && h <= k && h[1..] <= k[1..];
      if p[0] == '\\' {
        assert |p| > 1 && (p + "%")[2..] == p[2..] + "%";
        MatchStarts(p[2..], h[1..], k[1..]);
      } else {
        assert (p + "%")[1..] == p[1..] + "%";
        MatchStarts(p[1..], h[1..], k[1..]);
      }
    }
  }

  lemma PercentTakes(q: string, h: string)
    requires q == "" || q[|q| - 1] == '%'
    ensures Matches("%" + q, h + Sample(q))
  {
    PercentSkips(q, h + Sample(q));
    assert (h + Sample(q))[|h|..] == Sample(q);
  }

  lemma {:induction false} StartMatches(p: string, h: string) returns (k: string)
    requires MetaFree(h) && CanStart(p, h)
    ensures Matches(p + "%", k) && HasPrefix(k, h)
    decreases |p|
  {
    if h == "" {
      k := Sample(p + "%");
    } else if p == "" {
      k := h;
      PercentMatchesAll(h);
      assert p + "%" == "%";
    } else if p[0] == '%' {
      k := h + Sample(p[1..] + "%");
      PercentTakes(p[1..] + "%", h);
      assert p + "%" == "%" + (p[1..] + "%");
      assert Matches(p + "%", k) && HasPrefix(k, h);
    } else {
      var used := if p[0] == '\\' then 2 else 1;
      var rest := StartMatches(p[used..], h[1..]);
      k := [h[0]] + rest;
      assert (p + "%")[used..] == p[used..] + "%" && k[1..] == rest;
      PrefixByHead(k, h);
      assert (p + "%")[0] == p[0] && Matches((p + "%")[used..], k[1..]);
      assert Matches(p + "%", k);
    }
  }

  lemma PrefixByHead(k: string, p: string)
    requires k != "" && p != ""
    ensures HasPrefix(k, p) <==> k[0] == p[0] && HasPrefix(k[1..], p[1..])
  {
    assert k == [k[0]] + k[1..] && p == [p[0]] + p[1..];
  }

  /** The same, outside the prefix. */
  lemma {:induction false} StartOutside(p: string, h: string) returns (k: string)
    requires MetaFree(h) && CanStart(p, h) && !MetaFree(p)
    ensures Matches(p + "%", k) && HasPrefix(k, h) && !HasPrefix(k, p)
    decreases |p|
  {
    if h == "" {
      var i := FirstMeta(p);
      k := MetaPrefixOvermatches(p, i);
    } else if Meta(p[0]) {
      k := StartMatches(p, h);
      assert k[0] == h[0] != p[0];
    } else {
      assert p == [p[0]] + p[1..];
      var rest := StartOutside(p[1..], h[1..]);
      k := [h[0]] + rest;
      assert (p + "%")[1..] == p[1..] + "%" && k[1..] == rest;
      PrefixByHead(k, p);
    }
  }

  /** On some store the scan brings a foreign event, if and only if the prefix holds a metacharacter
      and its pattern can match something that starts with "history-". */
  lemma ForeignScannedIff(prefix: string)
    ensures (exists db: Db :: PicksUpForeign(db, prefix)) <==> !MetaFree(prefix) && CanStart(prefix, HistoryPrefix)
  {
    if db: Db :| PicksUpForeign(db, prefix) {
      var k :| k in db && Matches(prefix + "%", k) && ForeignEvent(k, prefix, Get(db, k));
      MatchStarts(prefix, HistoryPrefix, k);
      PrefixPatternExactIff(prefix);
    }
    if !MetaFree(prefix) && CanStart(prefix, HistoryPrefix) {
      var k := StartOutside(prefix, HistoryPrefix);
      var db: Db := map[k := "x"];
      assert k in db && ForeignEvent(k, prefix, Get(db, k));
      assert PicksUpForeign(db, prefix);
    }
  }

  lemma {:induction false} CanStartIff(a: string, rest: string, h: string)
    requires '%' !in a && '\\' !in a && rest != "" && rest[0] !in h && !Meta(rest[0])
    ensures CanStart(a + rest, h) <==> |h| <= |a| && Fits(a[..|h|], h)
    decreases |a|
  {
    if h != "" {
      var p := a + rest;
      assert h == [h[0]] + h[1..];
      if a == "" {
        assert p == rest;
      } else {
        assert a == [a[0]] + a[1..] && p[0] == a[0] && p[1..] == a[1..] + rest;
        CanStartIff(a[1..], rest, h[1..]);
        if |h| <= |a| {
          assert a[..|h|][1..] == a[1..][..|h[1..]|] && a[..|h|][0] == a[0];
          FitsCons(a[..|h|], h);
        }
      }
    }
  }

  lemma FitsCons(p: string, s: string)
    requires p != "" && s != ""
    ensures Fits(p, s) <==> p[0] != '\\' && (p[0] == s[0] || p[0] == '_') && Fits(p[1..], s[1..])
  {
    assert p == [p[0]] + p[1..] && s == [s[0]] + s[1..];
  }

  /** For an app id with neither percent nor backslash: its prefix holds an underscore (or ns or id
      holds a metacharacter) and its first eight characters read "history-", up to underscores. */
  lemma ForeignAppIff(ns: string, appID: string, id: string)
    requires '%' !in appID && '\\' !in appID
    ensures var prefix := InstancePrefix(ns, appID, id);
            (exists db: Db :: PicksUpForeign(db, prefix)) <==>
            !MetaFree(prefix) && |appID| >= 8 && Fits(appID[..8], HistoryPrefix)
  {
    var rest := KeyDelimiter + (WorkflowActorType(ns, appID) + KeyDelimiter + id + KeyDelimiter);
    assert InstancePrefix(ns, appID, id) == appID + rest;
    assert rest[0] == '|';
    assert |HistoryPrefix| == 8 && '|' !in HistoryPrefix && MetaFree(HistoryPrefix);
    CanStartIff(appID, rest, HistoryPrefix);
    ForeignScannedIff(InstancePrefix(ns, appID, id));
  }

  /** The scan of app history_x's instance takes an event of app history-x's instance of the same id
      for its own, and then its answer is not the stored history. */
  lemma SiblingEventsMixIn(ns: string, x: string, id: string, db: Db, n: nat, keys: seq<string>)
    requires '\\' !in ns && '\\' !in x && '\\' !in id
    requires var k := InstancePrefix(ns, "history-" + x, id) + HistoryKey(0); k in db && db[k] != ""
    requires n <= MaxHistoryEntries && HoldsHistory(db, InstancePrefix(ns, "history_" + x, id), n)
    ensures var prefix := InstancePrefix(ns, "history_" + x, id);
            && PicksUpForeign(db, prefix)
            && (Listing(keys, HistoryKeysOf(prefix, ScannedValues(db, prefix))) ==>
                  Events(keys, ScannedValues(db, prefix), (b: Bytes) => Some(b)) != Chronological(db, prefix, n, (b: Bytes) => Some(b)))
  {
    SiblingPickedUp(ns, x, id, db);
    if Listing(keys, HistoryKeysOf(InstancePrefix(ns, "history_" + x, id), ScannedValues(db, InstancePrefix(ns, "history_" + x, id)))) {
      ForeignMixesIn(db, InstancePrefix(ns, "history_" + x, id), n, keys);
    }
  }

  lemma SiblingPickedUp(ns: string, x: string, id: string, db: Db)
    requires '\\' !in ns && '\\' !in x && '\\' !in id
    requires var k := InstancePrefix(ns, "history-" + x, id) + HistoryKey(0); k in db && db[k] != ""
    ensures var prefix := InstancePrefix(ns, "history_" + x, id); '\\' !in prefix && PicksUpForeign(db, prefix)
  {
    var appID, sibling := "history_" + x, "history-" + x;
    var prefix, other := InstancePrefix(ns, appID, id), InstancePrefix(ns, sibling, id);
    var k := other + HistoryKey(0);
    SiblingPrefixFits(ns, x, id);
    PercentMatchesAll(HistoryKey(0));
    FittingMatches(prefix, other, "%", HistoryKey(0));
    assert k[7] == '-' && prefix[7] == '_' && HasPrefix(k, HistoryPrefix);
    assert ForeignEvent(k, prefix, Get(db, k));
  }

  lemma ForeignMixesIn(db: Db, prefix: string, n: nat, keys: seq<string>)
    requires '\\' !in prefix && PicksUpForeign(db, prefix) && n <= MaxHistoryEntries && HoldsHistory(db, prefix, n)
    requires Listing(keys, HistoryKeysOf(prefix, ScannedValues(db, prefix)))
    ensures Events(keys, ScannedValues(db, prefix), (b: Bytes) => Some(b)) != Chronological(db, prefix, n, (b: Bytes) => Some(b))
  {
    ScanCovers(db, prefix, n);
    var k :| k in db && Matches(prefix + "%", k) && ForeignEvent(k, prefix, Get(db, k));
    assert k in ScannedValues(db, prefix);
    DecodesToStoredIff(db, prefix, n, ScannedValues(db, prefix), (b: Bytes) => Some(b), keys);
  }

  lemma SiblingPrefixFits(ns: string, x: string, id: string)
    requires '\\' !in ns && '\\' !in x && '\\' !in id
    ensures Fits(InstancePrefix(ns, "history_" + x, id), InstancePrefix(ns, "history-" + x, id))
    ensures '\\' !in InstancePrefix(ns, "history_" + x, id)
  {
    var appID, sibling, tail := "history_" + x, "history-" + x, id + KeyDelimiter;
    FitsSelf(x);
    FitsConcat("history_", "history-", x, x);
    FitsInPlace(ns, appID, sibling);
    FitsSelf(tail);
    FitsConcat(Lead(ns, appID), Lead(ns, sibling), tail, tail);
    assert InstancePrefix(ns, appID, id) == Lead(ns, appID) + tail && InstancePrefix(ns, sibling, id) == Lead(ns, sibling) + tail;
    var p := InstancePrefix(ns, appID, id);
    forall i | 0 <= i < |p| ensures p[i] != '\\' {
    }
  }

  /** Without a backslash the scan covers what is stored of the instance. */
  lemma ScanCovers(db: Db, prefix: string, n: nat)
    requires '\\' !in prefix && HoldsHistory(db, prefix, n)
    ensures forall k <- HistoryKeys(prefix, n) :: k in ScannedValues(db, prefix)
  {
    forall k <- HistoryKeys(prefix, n) ensures k in ScannedValues(db, prefix) {
      HistoryKeysAre(prefix, n, k);
      PrefixScanned(prefix, k);
    }
  }

  lemma {:induction false} MatchHasBar(q: string, s: string)
    requires q != "" && q[|q| - 1] == '|' && Matches(q + "%", s)
    ensures '|' in s
    decreases |q|, |s|
  {
    var p := q + "%";
    if q[0] == '%' {
      assert p[1..] == q[1..] + "%";
      if Matches(p[1..], s) {
        MatchHasBar(q[1..], s);
      } else {
        MatchHasBar(q, s[1..]);
      }
    } else {
      var used := if q[0] == '\\' then 2 else 1;
      if |q| == used {
        assert s[0] == '|';
      } else {
        assert p[used..] == q[used..] + "%";
        MatchHasBar(q[used..], s[1..]);
      }
    }
  }

  /** An instance's scan never finds a bare status key. */
  lemma StatusScannedIsOwn(db: Db, prefix: string, customStatus: string)
    requires EndsInDelimiter(prefix) && '\\' !in prefix && StatusFrom(prefix, ScannedValues(db, prefix), customStatus)
    ensures customStatus == TextOf(Get(db, prefix + SuffixCustomStatus))
  {
    if Matches(prefix + "%", SuffixCustomStatus) {
      MatchHasBar(prefix, SuffixCustomStatus);
    }
    StatusIsOwn(prefix, ScannedValues(db, prefix), customStatus);
    PrefixScanned(prefix, prefix + SuffixCustomStatus);
  }

  // ---------- Loading ----------

  /** The scan: discover the keys, then read them.  The pattern is not escaped: it may pick up other
      instances' keys, which decoding ignores unless they read like bare history keys, and misses its
      own when an id holds a backslash. */
  method LoadByScan<E>(db: Db, down: set<string>, prefix: string, parse: Parser<E>) returns (r: Outcome<E>)
    requires EndsInDelimiter(prefix)
    ensures r.NotFound? <==> ScanFindsNothing(db, prefix)
    ensures r.NotFound? && '\\' !in prefix ==> HasNoKey(db, prefix)
    ensures r.Unreadable? <==> exists k <- db :: Matches(prefix + "%", k) && k in down
    ensures r.Loaded? ==> forall keys :: Listing(keys, HistoryKeysOf(prefix, ScannedValues(db, prefix))) ==>
              r.ex.events == Events(keys, ScannedValues(db, prefix), parse)
    ensures r.Loaded? && '\\' !in prefix ==> r.ex.customStatus == TextOf(Get(db, prefix + SuffixCustomStatus))
    ensures r.Loaded? && '\\' !in prefix && !PicksUpForeign(db, prefix) ==>
              forall n: nat :: n <= MaxHistoryEntries && HoldsHistory(db, prefix, n) ==> r.ex == Stored(db, prefix, n, parse)
  {
    var keys := ScanKeys(db, prefix + "%");
    if '\\' !in prefix {
      forall k | k in db && HasPrefix(k, prefix) ensures k in keys {
        PrefixScanned(prefix, k);
      }
    }
    if |keys| == 0 {
      return NotFound;
    }
    assert keys[0] in keys;
    var values := BulkGetChunked(db, down, keys, BulkGetChunk);
    if values.None? {
      return Unreadable;
    }
    assert values.value == ScannedValues(db, prefix);
    var ex := DecodeInstance(prefix, values.value, parse);
    if '\\' !in prefix {
      StatusScannedIsOwn(db, prefix, ex.customStatus);
      ScannedToStored(db, prefix, parse, ex);
    }
    r := Loaded(ex);
  }

  lemma ScannedToStored<E>(db: Db, prefix: string, parse: Parser<E>, ex: Execution<E>)
    requires '\\' !in prefix && ex.customStatus == TextOf(Get(db, prefix + SuffixCustomStatus))
    requires forall keys :: Listing(keys, HistoryKeysOf(prefix, ScannedValues(db, prefix))) ==> ex.events == Events(keys, ScannedValues(db, prefix), parse)
    ensures !PicksUpForeign(db, prefix) ==>
              forall n: nat :: n <= MaxHistoryEntries && HoldsHistory(db, prefix, n) ==> ex == Stored(db, prefix, n, parse)
  {
    if !PicksUpForeign(db, prefix) {
      forall n: nat | n <= MaxHistoryEntries && HoldsHistory(db, prefix, n) ensures ex == Stored(db, prefix, n, parse) {
        ScanCovers(db, prefix, n);
        DecodesToStored(db, prefix, n, ScannedValues(db, prefix), parse, ex.events);
      }
    }
  }

  /** loadWithMeta: a record that declares from one to a million entries is loaded by its keys, and
      when they are all there decodes to the stored history in numeric event order; any other is
      loaded by the scan, with the same outcome for a prefix without backslash, when the scan brings
      no foreign event.  fromMeta is true exactly when the keys were built and could all be read. */
  method Load<E>(db: Db, down: set<string>, prefix: string, declared: Option<nat>, parse: Parser<E>)
      returns (r: Outcome<E>, fromMeta: bool)
    requires EndsInDelimiter(prefix)
    ensures fromMeta ==> r.Loaded? && declared.Some? && 0 < declared.value <= 1_000_000
    ensures forall n: nat :: 0 < n <= 1_000_000 && declared == Some(n) ==>
              && (fromMeta <==> prefix + "customStatus" !in down && forall i: nat :: i < n ==> prefix + HistoryKey(i) !in down)
              && (!fromMeta ==> r.Unreadable?)
              && (fromMeta && HoldsHistory(db, prefix, n) ==> r.ex == Stored(db, prefix, n, parse))
    ensures declared == None || declared == Some(0) || declared.value > 1_000_000 ==>
              && !fromMeta
              && (r.NotFound? <==> forall k <- db :: !Matches(prefix + "%", k))
              && (r.Unreadable? <==> exists k <- db :: Matches(prefix + "%", k) && k in down)
              && (r.Loaded? ==> forall keys :: Listing(keys, HistoryKeysOf(prefix, ScannedValues(db, prefix))) ==>
                    r.ex.events == Events(keys, ScannedValues(db, prefix), parse))
              && (r.Loaded? && '\\' !in prefix && !PicksUpForeign(db, prefix) ==>
                    forall n: nat :: n <= 1_000_000 && HoldsHistory(db, prefix, n) ==> r.ex == Stored(db, prefix, n, parse))
  {
    var n := HistoryLength(declared);
    if n.None? {
      r := LoadByScan(db, down, prefix, parse);
      return r, false;
    }
    ReadableIff(down, prefix, n.value);
    var ex := LoadWithMeta(db, down, prefix, n.value, parse);
    if ex.None? {
      return Unreadable, false;
    }
    return Loaded(ex.value), true;
  }

  lemma ReadableIff(down: set<string>, prefix: string, n: nat)
    ensures (forall k <- HistoryKeys(prefix, n) + [prefix + SuffixCustomStatus] :: k !in down) <==>
            prefix + "customStatus" !in down && forall i: nat :: i < n ==> prefix + HistoryKey(i) !in down
  {
    var keys := HistoryKeys(prefix, n) + [prefix + SuffixCustomStatus];
    forall i: nat | i < n ensures prefix + HistoryKey(i) in keys {
      HistoryKeysAre(prefix, n, prefix + HistoryKey(i));
      assert EntryKey(prefix, i) == prefix + HistoryKey(i);
    }
    forall k <- keys ensures k == prefix + SuffixCustomStatus || exists i: nat :: i < n && k == prefix + HistoryKey(i) {
      if k != prefix + SuffixCustomStatus {
        HistoryKeysAre(prefix, n, k);
        var i: nat :| i < n && k == EntryKey(prefix, i);
        assert k == prefix + HistoryKey(i);
      }
    }
    assert prefix + SuffixCustomStatus in keys;
  }

  /** The stored history event by event: entry n comes after those before it, if it is there, not
      empty, and decodes. */
  lemma StoredInOrder<E>(db: Db, prefix: string, n: nat, parse: Parser<E>)
    ensures Chronological(db, prefix, 0, parse) == []
    ensures var k := prefix + HistoryKey(n);
            Chronological(db, prefix, n + 1, parse) ==
              Chronological(db, prefix, n, parse) +
              if k in db && db[k] != "" && parse(db[k]).Some? then [parse(db[k]).value] else []
    ensures Stored(db, prefix, n, parse).events == Chronological(db, prefix, n, parse)
    ensures var k := prefix + "customStatus"; Stored(db, prefix, n, parse).customStatus == if k in db then db[k] else ""
  {
  }

  /** A whole history, in terms of the keys stored. */
  lemma HoldsHistoryIff(db: Db, prefix: string, n: nat)
    ensures HoldsHistory(db, prefix, n) <==>
            forall k :: k in db && prefix + "history-" <= k <==> exists i: nat :: i < n && k == prefix + HistoryKey(i)
  {
    forall k ensures k in HistoryKeys(prefix, n) <==> exists i: nat :: i < n && k == prefix + HistoryKey(i) {
      HistoryKeysAre(prefix, n, k);
      if i: nat :| i < n && k == prefix + HistoryKey(i) {
        assert k == EntryKey(prefix, i);
      }
      if i: nat :| i < n && k == EntryKey(prefix, i) {
        assert k == prefix + HistoryKey(i);
      }
    }
  }
}
