/** The record service of the state browser (pkg/state/service.go). */
module StateBrowser {
  import opened Options
  import opened Text
  import opened Cursor
  import opened StateKeys
  import opened Like

  datatype Query = Query(appID: string, search: string, pageSize: int, includeInternal: bool)

  const DefaultPageSize := 50
  const FilteredScanPageMultiple := 10
  const MaxFilteredScanKeys := 2000

  /** The service is written against a classifier; the program's is StateKeys.Classify. */
  type Classifier = string -> KeyParts

  /** Whether a row for a key passes the internal-keys filter. */
  function Survives(classify: Classifier, includeInternal: bool): string -> bool {
    (key: string) => includeInternal || classify(key).kind == App
  }

  function SetOf(keys: seq<string>): set<string> { set k | k in keys }

  /** The keys kept, each at its first occurrence. */
  function Survivors(keys: seq<string>, keep: string -> bool, seen: set<string>): (r: seq<string>)
    ensures |r| <= |keys|
  {
    if keys == [] then []
    else if !keep(keys[0]) || keys[0] in seen then Survivors(keys[1..], keep, seen)
    else [keys[0]] + Survivors(keys[1..], keep, seen + {keys[0]})
  }

  lemma {:induction false} SurvivorsAre(keys: seq<string>, keep: string -> bool, seen: set<string>)
    ensures forall k :: k in Survivors(keys, keep, seen) <==> k in keys && keep(k) && k !in seen
    ensures Distinct(Survivors(keys, keep, seen))
  {
    if keys != [] {
      if !keep(keys[0]) || keys[0] in seen {
        SurvivorsAre(keys[1..], keep, seen);
      } else {
        SurvivorsAre(keys[1..], keep, seen + {keys[0]});
      }
      assert keys == [keys[0]] + keys[1..];
    }
  }

  lemma {:induction false} SurvivorsConcat(a: seq<string>, b: seq<string>, keep: string -> bool, seen: set<string>)
    ensures Survivors(a + b, keep, seen) == Survivors(a, keep, seen) + Survivors(b, keep, seen + SetOf(Survivors(a, keep, seen)))
  {
    if a == [] {
      assert a + b == b && seen + SetOf([]) == seen;
    } else {
      assert (a + b)[1..] == a[1..] + b;
      if !keep(a[0]) || a[0] in seen {
        SurvivorsConcat(a[1..], b, keep, seen);
      } else {
        var seen' := seen + {a[0]};
        SurvivorsConcat(a[1..], b, keep, seen');
        assert seen + SetOf(Survivors(a, keep, seen)) == seen' + SetOf(Survivors(a[1..], keep, seen'));
      }
    }
  }

  function PageSizeOf(q: Query): nat { if q.pageSize <= 0 then DefaultPageSize else q.pageSize }

  function MaxScan(q: Query): nat {
    var m := PageSizeOf(q) * FilteredScanPageMultiple;
    if m > MaxFilteredScanKeys then MaxFilteredScanKeys else m
  }

  lemma QueryLimits(q: Query)
    ensures PageSizeOf(q) == (if q.pageSize <= 0 then 50 else q.pageSize) > 0
    ensures MaxScan(q) == if PageSizeOf(q) > 200 then 2000 else 10 * PageSizeOf(q)
  {
  }

  /** The rows' keys: those of the matched keys whose record still exists. */
  function Rows(matched: seq<string>, records: map<string, string>): seq<string> {
    if matched == [] then [] else RowOf(matched[0], records) + Rows(matched[1..], records)
  }

  function RowOf(key: string, records: map<string, string>): seq<string> { if key in records then [key] else [] }

  lemma {:induction false} RowsAll(matched: seq<string>, records: map<string, string>)
    requires forall k <- matched :: k in records
    ensures Rows(matched, records) == matched
  {
    if matched != [] {
      RowsAll(matched[1..], records);
    }
  }

  lemma {:induction false} RowsConcat(a: seq<string>, b: seq<string>, records: map<string, string>)
    ensures Rows(a + b, records) == Rows(a, records) + Rows(b, records)
  {
    if a == [] {
      assert a + b == b;
    } else {
      RowsConcat(a[1..], b, records);
      assert (a + b)[1..] == a[1..] + b && (a + b)[0] == a[0];
      Assoc(RowOf(a[0], records), Rows(a[1..], records), Rows(b, records));
    }
  }

  /** The keys a call that scans pages a to b matches. */
  function Scope(pages: seq<seq<string>>, a: nat, b: nat, keep: string -> bool): seq<string>
    requires a <= b <= |pages|
  {
    Survivors(Flatten(pages[a..b]), keep, {})
  }

  lemma ScanPage(pages: seq<seq<string>>, a: nat, b: nat, keep: string -> bool)
    requires a <= b < |pages|
    ensures Flatten(pages[a..b + 1]) == Flatten(pages[a..b]) + pages[b]
    ensures Scope(pages, a, b + 1, keep) == Scope(pages, a, b, keep) + Survivors(pages[b], keep, SetOf(Scope(pages, a, b, keep)))
  {
    assert pages[a..b + 1] == pages[a..b] + [pages[b]];
    FlattenSnoc(pages[a..b], pages[b]);
    SurvivorsConcat(Flatten(pages[a..b]), pages[b], keep, {});
    assert {} + SetOf(Scope(pages, a, b, keep)) == SetOf(Scope(pages, a, b, keep));
  }

  /** The loop-fill of List. */
  method Collect(pages: seq<seq<string>>, token: nat, q: Query, classify: Classifier)
      returns (matched: seq<string>, next: nat, scanned: nat)
    requires token < |pages|
    ensures next < |pages| && token < EndOf(pages, next)
    ensures matched == Scope(pages, token, EndOf(pages, next), Survives(classify, q.includeInternal))
    ensures scanned == |Flatten(pages[token..EndOf(pages, next)])|
    ensures q.includeInternal ==> EndOf(pages, next) == token + 1
    ensures !q.includeInternal && next != 0 ==> |matched| >= PageSizeOf(q) || scanned >= MaxScan(q)
    ensures (forall i :: 0 <= i < |pages| ==> |pages[i]| <= PageSizeOf(q)) ==>
              |matched| < 2 * PageSizeOf(q) && scanned <= MaxScan(q) + PageSizeOf(q) - 1
  {
    var pageSize := if q.pageSize <= 0 then DefaultPageSize else q.pageSize;
    var maxScan := pageSize * FilteredScanPageMultiple;
    if maxScan > MaxFilteredScanKeys {
      maxScan := MaxFilteredScanKeys;
    }
    matched, next, scanned := [], 0, 0;
    ghost var keep := Survives(classify, q.includeInternal);
    var parts: map<string, KeyParts>, at := map[], token;
    assert pages[token..token] == [];
    while true
      invariant token <= at < |pages|
      invariant at > token ==> !q.includeInternal
      invariant scanned == |Flatten(pages[token..at])| && scanned < maxScan && |matched| < pageSize
      invariant matched == Scope(pages, token, at, keep)
      invariant parts.Keys == SetOf(matched)
      decreases |pages| - at
    {
      ScanPage(pages, token, at, keep);
      next := NextToken(pages, at);
      scanned := scanned + |pages[at]|;
      matched, parts := ClassifyPage(pages[at], q.includeInternal, matched, parts, classify);
      if q.includeInternal || |matched| >= pageSize || next == 0 || scanned >= maxScan {
        break;
      }
      at := next;
    }
  }

  lemma SurvivorsSnoc(keys: seq<string>, i: nat, keep: string -> bool, seen: set<string>)
    requires i < |keys|
    ensures Survivors(keys[..i + 1], keep, seen) == Survivors(keys[..i], keep, seen) +
            if keep(keys[i]) && keys[i] !in seen + SetOf(Survivors(keys[..i], keep, seen)) then [keys[i]] else []
  {
    assert keys[..i + 1] == keys[..i] + [keys[i]];
    SurvivorsConcat(keys[..i], [keys[i]], keep, seen);
    assert [keys[i]][1..] == [];
  }

  lemma SetOfSnoc(s: seq<string>, k: string)
    ensures SetOf(s + [k]) == SetOf(s) + {k}
  {
  }

  /** The loop over one page of keys. */
  method ClassifyPage(keys: seq<string>, includeInternal: bool, matched: seq<string>, parts: map<string, KeyParts>, classify: Classifier)
      returns (matched': seq<string>, parts': map<string, KeyParts>)
    requires parts.Keys == SetOf(matched)
    ensures matched' == matched + Survivors(keys, Survives(classify, includeInternal), parts.Keys)
    ensures parts'.Keys == SetOf(matched')
  {
    matched', parts' := matched, parts;
    ghost var keep := Survives(classify, includeInternal);
    for i := 0 to |keys|
      invariant matched' == matched + Survivors(keys[..i], keep, parts.Keys)
      invariant parts'.Keys == parts.Keys + SetOf(Survivors(keys[..i], keep, parts.Keys))
    {
      SurvivorsSnoc(keys, i, keep, parts.Keys);
      var p := classify(keys[i]);
      if !includeInternal && p.kind != App {
        continue;
      }
      if keys[i] in parts' {
        continue;
      }
      SetOfSnoc(Survivors(keys[..i], keep, parts.Keys), keys[i]);
      parts' := parts'[keys[i] := p];
      matched' := matched' + [keys[i]];
    }
    assert keys[..|keys|] == keys;
  }

  /** The rows of a page, in the order of their keys in it. */
  method ReadRows(matched: seq<string>, records: map<string, string>) returns (rows: seq<string>)
    ensures rows == Rows(matched, records)
  {
    rows := [];
    for i := 0 to |matched|
      invariant rows == Rows(matched[..i], records)
    {
      assert matched[..i + 1] == matched[..i] + [matched[i]];
      RowsConcat(matched[..i], [matched[i]], records);
      if matched[i] in records {
        rows := rows + [matched[i]];
      }
    }
    assert matched[..|matched|] == matched;
  }

  /** One page of rows, by key; rows are never truncated. */
  method List(pages: seq<seq<string>>, token: nat, q: Query, records: map<string, string>, classify: Classifier)
      returns (rows: seq<string>, next: nat)
    requires token < |pages|
    ensures next < |pages| && token < EndOf(pages, next)
    ensures multiset(rows) ==
            multiset(Rows(Scope(pages, token, EndOf(pages, next), Survives(classify, q.includeInternal)), records))
    ensures Distinct(rows)
    ensures forall k :: k in rows <==>
              k in Flatten(pages[token..EndOf(pages, next)]) && k in records && (q.includeInternal || classify(k).kind == App)
    ensures forall i, j :: 0 <= i < j < |rows| ==> Less(rows[i], rows[j])
  {
    var matched, scanned;
    matched, next, scanned := Collect(pages, token, q, classify);
    rows := ReadRows(matched, records);
    ghost var found, keep := rows, Survives(classify, q.includeInternal);
    SurvivorsAre(Flatten(pages[token..EndOf(pages, next)]), keep, {});
    RowsAre(matched, records);
    KeyOrderIsStrictWeak();
    SortSorted(rows, KeyBefore);
    rows := StableSort(rows, KeyBefore);
    InKeyOrder(found, rows);
  }

  lemma {:induction false} RowsAre(matched: seq<string>, records: map<string, string>)
    requires Distinct(matched)
    ensures forall k :: k in Rows(matched, records) <==> k in matched && k in records
    ensures Distinct(Rows(matched, records))
  {
    if matched != [] {
      assert matched == [matched[0]] + matched[1..];
      assert forall i :: 0 <= i < |matched[1..]| ==> matched[1..][i] == matched[i + 1];
      RowsAre(matched[1..], records);
    }
  }

  lemma InKeyOrder(found: seq<string>, rows: seq<string>)
    requires Distinct(found) && multiset(rows) == multiset(found) && SortedBy(rows, KeyBefore)
    ensures Distinct(rows) && forall i, j :: 0 <= i < j < |rows| ==> Less(rows[i], rows[j])
    ensures forall k :: k in rows <==> k in found
  {
    SameBagDistinct(rows, found);
    forall i, j | 0 <= i < j < |rows| ensures Less(rows[i], rows[j]) {
      assert !KeyBefore(rows[j], rows[i]);
      LessTotal(rows[i], rows[j]);
    }
    forall k ensures k in rows <==> k in found {
      assert k in rows <==> k in multiset(rows);
      assert k in found <==> k in multiset(found);
    }
  }

  /** pages lists the keys of data that a query's pattern matches, each once. */
  ghost predicate Lists(pages: seq<seq<string>>, data: map<string, string>, q: Query) {
    && pages != []
    && Distinct(Flatten(pages))
    && forall k :: k in Flatten(pages) <==> k in data && Matches(ListPattern(q.appID, q.search), k)
  }

  lemma {:induction false} DistinctSurvive(keys: seq<string>, keep: string -> bool, seen: set<string>, seen': set<string>)
    requires Distinct(keys) && forall k <- keys :: k !in seen && k !in seen'
    ensures Survivors(keys, keep, seen) == Survivors(keys, keep, seen')
  {
    if keys != [] {
      assert keys == [keys[0]] + keys[1..];
      assert forall i :: 0 <= i < |keys[1..]| ==> keys[1..][i] == keys[i + 1];
      if keep(keys[0]) {
        DistinctSurvive(keys[1..], keep, seen + {keys[0]}, seen' + {keys[0]});
      } else {
        DistinctSurvive(keys[1..], keep, seen, seen');
      }
    }
  }

  lemma PartsDistinct(a: seq<string>, b: seq<string>, c: seq<string>)
    requires Distinct(a + b + c)
    ensures Distinct(b) && forall k <- b :: k !in a
  {
    var all := a + b + c;
    assert forall i :: 0 <= i < |b| ==> b[i] == all[|a| + i];
    assert forall i :: 0 <= i < |a| ==> a[i] == all[i];
  }

  lemma FlattenParts(pages: seq<seq<string>>, a: nat, b: nat)
    requires a <= b <= |pages|
    ensures Flatten(pages) == Flatten(pages[..a]) + Flatten(pages[a..b]) + Flatten(pages[b..])
    ensures Flatten(pages[..b]) == Flatten(pages[..a]) + Flatten(pages[a..b])
  {
    assert pages[..b] == pages[..a] + pages[a..b] && pages == pages[..b] + pages[b..];
    FlattenConcat(pages[..a], pages[a..b]);
    FlattenConcat(pages[..b], pages[b..]);
  }

  lemma PartSurvives(pages: seq<seq<string>>, a: nat, b: nat, keep: string -> bool)
    requires a <= b <= |pages| && Distinct(Flatten(pages))
    ensures Scope(pages, 0, b, keep) == Scope(pages, 0, a, keep) + Scope(pages, a, b, keep)
  {
    FlattenParts(pages, a, b);
    assert pages[0..b] == pages[..b] && pages[0..a] == pages[..a];
    SurvivorsConcat(Flatten(pages[..a]), Flatten(pages[a..b]), keep, {});
    PartsDistinct(Flatten(pages[..a]), Flatten(pages[a..b]), Flatten(pages[b..]));
    SurvivorsAre(Flatten(pages[..a]), keep, {});
    DistinctSurvive(Flatten(pages[a..b]), keep, {} + SetOf(Scope(pages, 0, a, keep)), {});
  }

  lemma ScopeInData(pages: seq<seq<string>>, data: map<string, string>, q: Query, a: nat, b: nat, classify: Classifier)
    requires Lists(pages, data, q) && a <= b <= |pages|
    ensures Rows(Scope(pages, a, b, Survives(classify, q.includeInternal)), data) == Scope(pages, a, b, Survives(classify, q.includeInternal))
  {
    FlattenParts(pages, a, b);
    SurvivorsAre(Flatten(pages[a..b]), Survives(classify, q.includeInternal), {});
    RowsAll(Scope(pages, a, b, Survives(classify, q.includeInternal)), data);
  }

  /** Paging to the end: every selected key that survives the filter is returned exactly once. */
  method FollowTokens(pages: seq<seq<string>>, data: map<string, string>, q: Query, classify: Classifier) returns (all: seq<string>)
    requires Lists(pages, data, q)
    ensures Distinct(all)
    ensures forall k :: k in all <==> k in data && Selected(q.appID, q.search, k) && Survives(classify, q.includeInternal)(k)
  {
    all := [];
    var token := 0;
    ghost var keep := Survives(classify, q.includeInternal);
    assert pages[0..0] == [];
    while true
      invariant token < |pages|
      invariant multiset(all) == multiset(Scope(pages, 0, token, keep))
      decreases |pages| - token
    {
      var rows, next := List(pages, token, q, data, classify);
      PartSurvives(pages, token, EndOf(pages, next), keep);
      ScopeInData(pages, data, q, token, EndOf(pages, next), classify);
      all := all + rows;
      if next == 0 {
        break;
      }
      token := next;
    }
    AllOnce(pages, data, q, all, classify);
  }

  lemma AllOnce(pages: seq<seq<string>>, data: map<string, string>, q: Query, all: seq<string>, classify: Classifier)
    requires Lists(pages, data, q)
    requires multiset(all) == multiset(Scope(pages, 0, |pages|, Survives(classify, q.includeInternal)))
    ensures Distinct(all)
    ensures forall k :: k in all <==> k in data && Selected(q.appID, q.search, k) && Survives(classify, q.includeInternal)(k)
  {
    var keep := Survives(classify, q.includeInternal);
    assert pages[0..|pages|] == pages;
    var kept := Scope(pages, 0, |pages|, keep);
    SurvivorsAre(Flatten(pages), keep, {});
    SameBagDistinct(all, kept);
    forall k ensures k in all <==> k in data && Selected(q.appID, q.search, k) && keep(k) {
      ListPatternIsLiteral(q.appID, q.search, k);
      assert k in all <==> k in multiset(all);
      assert k in kept <==> k in multiset(kept);
    }
  }

  // ---------- The app filter's choices ----------

  predicate Provides(classify: Classifier, includeInternal: bool, key: string, appID: string) {
    appID != "" && classify(key).appID == appID && (includeInternal || classify(key).kind == App)
  }

  /** The dropdown's prefixes: every non-empty prefix of a key that survives the filter, once each,
      sorted. */
  method AppIDs(keys: seq<string>, includeInternal: bool, classify: Classifier) returns (ids: seq<string>)
    ensures Distinct(ids) && SortedBy(ids, KeyBefore)
    ensures forall p :: p in ids <==> exists i :: 0 <= i < |keys| && Provides(classify, includeInternal, keys[i], p)
  {
    var seen: set<string> := {};
    ids := [];
    for n := 0 to |keys|
      invariant seen == SetOf(ids) && Distinct(ids)
      invariant forall p :: p in ids <==> exists i :: 0 <= i < n && Provides(classify, includeInternal, keys[i], p)
    {
      var p := classify(keys[n]);
      if p.appID == "" {
        continue;
      }
      if !includeInternal && p.kind != App {
        continue;
      }
      assert Provides(classify, includeInternal, keys[n], p.appID);
      if p.appID in seen {
        continue;
      }
      seen := seen + {p.appID};
      ids := ids + [p.appID];
    }
    KeyOrderIsStrictWeak();
    SortSorted(ids, KeyBefore);
    ghost var unsorted := ids;
    ids := StableSort(ids, KeyBefore);
    SameBagDistinct(ids, unsorted);
    forall p ensures p in ids <==> p in unsorted {
      assert p in ids <==> p in multiset(ids);
      assert p in unsorted <==> p in multiset(unsorted);
    }
  }

  /** A prefix is offered exactly when it is a well-formed one whose filtered listing, paged to the
      end under the same internal-keys setting, has a row. */
  lemma OfferedIffListed(keys: seq<string>, includeInternal: bool, p: string)
    ensures (exists i :: 0 <= i < |keys| && Provides(Classify, includeInternal, keys[i], p)) <==>
            p != "" && NoDelim(p) && !EndsInBar(p)
            && exists i :: 0 <= i < |keys| && Selected(p, "", keys[i]) && Survives(Classify, includeInternal)(keys[i])
  {
    forall key ensures Provides(Classify, includeInternal, key, p) <==>
                       p != "" && NoDelim(p) && !EndsInBar(p) && Selected(p, "", key) && Survives(Classify, includeInternal)(key)
    {
      ProvidedIffSelected(includeInternal, key, p);
    }
  }

  lemma ProvidedIffSelected(includeInternal: bool, key: string, p: string)
    ensures Provides(Classify, includeInternal, key, p) <==>
            p != "" && NoDelim(p) && !EndsInBar(p) && Selected(p, "", key) && Survives(Classify, includeInternal)(key)
  {
    var head := p + KeyDelimiter;
    if p != "" && Classify(key).appID == p {
      SplitSegments(key);
      JoinSplit(key);
      assert key == head + Join(Split(key)[1..]);
      assert "" <= key[|head|..][0..];
    } else if p != "" && NoDelim(p) && !EndsInBar(p) && HasPrefix(key, head) {
      assert key == p + KeyDelimiter + key[|head|..];
      SplitHead(p, key[|head|..]);
    }
  }

  // ---------- Writes ----------

  class RecordStore {
    var data: map<string, string>
    const stuck: set<string>  // keys the backend refuses to delete

    constructor (data: map<string, string>, stuck: set<string>)
      ensures this.data == data && this.stuck == stuck
    {
      this.data, this.stuck := data, stuck;
    }

    /** Writes the composed key unless it exists and the request does not ask to overwrite. */
    method Set(appID: string, key: string, value: string, overwrite: bool) returns (written: bool)
      modifies this`data
      ensures written <==> overwrite || ComposeKey(appID, key) !in old(data)
      ensures data == if written then old(data)[ComposeKey(appID, key) := value] else old(data)
    {
      var k := ComposeKey(appID, key);
      if !overwrite {
        if k in data {
          return false;
        }
      }
      data := data[k := value];
      written := true;
    }

    /** One outcome per key, in order; what is left is everything but the keys deleted. */
    method Delete(keys: seq<string>) returns (results: seq<bool>)
      modifies this`data
      ensures |results| == |keys| && forall i :: 0 <= i < |keys| ==> results[i] == (keys[i] !in stuck)
      ensures data == map k | k in old(data) && (k !in keys || k in stuck) :: old(data)[k]
    {
      results := [];
      for n := 0 to |keys|
        invariant |results| == n && forall i :: 0 <= i < n ==> results[i] == (keys[i] !in stuck)
        invariant data == map k | k in old(data) && (k !in keys[..n] || k in stuck) :: old(data)[k]
      {
        assert keys[..n + 1] == keys[..n] + [keys[n]];
        if keys[n] in stuck {
          results := results + [false];
        } else {
          data := data - {keys[n]};
          results := results + [true];
        }
      }
      assert keys[..|keys|] == keys;
    }
  }

  /** A created record's app id is among the dropdown's choices because of it exactly when the id does
      not end in a bar. */
  lemma CreatedRecordOfferedIff(a: string, k: string)
    requires ApiAccepts(a, k)
    ensures Provides(Classify, false, ComposeKey(a, k), a) <==> !EndsInBar(a)
  {
    ClassifyComposedIff(a, k);
    SplitSegments(ComposeKey(a, k));
    assert DelimAt(ComposeKey(a, k), |a|);
  }

  /** A created record is in the default listing, filtered by its own app id or not filtered, exactly
      when not both the id ends and the key starts with a bar. */
  lemma CreatedRecordListedIff(a: string, k: string)
    requires ApiAccepts(a, k)
    ensures Selected(a, "", ComposeKey(a, k)) && Selected("", "", ComposeKey(a, k))
    ensures Survives(Classify, false)(ComposeKey(a, k)) <==> !(EndsInBar(a) && k[0] == '|')
  {
    AcceptedWriteIsAppIff(a, k);
    var key := ComposeKey(a, k);
    assert key == a + KeyDelimiter + k;
    assert "" <= key[|a + KeyDelimiter|..][0..] && "" <= key[0..];
  }
}
