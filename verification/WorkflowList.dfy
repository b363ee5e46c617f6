/** Paged listing of workflow executions (List in pkg/workflow/service.go). */
module WorkflowList {
  import opened Options
  import opened Text
  import opened Keys
  import opened Cursor

  datatype Ref = Ref(appID: string, id: string)

  datatype Status = Pending | Running | Completed | Failed | Terminated | Suspended

  datatype Details = Details(name: string, status: Status, parent: string, createdAt: Option<int>)

  datatype Summary = Summary(ref: Ref, details: Details)

  datatype Query = Query(status: seq<Status>, search: string, pageSize: int, includeChildren: bool)

  const DefaultPageSize := 50
  const FilteredScanPageMultiple := 10
  const MaxFilteredScanKeys := 2000

  // ---------- From keys to instances ----------

  function RefOf(key: string): Option<Ref> {
    var appID, id := ParseAppID(key), ParseInstanceID(key);
    if appID.None? || id.None? then None else Some(Ref(appID.value, id.value))
  }

  function DedupKey(r: Ref): string { r.appID + "/" + r.id }

  /** The instances the keys name, malformed keys skipped. */
  function AllRefs(keys: seq<string>): seq<Ref> { Named(keys, RefOf) }

  function Named(keys: seq<string>, refOf: string -> Option<Ref>): seq<Ref> {
    if keys == [] then []
    else Naming(refOf(keys[0])) + Named(keys[1..], refOf)
  }

  function Naming(r: Option<Ref>): seq<Ref> { if r.Some? then [r.value] else [] }

  function SeenAfter(refs: seq<Ref>, seen: set<string>): set<string> {
    seen + set r | r in refs :: DedupKey(r)
  }

  /** The same without those whose dedup key occurred before. */
  function NewRefs(keys: seq<string>, seen: set<string>): seq<Ref> {
    if keys == [] then []
    else if RefOf(keys[0]).None? || DedupKey(RefOf(keys[0]).value) in seen then NewRefs(keys[1..], seen)
    else [RefOf(keys[0]).value] + NewRefs(keys[1..], seen + {DedupKey(RefOf(keys[0]).value)})
  }

  lemma {:induction false} NamedConcat(a: seq<string>, b: seq<string>, refOf: string -> Option<Ref>)
    ensures Named(a + b, refOf) == Named(a, refOf) + Named(b, refOf)
  {
    if a == [] {
      assert a + b == b;
    } else {
      NamedConcat(a[1..], b, refOf);
      assert (a + b)[1..] == a[1..] + b && (a + b)[0] == a[0];
      Assoc(Naming(refOf(a[0])), Named(a[1..], refOf), Named(b, refOf));
    }
  }

  lemma AllRefsConcat(a: seq<string>, b: seq<string>)
    ensures AllRefs(a + b) == AllRefs(a) + AllRefs(b)
  {
    NamedConcat(a, b, RefOf);
  }

  lemma {:induction false} NewRefsConcat(a: seq<string>, b: seq<string>, seen: set<string>)
    ensures NewRefs(a + b, seen) == NewRefs(a, seen) + NewRefs(b, SeenAfter(NewRefs(a, seen), seen))
  {
    if a == [] {
      assert a + b == b && SeenAfter([], seen) == seen;
    } else {
      assert (a + b)[1..] == a[1..] + b;
      var r := RefOf(a[0]);
      if r.None? || DedupKey(r.value) in seen {
        NewRefsConcat(a[1..], b, seen);
      } else {
        var seen' := seen + {DedupKey(r.value)};
        NewRefsConcat(a[1..], b, seen');
        assert SeenAfter(NewRefs(a, seen), seen) == SeenAfter(NewRefs(a[1..], seen'), seen');
      }
    }
  }

  ghost predicate DistinctRefs(refs: seq<Ref>) {
    forall i, j :: 0 <= i < j < |refs| ==> DedupKey(refs[i]) != DedupKey(refs[j])
  }

  lemma HeadIsNew(r: Ref, rest: seq<Ref>, seen: set<string>)
    requires DistinctRefs([r] + rest) && forall x <- [r] + rest :: DedupKey(x) !in seen
    ensures DistinctRefs(rest) && DedupKey(r) !in seen && forall x <- rest :: DedupKey(x) !in seen + {DedupKey(r)}
  {
    var all := [r] + rest;
    assert r in all;
    forall i | 0 <= i < |rest| ensures rest[i] == all[i + 1] && rest[i] in all && DedupKey(rest[i]) != DedupKey(r) {
      assert all[0] == r;
    }
  }

  lemma {:induction false} DistinctAreAllNew(keys: seq<string>, seen: set<string>)
    requires DistinctRefs(AllRefs(keys))
    requires forall r <- AllRefs(keys) :: DedupKey(r) !in seen
    ensures NewRefs(keys, seen) == AllRefs(keys)
  {
    if keys != [] {
      var r, rest := RefOf(keys[0]), AllRefs(keys[1..]);
      if r.Some? {
        assert AllRefs(keys) == [r.value] + rest;
        HeadIsNew(r.value, rest, seen);
        DistinctAreAllNew(keys[1..], seen + {DedupKey(r.value)});
      } else {
        assert AllRefs(keys) == rest;
        DistinctAreAllNew(keys[1..], seen);
      }
    }
  }

  lemma {:induction false} NewRefsAreDistinct(keys: seq<string>, seen: set<string>)
    ensures DistinctRefs(NewRefs(keys, seen))
    ensures forall r <- NewRefs(keys, seen) :: DedupKey(r) !in seen
  {
    if keys != [] {
      var r := RefOf(keys[0]);
      if r.None? || DedupKey(r.value) in seen {
        NewRefsAreDistinct(keys[1..], seen);
      } else {
        NewRefsAreDistinct(keys[1..], seen + {DedupKey(r.value)});
        ConsIsDistinct(r.value, NewRefs(keys[1..], seen + {DedupKey(r.value)}), seen);
      }
    }
  }

  lemma ConsIsDistinct(r: Ref, rest: seq<Ref>, seen: set<string>)
    requires DistinctRefs(rest) && DedupKey(r) !in seen && forall x <- rest :: DedupKey(x) !in seen + {DedupKey(r)}
    ensures DistinctRefs([r] + rest) && forall x <- [r] + rest :: DedupKey(x) !in seen
  {
    forall j | 0 <= j < |rest| ensures DedupKey(rest[j]) != DedupKey(r) {
      assert rest[j] in rest;
    }
  }

  /** Deduplication drops no key exactly when the keys name instances with different dedup keys. */
  lemma AllNewIff(keys: seq<string>)
    ensures NewRefs(keys, {}) == AllRefs(keys) <==> DistinctRefs(AllRefs(keys))
  {
    NewRefsAreDistinct(keys, {});
    if DistinctRefs(AllRefs(keys)) {
      DistinctAreAllNew(keys, {});
    }
  }

  /** r is the first of the instances named that has its dedup key. */
  predicate Leads(refs: seq<Ref>, r: Ref) {
    refs != [] && (refs[0] == r || (DedupKey(refs[0]) != DedupKey(r) && Leads(refs[1..], r)))
  }

  /** Different instances named have different dedup keys. */
  ghost predicate Unambiguous(refs: seq<Ref>) {
    forall r, s :: r in refs && s in refs && DedupKey(r) == DedupKey(s) ==> r == s
  }

  lemma {:induction false} LeadersDiffer(refs: seq<Ref>, r: Ref, s: Ref)
    requires Leads(refs, r) && Leads(refs, s) && DedupKey(r) == DedupKey(s)
    ensures r == s && r in refs
  {
    if refs[0] != r && refs[0] != s {
      LeadersDiffer(refs[1..], r, s);
    }
  }

  lemma {:induction false} UnambiguousLeads(refs: seq<Ref>, r: Ref)
    requires Unambiguous(refs) && r in refs
    ensures Leads(refs, r)
  {
    if refs[0] != r {
      assert refs == [refs[0]] + refs[1..];
      UnambiguousLeads(refs[1..], r);
    }
  }

  lemma {:induction false} LoadedIffLeads(keys: seq<string>, seen: set<string>, r: Ref)
    ensures r in NewRefs(keys, seen) <==> DedupKey(r) !in seen && Leads(AllRefs(keys), r)
  {
    if keys != [] {
      var head, rest := RefOf(keys[0]), AllRefs(keys[1..]);
      if head.None? {
        assert AllRefs(keys) == rest;
        LoadedIffLeads(keys[1..], seen, r);
      } else {
        assert AllRefs(keys) == [head.value] + rest;
        LoadedIffLeads(keys[1..], if DedupKey(head.value) in seen then seen else seen + {DedupKey(head.value)}, r);
      }
    }
  }

  /** Deduplication hides no instance exactly when those named have different dedup keys, however
      often each is named. */
  lemma NothingHiddenIff(keys: seq<string>)
    ensures (forall r <- AllRefs(keys) :: r in NewRefs(keys, {})) <==> Unambiguous(AllRefs(keys))
  {
    var refs := AllRefs(keys);
    if Unambiguous(refs) {
      forall r <- refs ensures r in NewRefs(keys, {}) {
        UnambiguousLeads(refs, r);
        LoadedIffLeads(keys, {}, r);
      }
    }
    if forall r <- refs :: r in NewRefs(keys, {}) {
      forall r, s | r in refs && s in refs && DedupKey(r) == DedupKey(s) ensures r == s {
        LoadedIffLeads(keys, {}, r);
        LoadedIffLeads(keys, {}, s);
        LeadersDiffer(refs, r, s);
      }
    }
  }

  lemma {:induction false} NewRefsBound(keys: seq<string>, seen: set<string>)
    ensures |NewRefs(keys, seen)| <= |keys|
  {
    if keys != [] {
      if RefOf(keys[0]).None? || DedupKey(RefOf(keys[0]).value) in seen {
        NewRefsBound(keys[1..], seen);
      } else {
        NewRefsBound(keys[1..], seen + {DedupKey(RefOf(keys[0]).value)});
      }
    }
  }

  /** refsFromKeys, which also extends the caller's seen set. */
  method RefsFromKeys(keys: seq<string>, seen: set<string>) returns (refs: seq<Ref>, seen': set<string>)
    ensures refs == NewRefs(keys, seen)
    ensures seen' == SeenAfter(refs, seen)
  {
    refs, seen' := [], seen;
    for i := 0 to |keys|
      invariant refs == NewRefs(keys[..i], seen)
      invariant seen' == SeenAfter(refs, seen)
    {
      NewRefsConcat(keys[..i], [keys[i]], seen);
      assert keys[..i + 1] == keys[..i] + [keys[i]];
      var appID := ParseAppID(keys[i]);
      if appID.None? {
        continue;
      }
      var id := ParseInstanceID(keys[i]);
      if id.None? {
        continue;
      }
      var r := Ref(appID.value, id.value);
      assert RefOf([keys[i]][0]) == Some(r) && [keys[i]][1..] == [];
      if DedupKey(r) in seen' {
        continue;
      }
      seen' := seen' + {DedupKey(r)};
      refs := refs + [r];
    }
    assert keys[..|keys|] == keys;
  }

  /** Dedup keys are unambiguous for app ids without a slash. */
  lemma DedupKeyUnique(r: Ref, s: Ref)
    requires '/' !in r.appID && '/' !in s.appID && DedupKey(r) == DedupKey(s)
    ensures r == s
  {
    var whole := DedupKey(r);
    assert forall i :: 0 <= i < |r.appID| ==> whole[i] == r.appID[i] && r.appID[i] in r.appID;
    assert forall i :: 0 <= i < |s.appID| ==> whole[i] == s.appID[i] && s.appID[i] in s.appID;
    assert whole[|r.appID|] == '/' && whole[|s.appID|] == '/';
    assert |r.appID| == |s.appID|;
    assert r.appID == whole[..|r.appID|] == s.appID && r.id == whole[|r.appID| + 1..] == s.id;
  }

  function MetaKey(ns: string, r: Ref): string { InstancePrefix(ns, r.appID, r.id) + SuffixMetadata }

  predicate SlashFree(r: Ref) { '/' !in r.appID }

  /** keys lists metadata records, each once; a key that names no instance may be among them. */
  ghost predicate ListsMeta(keys: seq<string>, ns: string) {
    && Distinct(keys)
    && forall k <- keys :: RefOf(k).Some? ==> k == MetaKey(ns, RefOf(k).value)
  }

  ghost predicate Different(refs: seq<Ref>) {
    forall i, j :: 0 <= i < j < |refs| ==> refs[i] != refs[j]
  }

  lemma {:induction false} RefComesFromKey(keys: seq<string>, i: nat) returns (k: nat)
    requires i < |AllRefs(keys)|
    ensures k < |keys| && RefOf(keys[k]) == Some(AllRefs(keys)[i])
  {
    var own := if RefOf(keys[0]).Some? then 1 else 0;
    if i < own {
      k := 0;
    } else {
      k := RefComesFromKey(keys[1..], i - own);
      k := k + 1;
    }
  }

  /** A listing of metadata keys names pairwise different instances. */
  lemma {:induction false} MetaKeysDiffer(keys: seq<string>, ns: string)
    requires ListsMeta(keys, ns)
    ensures Different(AllRefs(keys))
  {
    if keys != [] {
      var rest := keys[1..];
      assert forall i :: 0 <= i < |rest| ==> rest[i] == keys[i + 1];
      MetaKeysDiffer(rest, ns);
      if RefOf(keys[0]).Some? {
        var r := RefOf(keys[0]).value;
        assert AllRefs(keys) == [r] + AllRefs(rest);
        forall j | 0 <= j < |AllRefs(rest)| ensures r != AllRefs(rest)[j] {
          var k := RefComesFromKey(rest, j);
          assert keys[0] in keys && rest[k] in keys && rest[k] != keys[0];
        }
      } else {
        assert AllRefs(keys) == AllRefs(rest);
      }
    }
  }

  lemma SlashFreeUnambiguous(refs: seq<Ref>)
    requires forall r <- refs :: SlashFree(r)
    ensures Unambiguous(refs)
  {
    forall r, s | r in refs && s in refs && DedupKey(r) == DedupKey(s) ensures r == s {
      DedupKeyUnique(r, s);
    }
  }

  /** For pairwise different instances unambiguous dedup keys are different ones. */
  lemma DistinctIff(refs: seq<Ref>)
    requires Different(refs)
    ensures DistinctRefs(refs) <==> Unambiguous(refs)
  {
    if DistinctRefs(refs) {
      forall r, s | r in refs && s in refs && DedupKey(r) == DedupKey(s) ensures r == s {
        var i, j :| 0 <= i < |refs| && 0 <= j < |refs| && refs[i] == r && refs[j] == s;
      }
    }
  }

  /** Distinct well-formed metadata keys name instances with distinct dedup keys. */
  lemma MetaKeysAreDistinct(keys: seq<string>, ns: string)
    requires ListsMeta(keys, ns) && forall r <- AllRefs(keys) :: SlashFree(r)
    ensures DistinctRefs(AllRefs(keys))
  {
    MetaKeysDiffer(keys, ns);
    SlashFreeUnambiguous(AllRefs(keys));
    DistinctIff(AllRefs(keys));
  }

  // ---------- Which instances a query lists ----------

  function Lower(s: string): string {
    seq(|s|, i requires 0 <= i < |s| => if 'A' <= s[i] <= 'Z' then (s[i] - 'A') + 'a' else s[i])
  }

  predicate Filtered(q: Query) { q.status != [] || q.search != "" || !q.includeChildren }

  predicate MatchesQuery(s: Summary, q: Query) {
    && (q.includeChildren || s.details.parent == "")
    && (q.status == [] || s.details.status in q.status)
    && (q.search == "" || Contains(Lower(s.ref.id), Lower(q.search)) || Contains(Lower(s.details.name), Lower(q.search)))
  }

  /** What loading an instance finds; its summary carries the ids it was loaded by. */
  type Loader = Ref -> Option<Details>

  function Shown(r: Ref, q: Query, load: Loader): seq<Summary> {
    if load(r).Some? && MatchesQuery(Summary(r, load(r).value), q) then [Summary(r, load(r).value)] else []
  }

  /** Every instance that loads and that the query accepts, in key order. */
  function Listing(refs: seq<Ref>, q: Query, load: Loader): seq<Summary> {
    if refs == [] then [] else Shown(refs[0], q, load) + Listing(refs[1..], q, load)
  }

  lemma {:induction false} ListingConcat(a: seq<Ref>, b: seq<Ref>, q: Query, load: Loader)
    ensures Listing(a + b, q, load) == Listing(a, q, load) + Listing(b, q, load)
  {
    if a == [] {
      assert a + b == b;
    } else {
      ListingConcat(a[1..], b, q, load);
      assert (a + b)[1..] == a[1..] + b && (a + b)[0] == a[0];
      assert Listing(a + b, q, load) == Shown(a[0], q, load) + (Listing(a[1..], q, load) + Listing(b, q, load));
    }
  }

  lemma {:induction false} ListingBound(refs: seq<Ref>, q: Query, load: Loader)
    ensures |Listing(refs, q, load)| <= |refs|
  {
    if refs != [] {
      ListingBound(refs[1..], q, load);
    }
  }

  predicate Newer(a: Summary, b: Summary) {
    var x, y := a.details.createdAt, b.details.createdAt;
    x.Some? && (y.None? || x.value > y.value)
  }

  // ---------- What a query asks for, in the summary's fields ----------

  /** The same letter, in either case. */
  predicate SameLetter(a: char, b: char) {
    || a == b
    || ('A' <= a <= 'Z' && b as int == a as int + 32)
    || ('A' <= b <= 'Z' && a as int == b as int + 32)
  }

  ghost predicate FoundAt(text: string, search: string, i: nat) {
    i + |search| <= |text| && forall j :: 0 <= j < |search| ==> SameLetter(text[i + j], search[j])
  }

  /** The search occurs in the text, whatever the case of letters. */
  ghost predicate FoundIn(text: string, search: string) { exists i: nat :: FoundAt(text, search, i) }

  lemma ContainsFolded(text: string, search: string)
    ensures Contains(Lower(text), Lower(search)) <==> FoundIn(text, search)
  {
    var t, s := Lower(text), Lower(search);
    forall i: nat | i <= |t| ensures s <= t[i..] <==> FoundAt(text, search, i) {
      if |s| <= |t| - i {
        assert forall j :: 0 <= j < |s| ==> t[i..][j] == t[i + j];
        assert forall j :: 0 <= j < |s| ==> (t[i + j] == s[j] <==> SameLetter(text[i + j], search[j]));
        assert s <= t[i..] <==> forall j :: 0 <= j < |s| ==> t[i..][j] == s[j];
      }
    }
    if i: nat :| FoundAt(text, search, i) {
      assert i <= |t| && s <= t[i..];
    }
  }

  /** What is shown of an instance: nothing unless it loads, its status is among those asked for (if
      any), it has no parent (or children are included), and the search (if any) occurs in its id or
      its name. */
  lemma ShownIff(s: Summary, q: Query, load: Loader)
    ensures Shown(s.ref, q, load) == [s] <==>
            && load(s.ref) == Some(s.details)
            && (q.status == [] || s.details.status in q.status)
            && (q.includeChildren || s.details.parent == "")
            && (q.search == "" || FoundIn(s.ref.id, q.search) || FoundIn(s.details.name, q.search))
  {
    ContainsFolded(s.ref.id, q.search);
    ContainsFolded(s.details.name, q.search);
  }

  lemma {:induction false} ListingHolds(refs: seq<Ref>, q: Query, load: Loader, s: Summary)
    ensures s in Listing(refs, q, load) <==> s.ref in refs && Shown(s.ref, q, load) == [s]
  {
    if refs != [] {
      ListingHolds(refs[1..], q, load, s);
      assert refs == [refs[0]] + refs[1..];
    }
  }

  // ---------- One page ----------

  function PageSizeOf(q: Query): nat { if q.pageSize <= 0 then DefaultPageSize else q.pageSize }

  function MaxScan(q: Query): nat {
    var m := PageSizeOf(q) * FilteredScanPageMultiple;
    if m > MaxFilteredScanKeys then MaxFilteredScanKeys else m
  }

  /** A backend that keeps to the page size it is asked for makes pages that fit. */
  predicate PagesFit(pages: seq<seq<string>>, q: Query) {
    forall i :: 0 <= i < |pages| ==> |pages[i]| <= PageSizeOf(q)
  }

  /** The instances a call that scans pages a to b loads. */
  function Scope(pages: seq<seq<string>>, a: nat, b: nat): seq<Ref>
    requires a <= b <= |pages|
  {
    NewRefs(Flatten(pages[a..b]), {})
  }

  /** A call leaves out no instance named on the pages it scans exactly when different ones have
      different dedup keys. */
  lemma CallHidesNothingIff(pages: seq<seq<string>>, a: nat, b: nat)
    requires a <= b <= |pages|
    ensures var refs := AllRefs(Flatten(pages[a..b]));
            (forall r <- refs :: r in Scope(pages, a, b)) <==> Unambiguous(refs)
  {
    NothingHiddenIff(Flatten(pages[a..b]));
  }

  lemma ScanPage(pages: seq<seq<string>>, a: nat, b: nat, q: Query, load: Loader)
    requires a <= b < |pages|
    ensures Flatten(pages[a..b + 1]) == Flatten(pages[a..b]) + pages[b]
    ensures var seen := SeenAfter(Scope(pages, a, b), {});
            var refs := NewRefs(pages[b], seen);
            && Scope(pages, a, b + 1) == Scope(pages, a, b) + refs
            && SeenAfter(Scope(pages, a, b + 1), {}) == SeenAfter(refs, seen)
            && Listing(Scope(pages, a, b + 1), q, load) == Listing(Scope(pages, a, b), q, load) + Listing(refs, q, load)
            && |Listing(refs, q, load)| <= |pages[b]|
  {
    assert pages[a..b + 1] == pages[a..b] + [pages[b]];
    FlattenSnoc(pages[a..b], pages[b]);
    NewRefsConcat(Flatten(pages[a..b]), pages[b], {});
    var refs := NewRefs(pages[b], SeenAfter(Scope(pages, a, b), {}));
    ListingConcat(Scope(pages, a, b), refs, q, load);
    ListingBound(refs, q, load);
    NewRefsBound(pages[b], SeenAfter(Scope(pages, a, b), {}));
  }

  lemma NewerIsStrictWeak()
    ensures StrictWeak(Newer)
  {
  }

  lemma {:induction false} ListingSnoc(refs: seq<Ref>, i: nat, q: Query, load: Loader)
    requires i < |refs|
    ensures Listing(refs[..i + 1], q, load) == Listing(refs[..i], q, load) + Shown(refs[i], q, load)
  {
    assert refs[..i + 1] == refs[..i] + [refs[i]];
    ListingConcat(refs[..i], [refs[i]], q, load);
    assert Listing([refs[i]], q, load) == Shown(refs[i], q, load) + [];
  }

  /** The inner loop of List: keep what loads and matches. */
  method LoadMatching(refs: seq<Ref>, q: Query, load: Loader) returns (items: seq<Summary>)
    ensures items == Listing(refs, q, load)
  {
    items := [];
    for i := 0 to |refs|
      invariant items == Listing(refs[..i], q, load)
    {
      ListingSnoc(refs, i, q, load);
      var found := load(refs[i]);
      if found.Some? && MatchesQuery(Summary(refs[i], found.value), q) {
        items := items + [Summary(refs[i], found.value)];
      }
    }
    assert refs[..|refs|] == refs;
  }

  /** One turn of the loop-fill: the page at index at is scanned after those from token on. */
  method ReadPage(pages: seq<seq<string>>, ghost token: nat, at: nat, q: Query, load: Loader,
                  items: seq<Summary>, scanned: nat, seen: set<string>)
      returns (items': seq<Summary>, scanned': nat, seen': set<string>)
    requires token <= at < |pages|
    requires scanned == |Flatten(pages[token..at])|
    requires items == Listing(Scope(pages, token, at), q, load)
    requires seen == SeenAfter(Scope(pages, token, at), {})
    ensures scanned' == |Flatten(pages[token..at + 1])| == scanned + |pages[at]|
    ensures items' == Listing(Scope(pages, token, at + 1), q, load) && |items'| <= |items| + |pages[at]|
    ensures seen' == SeenAfter(Scope(pages, token, at + 1), {})
  {
    ScanPage(pages, token, at, q, load);
    scanned' := scanned + |pages[at]|;
    var refs;
    refs, seen' := RefsFromKeys(pages[at], seen);
    var more := LoadMatching(refs, q, load);
    items' := items + more;
  }

  method Limits(q: Query) returns (pageSize: nat, filtered: bool, maxScan: nat)
    ensures pageSize == PageSizeOf(q) && filtered == Filtered(q) && maxScan == MaxScan(q)
    ensures pageSize == if q.pageSize <= 0 then 50 else q.pageSize
    ensures filtered <==> q.status != [] || q.search != "" || !q.includeChildren
    ensures maxScan == (if pageSize > 200 then 2000 else 10 * pageSize) && 0 < maxScan
  {
    pageSize := if q.pageSize <= 0 then DefaultPageSize else q.pageSize;
    filtered := q.status != [] || q.search != "" || !q.includeChildren;
    maxScan := pageSize * FilteredScanPageMultiple;
    if maxScan > MaxFilteredScanKeys {
      maxScan := MaxFilteredScanKeys;
    }
  }

  /** The loop-fill of List. */
  method Collect(pages: seq<seq<string>>, token: nat, q: Query, load: Loader) returns (items: seq<Summary>, next: nat, scanned: nat)
    requires token < |pages|
    ensures next < |pages| && token < EndOf(pages, next)
    ensures items == Listing(Scope(pages, token, EndOf(pages, next)), q, load)
    ensures scanned == |Flatten(pages[token..EndOf(pages, next)])|
    ensures !Filtered(q) ==> EndOf(pages, next) == token + 1
    ensures PagesFit(pages, q) && !Filtered(q) ==> |items| <= PageSizeOf(q)
    ensures PagesFit(pages, q) ==> |items| < 2 * PageSizeOf(q) && scanned <= MaxScan(q) + PageSizeOf(q) - 1
    ensures Filtered(q) && next != 0 ==> |items| >= PageSizeOf(q) || scanned >= MaxScan(q)
  {
    var pageSize, filtered, maxScan := Limits(q);
    items, next, scanned := [], 0, 0;
    var seen: set<string>, at := {}, token;
    assert pages[token..token] == [];
    while true
      invariant token <= at < |pages|
      invariant at > token ==> filtered
      invariant at == token ==> items == []
      invariant scanned == |Flatten(pages[token..at])| && scanned < maxScan && |items| < pageSize
      invariant items == Listing(Scope(pages, token, at), q, load)
      invariant seen == SeenAfter(Scope(pages, token, at), {})
      decreases |pages| - at
    {
      next := NextToken(pages, at);
      items, scanned, seen := ReadPage(pages, token, at, q, load, items, scanned, seen);
      if !filtered || |items| >= pageSize || next == 0 || scanned >= maxScan {
        break;
      }
      at := next;
    }
  }

  lemma ListedIff(found: seq<Summary>, items: seq<Summary>, refs: seq<Ref>, q: Query, load: Loader)
    requires found == Listing(refs, q, load) && multiset(items) == multiset(found)
    ensures forall s: Summary :: s in items <==>
              && s.ref in refs && load(s.ref) == Some(s.details)
              && (q.status == [] || s.details.status in q.status)
              && (q.includeChildren || s.details.parent == "")
              && (q.search == "" || FoundIn(s.ref.id, q.search) || FoundIn(s.details.name, q.search))
  {
    forall s: Summary ensures s in items <==> s.ref in refs && Shown(s.ref, q, load) == [s] {
      ListingHolds(refs, q, load, s);
      assert s in items <==> s in multiset(items);
      assert s in found <==> s in multiset(found);
    }
    forall s: Summary
      ensures Shown(s.ref, q, load) == [s] <==>
              && load(s.ref) == Some(s.details)
              && (q.status == [] || s.details.status in q.status)
              && (q.includeChildren || s.details.parent == "")
              && (q.search == "" || FoundIn(s.ref.id, q.search) || FoundIn(s.details.name, q.search))
    {
      ShownIff(s, q, load);
    }
  }

  lemma NewestFirst(items: seq<Summary>)
    requires SortedBy(items, Newer)
    ensures forall i, j :: 0 <= i < j < |items| && items[j].details.createdAt.Some? ==>
              items[i].details.createdAt.Some? && items[i].details.createdAt.value >= items[j].details.createdAt.value
  {
    forall i, j | 0 <= i < j < |items| && items[j].details.createdAt.Some?
      ensures items[i].details.createdAt.Some? && items[i].details.createdAt.value >= items[j].details.createdAt.value
    {
      assert !Newer(items[j], items[i]);
    }
  }

  /** One page: every match found in the keys scanned, newest first.  From a backend whose pages
      fit, an unfiltered call reads one key page and its truncation drops nothing; a filtered one
      is never truncated, returns fewer than twice the page size, and scans at most
      maxScan + pageSize - 1 keys. */
  method List(pages: seq<seq<string>>, token: nat, q: Query, load: Loader) returns (items: seq<Summary>, next: nat, scanned: nat)
    requires token < |pages|
    ensures next < |pages| && token < EndOf(pages, next)
    ensures PagesFit(pages, q) || Filtered(q) ==>
              multiset(items) == multiset(Listing(Scope(pages, token, EndOf(pages, next)), q, load))
    ensures PagesFit(pages, q) || Filtered(q) ==>
              forall s: Summary :: s in items <==>
                && s.ref in Scope(pages, token, EndOf(pages, next)) && load(s.ref) == Some(s.details)
                && (q.status == [] || s.details.status in q.status)
                && (q.includeChildren || s.details.parent == "")
                && (q.search == "" || FoundIn(s.ref.id, q.search) || FoundIn(s.details.name, q.search))
    ensures forall i, j :: 0 <= i < j < |items| && items[j].details.createdAt.Some? ==>
              items[i].details.createdAt.Some? && items[i].details.createdAt.value >= items[j].details.createdAt.value
    ensures scanned == |Flatten(pages[token..EndOf(pages, next)])|
    ensures !Filtered(q) ==> EndOf(pages, next) == token + 1 && |items| <= PageSizeOf(q)
    ensures PagesFit(pages, q) ==> |items| < 2 * PageSizeOf(q) && scanned <= MaxScan(q) + PageSizeOf(q) - 1
    ensures Filtered(q) && next != 0 ==> |items| >= PageSizeOf(q) || scanned >= MaxScan(q)
  {
    var found;
    found, next, scanned := Collect(pages, token, q, load);
    NewerIsStrictWeak();
    SortSorted(found, Newer);
    items := StableSort(found, Newer);
    assert |items| == |multiset(items)| == |multiset(found)| == |found|;
    ListedIff(found, items, Scope(pages, token, EndOf(pages, next)), q, load);
    NewestFirst(items);
    if !Filtered(q) && |items| > PageSizeOf(q) {
      items := items[..PageSizeOf(q)];
    }
  }

  lemma GluePages(shown: seq<Summary>, a: seq<Ref>, items: seq<Summary>, b: seq<Ref>, q: Query, load: Loader)
    requires multiset(shown) == multiset(Listing(a, q, load)) && multiset(items) == multiset(Listing(b, q, load))
    ensures multiset(shown + items) == multiset(Listing(a + b, q, load))
  {
    ListingConcat(a, b, q, load);
  }

  /** The instances the calls of a client load whose calls end at the pages in ends. */
  function Covered(pages: seq<seq<string>>, ends: seq<nat>): seq<Ref>
    requires EndsRise(pages, ends)
  {
    if ends == [] then []
    else
      var most, end := ends[..|ends| - 1], ends[|ends| - 1];
      Covered(pages, most) + Scope(pages, StartOf(most), end)
  }

  /** Where the call after those starts. */
  function StartOf(ends: seq<nat>): nat { if ends == [] then 0 else ends[|ends| - 1] }

  predicate EndsRise(pages: seq<seq<string>>, ends: seq<nat>) {
    && (forall i :: 0 <= i < |ends| ==> ends[i] <= |pages|)
    && (forall i :: 0 < i < |ends| ==> ends[i - 1] <= ends[i])
  }

  /** Within each call the instances named have different dedup keys. */
  ghost predicate DistinctPerCall(pages: seq<seq<string>>, ends: seq<nat>)
    requires EndsRise(pages, ends)
  {
    ends != [] ==>
      var most, end := ends[..|ends| - 1], ends[|ends| - 1];
      DistinctPerCall(pages, most) && DistinctRefs(AllRefs(Flatten(pages[StartOf(most)..end])))
  }

  /** For every key that names an instance the calls load it, once for each such key, exactly when
      within each of them no two keys share a dedup key: what a call has seen is forgotten by the
      next. */
  lemma {:induction false} CoversAllIff(pages: seq<seq<string>>, ends: seq<nat>)
    requires EndsRise(pages, ends)
    ensures Covered(pages, ends) == AllRefs(Flatten(pages[..StartOf(ends)])) <==> DistinctPerCall(pages, ends)
    ensures |Covered(pages, ends)| <= |AllRefs(Flatten(pages[..StartOf(ends)]))|
  {
    if ends != [] {
      var most, end := ends[..|ends| - 1], ends[|ends| - 1];
      var start := StartOf(most);
      CoversAllIff(pages, most);
      PartsOfPages(pages, start, end);
      AllNewIff(Flatten(pages[start..end]));
      NewRefsFewer(Flatten(pages[start..end]), {});
      SameInParts(Covered(pages, most), AllRefs(Flatten(pages[..start])), Scope(pages, start, end), AllRefs(Flatten(pages[start..end])));
    }
  }

  lemma SameInParts(a: seq<Ref>, a': seq<Ref>, b: seq<Ref>, b': seq<Ref>)
    requires |a| <= |a'| && |b| <= |b'|
    ensures a + b == a' + b' <==> a == a' && b == b'
  {
    if a + b == a' + b' {
      assert |a| == |a'|;
      assert a == (a + b)[..|a|] == a' && b == (a + b)[|a|..] == b';
    }
  }

  lemma PartsOfPages(pages: seq<seq<string>>, a: nat, b: nat)
    requires a <= b <= |pages|
    ensures AllRefs(Flatten(pages[..b])) == AllRefs(Flatten(pages[..a])) + AllRefs(Flatten(pages[a..b]))
  {
    assert pages[..b] == pages[..a] + pages[a..b];
    RefsInTwo(pages[..a], pages[a..b]);
  }

  lemma RefsInTwo(x: seq<seq<string>>, y: seq<seq<string>>)
    ensures AllRefs(Flatten(x + y)) == AllRefs(Flatten(x)) + AllRefs(Flatten(y))
  {
    FlattenConcat(x, y);
    AllRefsConcat(Flatten(x), Flatten(y));
  }

  lemma {:induction false} NewRefsFewer(keys: seq<string>, seen: set<string>)
    ensures |NewRefs(keys, seen)| <= |AllRefs(keys)|
  {
    if keys != [] {
      var r := RefOf(keys[0]);
      NewRefsFewer(keys[1..], if r.None? || DedupKey(r.value) in seen then seen else seen + {DedupKey(r.value)});
    }
  }

  lemma CoverOneMore(pages: seq<seq<string>>, ends: seq<nat>, end: nat)
    requires EndsRise(pages, ends) && StartOf(ends) <= end <= |pages|
    ensures EndsRise(pages, ends + [end]) && StartOf(ends + [end]) == end
    ensures Covered(pages, ends + [end]) == Covered(pages, ends) + Scope(pages, StartOf(ends), end)
  {
    assert (ends + [end])[..|ends|] == ends;
  }

  // ---------- Every instance once ----------

  /** How many of the calls load r: those in which it comes before all others with its dedup key. */
  function CallsLoading(pages: seq<seq<string>>, ends: seq<nat>, r: Ref): nat
    requires EndsRise(pages, ends)
  {
    if ends == [] then 0
    else
      var most, end := ends[..|ends| - 1], ends[|ends| - 1];
      CallsLoading(pages, most, r) + if Leads(AllRefs(Flatten(pages[StartOf(most)..end])), r) then 1 else 0
  }

  lemma {:induction false} DistinctOnce(refs: seq<Ref>, r: Ref)
    requires DistinctRefs(refs)
    ensures multiset(refs)[r] == if r in refs then 1 else 0
  {
    if refs != [] {
      var rest := refs[1..];
      assert refs == [refs[0]] + rest;
      assert forall i :: 0 <= i < |rest| ==> rest[i] == refs[i + 1];
      DistinctOnce(rest, r);
    }
  }

  lemma {:induction false} CoveredTimes(pages: seq<seq<string>>, ends: seq<nat>, r: Ref)
    requires EndsRise(pages, ends)
    ensures multiset(Covered(pages, ends))[r] == CallsLoading(pages, ends, r)
  {
    if ends != [] {
      var most, end := ends[..|ends| - 1], ends[|ends| - 1];
      var keys := Flatten(pages[StartOf(most)..end]);
      CoveredTimes(pages, most, r);
      LoadedIffLeads(keys, {}, r);
      NewRefsAreDistinct(keys, {});
      DistinctOnce(NewRefs(keys, {}), r);
    }
  }

  lemma ShownTimes(r: Ref, q: Query, load: Loader, s: Summary)
    ensures multiset(Shown(r, q, load))[s] == if r == s.ref && Shown(s.ref, q, load) == [s] then 1 else 0
  {
  }

  lemma CountSnoc(r: Ref, rest: seq<Ref>, x: Ref)
    ensures multiset([r] + rest)[x] == (if r == x then 1 else 0) + multiset(rest)[x]
  {
  }

  lemma {:induction false} ListingTimes(refs: seq<Ref>, q: Query, load: Loader, s: Summary)
    ensures multiset(Listing(refs, q, load))[s] == if Shown(s.ref, q, load) == [s] then multiset(refs)[s.ref] else 0
  {
    if refs != [] {
      ListingTimes(refs[1..], q, load, s);
      ShownTimes(refs[0], q, load, s);
      CountSnoc(refs[0], refs[1..], s.ref);
      assert refs == [refs[0]] + refs[1..];
      assert multiset(Listing(refs, q, load)) == multiset(Shown(refs[0], q, load)) + multiset(Listing(refs[1..], q, load));
    }
  }

  /** all holds every loadable instance of refs that the query accepts, once, and nothing else. */
  ghost predicate EachOnce(all: multiset<Summary>, refs: seq<Ref>, q: Query, load: Loader) {
    forall s :: all[s] == if s.ref in refs && Shown(s.ref, q, load) == [s] then 1 else 0
  }

  /** The instances named on the pages the calls have scanned, and on those the last call has. */
  function Scanned(pages: seq<seq<string>>, ends: seq<nat>): seq<Ref>
    requires EndsRise(pages, ends)
  {
    AllRefs(Flatten(pages[..StartOf(ends)]))
  }

  function ScannedLast(pages: seq<seq<string>>, ends: seq<nat>): seq<Ref>
    requires EndsRise(pages, ends) && ends != []
  {
    AllRefs(Flatten(pages[StartOf(ends[..|ends| - 1])..ends[|ends| - 1]]))
  }

  lemma ScannedByLast(pages: seq<seq<string>>, ends: seq<nat>)
    requires EndsRise(pages, ends) && ends != []
    ensures EndsRise(pages, ends[..|ends| - 1])
    ensures Scanned(pages, ends) == Scanned(pages, ends[..|ends| - 1]) + ScannedLast(pages, ends)
  {
    PartsOfPages(pages, StartOf(ends[..|ends| - 1]), ends[|ends| - 1]);
  }

  lemma {:induction false} LeaderIsNamed(refs: seq<Ref>, r: Ref)
    requires Leads(refs, r)
    ensures r in refs
  {
    LeadersDiffer(refs, r, r);
  }

  lemma {:induction false} LoadedIsNamed(pages: seq<seq<string>>, ends: seq<nat>, r: Ref)
    requires EndsRise(pages, ends) && CallsLoading(pages, ends, r) > 0
    ensures r in Scanned(pages, ends)
  {
    var most := ends[..|ends| - 1];
    ScannedByLast(pages, ends);
    if CallsLoading(pages, most, r) > 0 {
      LoadedIsNamed(pages, most, r);
    } else {
      LeaderIsNamed(ScannedLast(pages, ends), r);
    }
  }

  /** all holds each summary as often as calls load its instance, which is what a client is given. */
  ghost predicate AsLoaded(all: multiset<Summary>, pages: seq<seq<string>>, ends: seq<nat>, q: Query, load: Loader)
    requires EndsRise(pages, ends)
  {
    forall s :: all[s] == if Shown(s.ref, q, load) == [s] then CallsLoading(pages, ends, s.ref) else 0
  }

  /** What the calls return is every summary as often as they load its instance. */
  lemma ReturnedTimes(pages: seq<seq<string>>, ends: seq<nat>, q: Query, load: Loader)
    requires EndsRise(pages, ends)
    ensures AsLoaded(multiset(Listing(Covered(pages, ends), q, load)), pages, ends, q, load)
  {
    forall s
      ensures multiset(Listing(Covered(pages, ends), q, load))[s] ==
              if Shown(s.ref, q, load) == [s] then CallsLoading(pages, ends, s.ref) else 0
    {
      ListingTimes(Covered(pages, ends), q, load, s);
      CoveredTimes(pages, ends, s.ref);
    }
  }

  /** Each loadable instance the query accepts comes exactly once if and only if one call loads it. */
  lemma EachOnceIff(pages: seq<seq<string>>, ends: seq<nat>, q: Query, load: Loader, all: multiset<Summary>)
    requires EndsRise(pages, ends) && AsLoaded(all, pages, ends, q, load)
    ensures EachOnce(all, Scanned(pages, ends), q, load) <==>
            forall r <- Scanned(pages, ends) :: Shown(r, q, load) != [] ==> CallsLoading(pages, ends, r) == 1
  {
    var refs := Scanned(pages, ends);
    if EachOnce(all, refs, q, load) {
      forall r <- refs | Shown(r, q, load) != [] ensures CallsLoading(pages, ends, r) == 1 {
        assert all[Shown(r, q, load)[0]] == 1;
      }
    }
    forall s: Summary | CallsLoading(pages, ends, s.ref) > 0 ensures s.ref in refs {
      LoadedIsNamed(pages, ends, s.ref);
    }
  }

  ghost predicate LoadedOnce(pages: seq<seq<string>>, ends: seq<nat>)
    requires EndsRise(pages, ends)
  {
    forall r <- Scanned(pages, ends) :: CallsLoading(pages, ends, r) == 1
  }

  /** No two calls scan keys of one instance. */
  ghost predicate NamedByOneCall(pages: seq<seq<string>>, ends: seq<nat>)
    requires EndsRise(pages, ends)
  {
    ends != [] ==>
      var most := ends[..|ends| - 1];
      NamedByOneCall(pages, most) && forall r <- ScannedLast(pages, ends) :: r !in Scanned(pages, most)
  }

  lemma {:induction false} NamedIsLoaded(pages: seq<seq<string>>, ends: seq<nat>, r: Ref)
    requires EndsRise(pages, ends) && Unambiguous(Scanned(pages, ends))
    ensures r in Scanned(pages, ends) <==> CallsLoading(pages, ends, r) > 0
  {
    if CallsLoading(pages, ends, r) > 0 {
      LoadedIsNamed(pages, ends, r);
    } else if ends != [] {
      ScannedByLast(pages, ends);
      NamedIsLoaded(pages, ends[..|ends| - 1], r);
      if r in ScannedLast(pages, ends) {
        UnambiguousLeads(ScannedLast(pages, ends), r);
      }
    }
  }

  /** What the last call adds to the instances named and to how often one is loaded. */
  lemma OneMoreCall(pages: seq<seq<string>>, ends: seq<nat>, r: Ref)
    requires EndsRise(pages, ends) && ends != []
    ensures var most, last := ends[..|ends| - 1], ScannedLast(pages, ends);
            && EndsRise(pages, most)
            && (r in Scanned(pages, ends) <==> r in Scanned(pages, most) || r in last)
            && CallsLoading(pages, ends, r) == CallsLoading(pages, most, r) + (if Leads(last, r) then 1 else 0)
            && (Leads(last, r) ==> r in last)
            && (CallsLoading(pages, most, r) > 0 ==> r in Scanned(pages, most))
  {
    ScannedByLast(pages, ends);
    if Leads(ScannedLast(pages, ends), r) {
      LeaderIsNamed(ScannedLast(pages, ends), r);
    }
    if CallsLoading(pages, ends[..|ends| - 1], r) > 0 {
      LoadedIsNamed(pages, ends[..|ends| - 1], r);
    }
  }

  /** When dedup keys are unambiguous, as for app ids without a slash: every instance named is loaded
      exactly once if and only if no two calls scan keys of one instance. */
  lemma {:induction false} LoadedOnceIffNamedByOneCall(pages: seq<seq<string>>, ends: seq<nat>)
    requires EndsRise(pages, ends) && Unambiguous(Scanned(pages, ends))
    ensures LoadedOnce(pages, ends) <==> NamedByOneCall(pages, ends)
  {
    if ends != [] {
      var most, last := ends[..|ends| - 1], ScannedLast(pages, ends);
      ScannedByLast(pages, ends);
      LoadedOnceIffNamedByOneCall(pages, most);
      forall r <- Scanned(pages, ends)
        ensures CallsLoading(pages, ends, r) == 1 <==>
                (r in Scanned(pages, most) ==> CallsLoading(pages, most, r) == 1) && !(r in last && r in Scanned(pages, most))
      {
        OneMoreCall(pages, ends, r);
        NamedIsLoaded(pages, most, r);
        if r in last {
          UnambiguousLeads(last, r);
        }
      }
      assert forall r <- last :: r in Scanned(pages, ends);
      assert forall r <- Scanned(pages, most) :: r in Scanned(pages, ends);
    }
  }

  /** When the keys name pairwise different instances: every one is loaded exactly once if and only
      if no two of one call share a dedup key. */
  lemma {:induction false} LoadedOnceIffDistinctPerCall(pages: seq<seq<string>>, ends: seq<nat>)
    requires EndsRise(pages, ends) && Different(Scanned(pages, ends))
    ensures LoadedOnce(pages, ends) <==> DistinctPerCall(pages, ends)
  {
    if ends != [] {
      var most, last := ends[..|ends| - 1], ScannedLast(pages, ends);
      ScannedByLast(pages, ends);
      DifferentParts(Scanned(pages, most), last);
      LoadedOnceIffDistinctPerCall(pages, most);
      DistinctIff(last);
      LeadAllIff(last);
      forall r <- Scanned(pages, ends)
        ensures CallsLoading(pages, ends, r) == 1 <==> if r in last then Leads(last, r) else CallsLoading(pages, most, r) == 1
      {
        OneMoreCall(pages, ends, r);
      }
      assert forall r <- last :: r in Scanned(pages, ends);
      assert forall r <- Scanned(pages, most) :: r in Scanned(pages, ends) && r !in last;
    }
  }

  lemma LeadAllIff(refs: seq<Ref>)
    ensures (forall r <- refs :: Leads(refs, r)) <==> Unambiguous(refs)
  {
    if Unambiguous(refs) {
      forall r <- refs ensures Leads(refs, r) {
        UnambiguousLeads(refs, r);
      }
    }
    if forall r <- refs :: Leads(refs, r) {
      forall r, s | r in refs && s in refs && DedupKey(r) == DedupKey(s) ensures r == s {
        LeadersDiffer(refs, r, s);
      }
    }
  }

  lemma DifferentParts(a: seq<Ref>, b: seq<Ref>)
    requires Different(a + b)
    ensures Different(a) && Different(b) && forall r <- b :: r !in a
  {
    var all := a + b;
    assert forall i :: 0 <= i < |a| ==> all[i] == a[i];
    assert forall j :: 0 <= j < |b| ==> all[|a| + j] == b[j];
  }

  lemma DistinctParts(a: seq<Ref>, b: seq<Ref>)
    requires DistinctRefs(a + b)
    ensures DistinctRefs(a) && DistinctRefs(b)
  {
    var all := a + b;
    assert forall i :: 0 <= i < |a| ==> all[i] == a[i];
    assert forall j :: 0 <= j < |b| ==> all[|a| + j] == b[j];
  }

  /** A listing whose dedup keys are all different is so within each call. */
  lemma {:induction false} DistinctInEachCall(pages: seq<seq<string>>, ends: seq<nat>)
    requires EndsRise(pages, ends) && DistinctRefs(Scanned(pages, ends))
    ensures DistinctPerCall(pages, ends)
  {
    if ends != [] {
      var most, last := ends[..|ends| - 1], ScannedLast(pages, ends);
      ScannedByLast(pages, ends);
      DistinctParts(Scanned(pages, most), last);
      DistinctInEachCall(pages, most);
    }
  }

  /** Metadata keys listed once each: every instance is loaded exactly once, however the keys are cut
      into pages and calls, when no app id holds a slash; for any app ids, exactly when within each
      call no two instances share a dedup key. */
  lemma MetaListedOnce(pages: seq<seq<string>>, ends: seq<nat>, ns: string)
    requires EndsRise(pages, ends) && ListsMeta(Flatten(pages[..StartOf(ends)]), ns)
    ensures LoadedOnce(pages, ends) <==> DistinctPerCall(pages, ends)
    ensures (forall r <- Scanned(pages, ends) :: SlashFree(r)) ==> LoadedOnce(pages, ends)
  {
    MetaKeysDiffer(Flatten(pages[..StartOf(ends)]), ns);
    LoadedOnceIffDistinctPerCall(pages, ends);
    if forall r <- Scanned(pages, ends) :: SlashFree(r) {
      MetaKeysAreDistinct(Flatten(pages[..StartOf(ends)]), ns);
      DistinctInEachCall(pages, ends);
    }
  }

  /** A client that starts with the empty token and follows NextToken until it is empty again: it
      stops, and has been given each accepted instance as often as calls of its load it.  From a
      listing of each metadata key once that is exactly once for app ids without a slash; for any
      app ids, when within each call no two instances share a dedup key.  ends says at which pages
      its calls ended. */
  method FollowTokens(pages: seq<seq<string>>, q: Query, load: Loader) returns (all: seq<Summary>, ends: seq<nat>)
    requires pages != [] && (PagesFit(pages, q) || Filtered(q))
    ensures |ends| <= |pages| && EndsRise(pages, ends) && StartOf(ends) == |pages|
    ensures multiset(all) == multiset(Listing(Covered(pages, ends), q, load))
    ensures AsLoaded(multiset(all), pages, ends, q, load)
    ensures forall s: Summary :: s in all <==>
              && CallsLoading(pages, ends, s.ref) > 0 && load(s.ref) == Some(s.details)
              && (q.status == [] || s.details.status in q.status)
              && (q.includeChildren || s.details.parent == "")
              && (q.search == "" || FoundIn(s.ref.id, q.search) || FoundIn(s.details.name, q.search))
    ensures DistinctRefs(AllRefs(Flatten(pages))) ==> DistinctPerCall(pages, ends)
    ensures DistinctPerCall(pages, ends) ==> multiset(all) == multiset(Listing(AllRefs(Flatten(pages)), q, load))
    ensures forall ns :: ListsMeta(Flatten(pages), ns) && (DistinctPerCall(pages, ends) || forall r <- AllRefs(Flatten(pages)) :: SlashFree(r)) ==>
              EachOnce(multiset(all), AllRefs(Flatten(pages)), q, load)
  {
    all, ends := [], [];
    var token := 0;
    while true
      invariant token < |pages| && |ends| <= token
      invariant EndsRise(pages, ends) && StartOf(ends) == token
      invariant multiset(all) == multiset(Listing(Covered(pages, ends), q, load))
      decreases |pages| - token
    {
      var items, next, scanned := List(pages, token, q, load);
      var end := EndOf(pages, next);
      GluePages(all, Covered(pages, ends), items, Scope(pages, token, end), q, load);
      CoverOneMore(pages, ends, end);
      all, ends := all + items, ends + [end];
      if next == 0 {
        break;
      }
      token := next;
    }
    CoversAllIff(pages, ends);
    assert pages[..|pages|] == pages;
    if DistinctRefs(AllRefs(Flatten(pages))) {
      DistinctInEachCall(pages, ends);
    }
    ReturnedTimes(pages, ends, q, load);
    forall s: Summary
      ensures s in all <==>
              && CallsLoading(pages, ends, s.ref) > 0 && load(s.ref) == Some(s.details)
              && (q.status == [] || s.details.status in q.status)
              && (q.includeChildren || s.details.parent == "")
              && (q.search == "" || FoundIn(s.ref.id, q.search) || FoundIn(s.details.name, q.search))
    {
      ShownIff(s, q, load);
      assert s in all <==> multiset(all)[s] > 0;
    }
    forall ns | ListsMeta(Flatten(pages), ns) && (DistinctPerCall(pages, ends) || forall r <- AllRefs(Flatten(pages)) :: SlashFree(r))
      ensures EachOnce(multiset(all), AllRefs(Flatten(pages)), q, load)
    {
      MetaListedOnce(pages, ends, ns);
      EachOnceIff(pages, ends, q, load, multiset(all));
    }
  }

  // ---------- App ids with a slash ----------

  lemma RefOfMetaKey(ns: string, r: Ref)
    requires BarFree(ns) && BarFree(r.appID) && Segment(r.id) && r.appID != "" && r.id != ""
    ensures RefOf(MetaKey(ns, r)) == Some(r)
  {
    ParseBack(ns, r.appID, r.id, SuffixMetadata);
  }

  /** Whatever a, b and c: of app a's instance b/c and app a/b's instance c, listed on one page, the
      second is hidden. */
  lemma SlashHidesInstance(ns: string, a: string, b: string, c: string, q: Query, load: Loader)
    requires BarFree(ns) && BarFree(a) && BarFree(b) && BarFree(c) && a != "" && c != ""
    ensures var r, hidden := Ref(a, b + "/" + c), Ref(a + "/" + b, c);
            var page := [MetaKey(ns, r), MetaKey(ns, hidden)];
            && r != hidden && AllRefs(page) == [r, hidden] && NewRefs(page, {}) == [r]
            && Listing(Scope([page], 0, 1), q, load) == Shown(r, q, load)
  {
    var r, hidden := Ref(a, b + "/" + c), Ref(a + "/" + b, c);
    var page := [MetaKey(ns, r), MetaKey(ns, hidden)];
    BarFreeSegment(r.id);
    BarFreeSegment(c);
    RefOfMetaKey(ns, r);
    RefOfMetaKey(ns, hidden);
    assert DedupKey(r) == a + "/" + b + "/" + c == DedupKey(hidden);
    TwoKeys(MetaKey(ns, r), MetaKey(ns, hidden), r, hidden);
    OnePage(page);
    OneShown(r, q, load);
  }

  lemma OnePage(page: seq<string>)
    ensures Scope([page], 0, 1) == NewRefs(page, {})
  {
    assert [page][0..1] == [page] && Flatten([page]) == page + Flatten([]);
    assert page + [] == page;
  }

  lemma OneShown(r: Ref, q: Query, load: Loader)
    ensures Listing([r], q, load) == Shown(r, q, load)
  {
    assert Listing([r], q, load) == Shown(r, q, load) + Listing([], q, load);
  }

  lemma NamedOne(k: string, refOf: string -> Option<Ref>, r: Ref)
    requires refOf(k) == Some(r)
    ensures Named([k], refOf) == [r]
  {
    assert Named([k], refOf) == Naming(refOf(k)) + Named([], refOf);
  }

  lemma TwoKeys(k: string, l: string, r: Ref, s: Ref)
    requires RefOf(k) == Some(r) && RefOf(l) == Some(s) && DedupKey(r) == DedupKey(s)
    ensures AllRefs([k, l]) == [r, s] && NewRefs([k, l], {}) == [r]
  {
    assert [k, l][1..] == [l] && [l][1..] == [];
    NamedOne(k, RefOf, r);
    NamedOne(l, RefOf, s);
    AllRefsConcat([k], [l]);
    assert [k] + [l] == [k, l];
    assert NewRefs([l], {} + {DedupKey(r)}) == NewRefs([], {} + {DedupKey(r)});
  }
}
