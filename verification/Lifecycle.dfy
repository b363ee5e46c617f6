/** The registry of stopped apps, the overlay that corrects and completes process scans with it,
    and the dismissals over both (pkg/lifecycle). */
module Lifecycle {
  import opened Options
  import opened Text

  datatype Target = TargetApp | TargetDaprd | TargetAll

  datatype Status = Running | Stopped | Unknown

  datatype Source = Standalone | Aspire | Compose | Testcontainers

  datatype Instance = Instance(key: string, appId: string, source: Source, orphaned: bool,
                               appStatus: Status, daprdStatus: Status, appPid: int, daprdPid: int, cliPid: int)

  datatype Snap = Snap(pid: int, command: string)

  datatype Entry = Entry(instance: Instance, procs: map<Target, Snap>)

  type Entries = map<string, Entry>

  datatype Reg = Reg(entries: Entries, suppressed: set<string>)

  function PidOf(x: Instance, t: Target): int {
    match t case TargetApp => x.appPid case TargetDaprd => x.daprdPid case TargetAll => x.cliPid
  }

  predicate InContainer(x: Instance) { x.source.Compose? || x.source.Testcontainers? }

  predicate FullyStopped(x: Instance) { x.appStatus.Stopped? && x.daprdStatus.Stopped? }

  // ---------- The registry ----------

  function Recorded(es: Entries, x: Instance, snaps: map<Target, Snap>): Entries {
    es[x.key := Entry(x, (if x.key in es then es[x.key].procs else map[]) + snaps)]
  }

  /** The entry disappears with its last snapshot. */
  function WithoutTarget(es: Entries, key: string, t: Target): Entries {
    if key !in es then es
    else
      var procs := es[key].procs - {t};
      if procs == map[] then es - {key} else es[key := es[key].(procs := procs)]
  }

  ghost predicate FirstWithApp(es: Entries, appId: string, k: string) {
    && k in es && es[k].instance.appId == appId
    && forall j :: j in es && j != k && es[j].instance.appId == appId ==> Less(k, j)
  }

  /** The key whose entry answers for key: its own, else the first with that app id. */
  ghost function Resolved(es: Entries, key: string): Option<string> {
    if key in es then Some(key)
    else if exists k :: FirstWithApp(es, key, k) then (var k :| FirstWithApp(es, key, k); Some(k))
    else None
  }

  lemma FirstUnique(es: Entries, appId: string, j: string, k: string)
    requires FirstWithApp(es, appId, j) && FirstWithApp(es, appId, k)
    ensures j == k
  {
    if j != k {
      LessAsymmetric(j, k);
    }
  }

  // ---------- The overlay ----------

  predicate Stale(procs: map<Target, Snap>, x: Instance, t: Target) {
    t in procs && PidOf(x, t) != 0 && PidOf(x, t) != procs[t].pid
  }

  datatype Applied = Applied(entries: Entries, shown: Instance)

  function AsStopped(x: Instance): Instance { x.(appStatus := Stopped, appPid := 0) }

  ghost function ApplyEntry(es: Entries, x: Instance): Applied {
    var k := Resolved(es, x.key);
    if k.None? || InContainer(x) then Applied(es, x)
    else
      var procs := es[k.value].procs;
      var es1 := if Stale(procs, x, TargetDaprd) then WithoutTarget(es, x.key, TargetDaprd) else es;
      var es2 := if Stale(procs, x, TargetAll) then WithoutTarget(es1, x.key, TargetAll) else es1;
      if TargetApp !in procs then Applied(es2, x)
      else if Stale(procs, x, TargetApp) then Applied(WithoutTarget(es2, x.key, TargetApp), x)
      else Applied(es2, AsStopped(x))
  }

  datatype Shown = Shown(entries: Entries, items: seq<Instance>)

  ghost function ApplyAll(es: Entries, items: seq<Instance>): (r: Shown)
    ensures |r.items| == |items|
  {
    if items == [] then Shown(es, [])
    else
      var before := ApplyAll(es, items[..|items| - 1]);
      var last := ApplyEntry(before.entries, items[|items| - 1]);
      Shown(last.entries, before.items + [last.shown])
  }

  function Synthesize(e: Entry, alive: int -> bool): Instance {
    var x := e.instance.(daprdStatus := Stopped, daprdPid := 0, cliPid := 0);
    if TargetApp in e.procs || x.appPid == 0 || !alive(x.appPid) then AsStopped(x) else x
  }

  ghost predicate DistinctKeys(items: seq<Instance>) {
    forall i, j :: 0 <= i < j < |items| ==> items[i].key != items[j].key
  }

  function KeysOf(items: seq<Instance>): set<string> { set x <- items :: x.key }

  function Ghosts(es: Entries, keys: seq<string>, live: set<string>, alive: int -> bool): seq<Instance>
    requires forall k <- keys :: k in es
  {
    if keys == [] then []
    else
      var k := keys[|keys| - 1];
      Ghosts(es, keys[..|keys| - 1], live, alive) + if k in live then [] else [Synthesize(es[k], alive)]
  }

  ghost function AnyOrder(keys: set<string>): (s: seq<string>)
    ensures Distinct(s) && forall k :: k in s <==> k in keys
  {
    if keys == {} then [] else
      var k :| k in keys;
      [k] + AnyOrder(keys - {k})
  }

  ghost function SortedKeys(keys: set<string>): (s: seq<string>)
    ensures Listing(s, keys)
  {
    SortLists(AnyOrder(keys), keys);
    StableSort(AnyOrder(keys), KeyBefore)
  }

  /** The corrected live instances, then a ghost for every entry without one. */
  ghost function Everything(es: Entries, items: seq<Instance>, alive: int -> bool): Shown {
    var a := ApplyAll(es, items);
    Shown(a.entries, a.items + Ghosts(a.entries, SortedKeys(a.entries.Keys), KeysOf(items), alive))
  }

  datatype Filtered = Filtered(suppressed: set<string>, items: seq<Instance>)

  function Filter(suppressed: set<string>, items: seq<Instance>): Filtered {
    if items == [] then Filtered(suppressed, [])
    else
      var f, x := Filter(suppressed, items[..|items| - 1]), items[|items| - 1];
      if x.key !in f.suppressed then f.(items := f.items + [x])
      else if FullyStopped(x) then f
      else Filtered(f.suppressed - {x.key}, f.items + [x])
  }

  predicate InstanceBefore(a: Instance, b: Instance) {
    if a.appId != b.appId then Less(a.appId, b.appId) else Less(a.key, b.key)
  }

  datatype Listed = Listed(reg: Reg, items: seq<Instance>)

  ghost function List(r: Reg, items: seq<Instance>, alive: int -> bool): Listed {
    var all := Everything(r.entries, items, alive);
    var f := Filter(r.suppressed, all.items);
    Listed(Reg(all.entries, f.suppressed), StableSort(f.items, InstanceBefore))
  }

  // ---------- Dismissals ----------

  ghost function Dismissed(r: Reg, key: string): Reg {
    var k := Resolved(r.entries, key);
    var ik := if k.Some? then r.entries[k.value].instance.key else key;
    Reg(r.entries - {ik}, r.suppressed + {ik})
  }

  function StoppedKeys(items: seq<Instance>): set<string> { set x <- items | FullyStopped(x) :: x.key }

  ghost function Cleared(r: Reg, items: seq<Instance>, alive: int -> bool): Reg {
    var l := List(r, items, alive);
    var gone := StoppedKeys(l.items);
    Reg(l.reg.entries - gone, l.reg.suppressed + gone)
  }

  // ---------- What one scan does to one snapshot ----------

  ghost predicate Holds(es: Entries, k: string, t: Target, s: Snap) {
    k in es && t in es[k].procs && es[k].procs[t] == s
  }

  /** The scan shows k's process for t, outside containers, under another pid. */
  predicate Outdates(x: Instance, k: string, t: Target, s: Snap) {
    x.key == k && !InContainer(x) && PidOf(x, t) != 0 && PidOf(x, t) != s.pid
  }

  lemma WithoutTargetHolds(es: Entries, key: string, u: Target, k: string, t: Target, s: Snap)
    requires Holds(es, k, t, s)
    ensures (k == key && t == u) || Holds(WithoutTarget(es, key, u), k, t, s)
    ensures k == key && t == u ==> k !in WithoutTarget(es, key, u) || t !in WithoutTarget(es, key, u)[k].procs
  {
    if key in es {
      var procs := es[key].procs - {u};
      assert k == key && t != u ==> t in procs;
    }
  }

  lemma ApplyHoldsIff(es: Entries, x: Instance, k: string, t: Target, s: Snap)
    requires Holds(es, k, t, s)
    ensures Holds(ApplyEntry(es, x).entries, k, t, s) <==> !Outdates(x, k, t, s)
    ensures Outdates(x, k, t, s) ==> var es' := ApplyEntry(es, x).entries; k !in es' || t !in es'[k].procs
  {
    var r := Resolved(es, x.key);
    if r.Some? && !InContainer(x) {
      var procs := es[r.value].procs;
      var es1 := if Stale(procs, x, TargetDaprd) then WithoutTarget(es, x.key, TargetDaprd) else es;
      var es2 := if Stale(procs, x, TargetAll) then WithoutTarget(es1, x.key, TargetAll) else es1;
      WithoutTargetHolds(es, x.key, TargetDaprd, k, t, s);
      if Holds(es1, k, t, s) {
        WithoutTargetHolds(es1, x.key, TargetAll, k, t, s);
        if Holds(es2, k, t, s) {
          WithoutTargetHolds(es2, x.key, TargetApp, k, t, s);
        }
      }
    }
  }

  lemma ApplyAddsNothing(es: Entries, x: Instance, k: string)
    ensures var es' := ApplyEntry(es, x).entries;
            && (k in es' ==> k in es && es'[k].instance == es[k].instance)
            && (k in es' ==> forall t :: t in es'[k].procs ==> t in es[k].procs)
            && (k in es && k !in es' ==> k == x.key)
            && (k in es && (k != x.key || InContainer(x)) ==> k in es' && es'[k] == es[k])
  {
  }

  /** Over a whole scan, a snapshot survives exactly when no scanned process outdates it. */
  lemma {:induction false} SnapshotSurvivesIff(es: Entries, items: seq<Instance>, k: string, t: Target, s: Snap)
    requires Holds(es, k, t, s)
    ensures Holds(ApplyAll(es, items).entries, k, t, s) <==> forall x <- items :: !Outdates(x, k, t, s)
    ensures (exists x <- items :: Outdates(x, k, t, s)) ==>
              var es' := ApplyAll(es, items).entries; k !in es' || t !in es'[k].procs
  {
    if items != [] {
      var most, last := items[..|items| - 1], items[|items| - 1];
      assert items == most + [last];
      SnapshotSurvivesIff(es, most, k, t, s);
      var before := ApplyAll(es, most).entries;
      if Holds(before, k, t, s) {
        ApplyHoldsIff(before, last, k, t, s);
      } else {
        ApplyAddsNothing(before, last, k);
      }
    }
  }

  // ---------- What a scan shows ----------

  ghost predicate KeysMatch(es: Entries) { forall k :: k in es ==> es[k].instance.key == k }

  lemma {:induction false} ApplyAllKeys(es: Entries, items: seq<Instance>)
    ensures var a := ApplyAll(es, items);
            && (forall i :: 0 <= i < |items| ==> a.items[i].key == items[i].key)
            && (forall k :: k in a.entries ==> k in es && a.entries[k].instance == es[k].instance)
            && (forall k, t :: k in a.entries && t in a.entries[k].procs ==> t in es[k].procs)
            && (forall k :: k in es && k !in KeysOf(items) ==> k in a.entries && a.entries[k] == es[k])
  {
    if items != [] {
      var most, last := items[..|items| - 1], items[|items| - 1];
      assert items == most + [last];
      ApplyAllKeys(es, most);
      var before := ApplyAll(es, most).entries;
      var after := ApplyEntry(before, last).entries;
      forall k
        ensures k in after ==> k in before && after[k].instance == before[k].instance
        ensures k in after ==> forall t :: t in after[k].procs ==> t in before[k].procs
        ensures k in before && k != last.key ==> k in after && after[k] == before[k]
      {
        ApplyAddsNothing(before, last, k);
      }
    }
  }

  lemma AddGhost(g: seq<Instance>, x: Instance)
    requires DistinctKeys(g) && forall y <- g :: y.key != x.key
    ensures DistinctKeys(g + [x]) && forall y :: y in g + [x] <==> y in g || y == x
  {
    forall i, j | 0 <= i < j < |g + [x]| ensures (g + [x])[i].key != (g + [x])[j].key {
      if j == |g| {
        assert g[i] in g;
      }
    }
  }

  lemma {:induction false} GhostKeys(es: Entries, keys: seq<string>, live: set<string>, alive: int -> bool)
    requires KeysMatch(es) && Distinct(keys) && forall k <- keys :: k in es
    ensures var g := Ghosts(es, keys, live, alive);
            && DistinctKeys(g)
            && (forall x <- g :: x.key in keys && x.key !in live && x == Synthesize(es[x.key], alive))
            && (forall k <- keys :: k !in live ==> Synthesize(es[k], alive) in g)
  {
    if keys != [] {
      var most, k := keys[..|keys| - 1], keys[|keys| - 1];
      assert keys == most + [k] && forall i :: 0 <= i < |most| ==> most[i] == keys[i];
      GhostKeys(es, most, live, alive);
      assert k !in most;
      if k !in live {
        AddGhost(Ghosts(es, most, live, alive), Synthesize(es[k], alive));
      }
    }
  }

  lemma ListingDistinct(s: seq<string>, keys: set<string>)
    requires Listing(s, keys)
    ensures Distinct(s)
  {
    forall i, j | 0 <= i < j < |s| ensures s[i] != s[j] {
      LessAsymmetric(s[i], s[j]);
    }
  }

  lemma JoinDistinct(a: seq<Instance>, g: seq<Instance>)
    requires DistinctKeys(a) && DistinctKeys(g) && forall x <- g :: x.key !in KeysOf(a)
    ensures DistinctKeys(a + g)
  {
    forall i, j | 0 <= i < j < |a + g| ensures (a + g)[i].key != (a + g)[j].key {
      if i < |a| <= j {
        assert a[i] in a && g[j - |a|] in g;
      }
    }
  }

  lemma SameKeys(a: seq<Instance>, b: seq<Instance>)
    requires |a| == |b| && forall i :: 0 <= i < |a| ==> a[i].key == b[i].key
    ensures KeysOf(a) == KeysOf(b)
    ensures DistinctKeys(b) ==> DistinctKeys(a)
  {
    forall k ensures k in KeysOf(a) <==> k in KeysOf(b) {
      if i :| 0 <= i < |a| && a[i].key == k {
        assert b[i] in b;
      }
      if i :| 0 <= i < |b| && b[i].key == k {
        assert a[i] in a;
      }
    }
  }

  /** One row a key: every live instance, and a ghost for every other entry. */
  lemma EverythingKeys(es: Entries, items: seq<Instance>, alive: int -> bool)
    requires KeysMatch(es) && DistinctKeys(items)
    ensures var a, all := ApplyAll(es, items), Everything(es, items, alive);
            && all.entries == a.entries && KeysMatch(all.entries)
            && DistinctKeys(all.items)
            && (forall x <- all.items :: x in a.items || (x.key in a.entries && x.key !in KeysOf(items) && x == Synthesize(a.entries[x.key], alive)))
            && (forall x <- a.items :: x in all.items)
            && (forall k :: k in a.entries && k !in KeysOf(items) ==> Synthesize(a.entries[k], alive) in all.items)
  {
    var a := ApplyAll(es, items);
    var keys := SortedKeys(a.entries.Keys);
    ApplyAllKeys(es, items);
    ListingDistinct(keys, a.entries.Keys);
    GhostKeys(a.entries, keys, KeysOf(items), alive);
    SameKeys(a.items, items);
    JoinDistinct(a.items, Ghosts(a.entries, keys, KeysOf(items), alive));
  }

  lemma NothingMissing(es: Entries, items: seq<Instance>, alive: int -> bool, k: string)
    requires KeysMatch(es) && DistinctKeys(items) && (k in es || k in KeysOf(items))
    ensures exists x <- Everything(es, items, alive).items :: x.key == k
  {
    EverythingKeys(es, items, alive);
    ApplyAllKeys(es, items);
    var a := ApplyAll(es, items);
    if k in KeysOf(items) {
      var i :| 0 <= i < |items| && items[i].key == k;
      assert a.items[i] in a.items;
    } else {
      assert Synthesize(a.entries[k], alive) in Everything(es, items, alive).items;
    }
  }

  lemma {:induction false} FilterExact(suppressed: set<string>, items: seq<Instance>)
    requires DistinctKeys(items)
    ensures var f := Filter(suppressed, items);
            && DistinctKeys(f.items)
            && (forall x :: x in f.items <==> x in items && !(x.key in suppressed && FullyStopped(x)))
            && (forall k :: k in f.suppressed <==> k in suppressed && !(exists x <- items :: x.key == k && !FullyStopped(x)))
  {
    if items != [] {
      var most, last := items[..|items| - 1], items[|items| - 1];
      assert items == most + [last];
      FilterExact(suppressed, most);
      forall x <- most ensures x.key != last.key {
        var i :| 0 <= i < |most| && most[i] == x;
        assert items[i] == x;
      }
    }
  }

  lemma SameMembers(a: seq<Instance>, b: seq<Instance>)
    requires multiset(a) == multiset(b)
    ensures forall x :: x in a <==> x in b
    ensures DistinctKeys(b) ==> DistinctKeys(a)
  {
    forall x ensures x in a <==> x in b {
      assert x in a <==> x in multiset(a);
      assert x in b <==> x in multiset(b);
    }
    if DistinctKeys(b) {
      forall i, j | 0 <= i < j < |a| ensures a[i].key != a[j].key {
        if a[i].key == a[j].key {
          assert a[i] in b && a[j] in b;
          assert a[i] == a[j];
          assert a == a[..i] + [a[i]] + a[i + 1..j] + [a[j]] + a[j + 1..];
          assert multiset(a)[a[i]] >= 2;
          OnceByKey(b, a[i]);
        }
      }
    }
  }

  lemma {:induction false} OnceByKey(s: seq<Instance>, x: Instance)
    requires DistinctKeys(s)
    ensures multiset(s)[x] <= 1
  {
    if s != [] {
      assert s == [s[0]] + s[1..];
      OnceByKey(s[1..], x);
    }
  }

  /** List in one statement: a row is shown exactly when it is not a suppressed, fully stopped one;
      no key is shown twice; a suppression ends exactly when its key is seen not fully stopped. */
  lemma ListExact(r: Reg, items: seq<Instance>, alive: int -> bool)
    requires KeysMatch(r.entries) && DistinctKeys(items)
    ensures var l, all := List(r, items, alive), Everything(r.entries, items, alive);
            && DistinctKeys(l.items) && KeysMatch(l.reg.entries)
            && (forall x :: x in l.items <==> x in all.items && !(x.key in r.suppressed && FullyStopped(x)))
            && (forall k :: k in l.reg.suppressed <==> k in r.suppressed && !(exists x <- all.items :: x.key == k && !FullyStopped(x)))
  {
    var all := Everything(r.entries, items, alive);
    EverythingKeys(r.entries, items, alive);
    FilterExact(r.suppressed, all.items);
    SameMembers(List(r, items, alive).items, Filter(r.suppressed, all.items).items);
  }

  /** A stopped app that is not suppressed keeps its row, live or ghost. */
  lemma EntryStaysListed(r: Reg, items: seq<Instance>, alive: int -> bool, k: string)
    requires KeysMatch(r.entries) && DistinctKeys(items) && k in r.entries && k !in r.suppressed
    ensures exists x <- List(r, items, alive).items :: x.key == k
  {
    NothingMissing(r.entries, items, alive, k);
    ListExact(r, items, alive);
    var x :| x in Everything(r.entries, items, alive).items && x.key == k;
    assert x in List(r, items, alive).items;
  }

  /** A suppressed key is shown again, and stays so, exactly when the scan sees it not fully stopped. */
  lemma SuppressedReappearsIff(r: Reg, items: seq<Instance>, alive: int -> bool, k: string)
    requires KeysMatch(r.entries) && DistinctKeys(items) && k in r.suppressed
    ensures var l := List(r, items, alive);
            var back := exists x <- Everything(r.entries, items, alive).items :: x.key == k && !FullyStopped(x);
            && ((exists x <- l.items :: x.key == k) <==> back)
            && (k !in l.reg.suppressed <==> back)
  {
    ListExact(r, items, alive);
    var all, l := Everything(r.entries, items, alive), List(r, items, alive);
    if x :| x in all.items && x.key == k && !FullyStopped(x) {
      assert x in l.items;
    }
  }

  // ---------- Rows, field by field ----------

  /** The row of a scanned instance: stopped, and without its pid, when its app was stopped and has not
      come back under another pid; as scanned otherwise, and always in a container. */
  lemma LiveRow(es: Entries, items: seq<Instance>, alive: int -> bool, i: nat)
    requires KeysMatch(es) && DistinctKeys(items) && NothingBorrowed(es, items) && i < |items|
    ensures var x, k, rows := items[i], items[i].key, Everything(es, items, alive).items;
            && i < |rows|
            && rows[i] == if x.source != Compose && x.source != Testcontainers && k in es && TargetApp in es[k].procs
                             && (x.appPid == 0 || x.appPid == es[k].procs[TargetApp].pid)
                          then x.(appStatus := Stopped, appPid := 0) else x
  {
    ApplyAllShows(es, items);
  }

  /** The row of an entry without a scanned instance: the sidecar and the launcher are gone, and so is
      the app if it was stopped itself, had no pid, or its process has died. */
  lemma GhostRow(es: Entries, items: seq<Instance>, alive: int -> bool, k: string, y: Instance)
    requires KeysMatch(es) && DistinctKeys(items) && k in es && k !in KeysOf(items)
    ensures var x := es[k].instance;
            y in Everything(es, items, alive).items && y.key == k <==>
            y == (if TargetApp in es[k].procs || x.appPid == 0 || !alive(x.appPid)
                  then x.(daprdStatus := Stopped, daprdPid := 0, cliPid := 0, appStatus := Stopped, appPid := 0)
                  else x.(daprdStatus := Stopped, daprdPid := 0, cliPid := 0))
  {
    EverythingKeys(es, items, alive);
    ApplyAllKeys(es, items);
    var a := ApplyAll(es, items);
    SameKeys(a.items, items);
    assert y in a.items ==> y.key in KeysOf(a.items);
  }

  /** What of the registry a scan drops: the snapshot of a process seen, outside containers, under
      another pid, app, sidecar and launcher each by its own pid. */
  lemma OutdatedIff(x: Instance, k: string, s: Snap)
    ensures var own := x.key == k && x.source != Compose && x.source != Testcontainers;
            && (Outdates(x, k, TargetApp, s) <==> own && x.appPid != 0 && x.appPid != s.pid)
            && (Outdates(x, k, TargetDaprd, s) <==> own && x.daprdPid != 0 && x.daprdPid != s.pid)
            && (Outdates(x, k, TargetAll, s) <==> own && x.cliPid != 0 && x.cliPid != s.pid)
  {
  }

  /** List in the two status fields: a row is shown unless its key is suppressed and both are Stopped;
      a suppression ends exactly when a row of its key has one that is not. */
  lemma ListedIff(r: Reg, items: seq<Instance>, alive: int -> bool)
    requires KeysMatch(r.entries) && DistinctKeys(items)
    ensures var l, all := List(r, items, alive), Everything(r.entries, items, alive);
            && (forall x :: x in l.items <==> x in all.items && !(x.key in r.suppressed && x.appStatus == Stopped && x.daprdStatus == Stopped))
            && (forall k :: k in l.reg.suppressed <==>
                  k in r.suppressed && forall x <- all.items :: x.key == k ==> x.appStatus == Stopped && x.daprdStatus == Stopped)
            && (forall x <- all.items :: x.key in r.suppressed && (x.appStatus != Stopped || x.daprdStatus != Stopped) ==>
                  x in l.items && x.key !in l.reg.suppressed)
  {
    ListExact(r, items, alive);
  }

  /** A clear dismisses exactly the keys listed with both statuses Stopped. */
  lemma ClearedIff(r: Reg, items: seq<Instance>, alive: int -> bool, k: string)
    ensures var l, c := List(r, items, alive), Cleared(r, items, alive);
            var gone := exists x <- l.items :: x.key == k && x.appStatus == Stopped && x.daprdStatus == Stopped;
            && (k in c.suppressed <==> k in l.reg.suppressed || gone)
            && (k in c.entries <==> k in l.reg.entries && !gone)
            && (k in c.entries ==> c.entries[k] == l.reg.entries[k])
  {
  }

  /** A stop records the instance and its snapshots, over those of earlier stops; nothing else. */
  lemma StopRecords(es: Entries, x: Instance, snaps: map<Target, Snap>, k: string, t: Target, s: Snap)
    ensures var es' := Recorded(es, x, snaps);
            && x.key in es' && es'[x.key].instance == x
            && (Holds(es', x.key, t, s) <==> if t in snaps then snaps[t] == s else Holds(es, x.key, t, s))
            && (k != x.key ==> (k in es' <==> k in es) && (k in es ==> es'[k] == es[k]))
  {
  }

  /** A dismissal of a key, or of an app id that is no key, drops and hides the entry that answers for
      it, the first by key among those of the app; of anything else, it hides the key itself. */
  lemma DismissedIs(r: Reg, key: string, k: string)
    requires KeysMatch(r.entries)
    ensures key in r.entries ==> Dismissed(r, key) == Reg(r.entries - {key}, r.suppressed + {key})
    ensures key !in r.entries && k in r.entries && r.entries[k].instance.appId == key
            && (forall j :: j in r.entries && r.entries[j].instance.appId == key ==> j == k || Less(k, j)) ==>
              Dismissed(r, key) == Reg(r.entries - {k}, r.suppressed + {k})
    ensures key !in r.entries && (forall j :: j in r.entries ==> r.entries[j].instance.appId != key) ==>
              Dismissed(r, key) == Reg(r.entries, r.suppressed + {key})
  {
    if key !in r.entries && FirstWithApp(r.entries, key, k) {
      ResolvedIs(r.entries, key, k);
    }
    if key !in r.entries && forall j :: j in r.entries ==> r.entries[j].instance.appId != key {
      assert r.entries - {key} == r.entries;
    }
  }

  // ---------- Clearing everything inactive ----------

  /** No scanned process key is another entry's app id. */
  ghost predicate NothingBorrowed(es: Entries, items: seq<Instance>) {
    forall x, k :: x in items && !InContainer(x) && k in es && es[k].instance.appId == x.key ==> k == x.key
  }

  /** A live instance corrected by its own entry alone. */
  function Corrected(es: Entries, x: Instance): Instance {
    if InContainer(x) || x.key !in es || TargetApp !in es[x.key].procs || Stale(es[x.key].procs, x, TargetApp) then x
    else AsStopped(x)
  }

  lemma CorrectedByOwn(es: Entries, x: Instance)
    requires InContainer(x) || forall k :: k in es && es[k].instance.appId == x.key ==> k == x.key
    ensures ApplyEntry(es, x).shown == Corrected(es, x)
  {
    assert Resolved(es, x.key).Some? && !InContainer(x) ==> x.key in es;
  }

  lemma {:induction false} ApplyAllShows(es: Entries, items: seq<Instance>)
    requires DistinctKeys(items) && NothingBorrowed(es, items)
    ensures forall i :: 0 <= i < |items| ==> ApplyAll(es, items).items[i] == Corrected(es, items[i])
  {
    if items != [] {
      var most, last := items[..|items| - 1], items[|items| - 1];
      assert items == most + [last];
      ApplyAllShows(es, most);
      ApplyAllKeys(es, most);
      var before := ApplyAll(es, most).entries;
      assert last.key !in KeysOf(most);
      assert last in items;
      CorrectedByOwn(before, last);
    }
  }

  /** A second scan of the same processes corrects them the same way. */
  lemma CorrectedAgain(es: Entries, items: seq<Instance>, es2: Entries, i: nat)
    requires DistinctKeys(items) && i < |items|
    requires var k := items[i].key; var es1 := ApplyAll(es, items).entries;
             (k in es2 <==> k in es1) && (k in es2 ==> es2[k] == es1[k])
    ensures Corrected(es2, items[i]) == Corrected(es, items[i])
  {
    var x := items[i];
    ApplyAllKeys(es, items);
    if !InContainer(x) && x.key in es && TargetApp in es[x.key].procs {
      var s := es[x.key].procs[TargetApp];
      assert Holds(es, x.key, TargetApp, s);
      SnapshotSurvivesIff(es, items, x.key, TargetApp, s);
      assert x in items;
      assert forall y <- items :: Outdates(y, x.key, TargetApp, s) ==> y == x;
    }
  }

  /** Removing entries of keys in gone leaves every other row of the next scan as it was. */
  lemma SameRowAgain(es: Entries, items: seq<Instance>, alive: int -> bool, gone: set<string>, x: Instance)
    requires KeysMatch(es) && DistinctKeys(items) && NothingBorrowed(es, items)
    requires x in Everything(ApplyAll(es, items).entries - gone, items, alive).items && x.key !in gone
    ensures x in Everything(es, items, alive).items
  {
    var a := ApplyAll(es, items);
    var es2 := a.entries - gone;
    ApplyAllKeys(es, items);
    ApplyAllKeys(es2, items);
    EverythingKeys(es, items, alive);
    EverythingKeys(es2, items, alive);
    if x in ApplyAll(es2, items).items {
      var i :| 0 <= i < |items| && ApplyAll(es2, items).items[i] == x;
      ApplyAllShows(es, items);
      ApplyAllShows(es2, items);
      CorrectedAgain(es, items, es2, i);
      assert a.items[i] == x;
    }
  }

  /** After a clear, the same processes scanned again show nothing fully stopped, so a second
      clear finds nothing to dismiss. */
  lemma ClearIsComplete(r: Reg, items: seq<Instance>, alive: int -> bool)
    requires KeysMatch(r.entries) && DistinctKeys(items) && NothingBorrowed(r.entries, items)
    ensures StoppedKeys(List(Cleared(r, items, alive), items, alive).items) == {}
  {
    var l, r2 := List(r, items, alive), Cleared(r, items, alive);
    var gone := StoppedKeys(l.items);
    ListExact(r, items, alive);
    EverythingKeys(r.entries, items, alive);
    ListExact(r2, items, alive);
    forall x | x in List(r2, items, alive).items ensures !FullyStopped(x) {
      if x.key !in gone {
        SameRowAgain(r.entries, items, alive, gone, x);
        if FullyStopped(x) {
          StaysHidden(r, items, alive, x);
        }
      }
    }
  }

  /** A stopped row the first scan hid is hidden by the second. */
  lemma StaysHidden(r: Reg, items: seq<Instance>, alive: int -> bool, x: Instance)
    requires KeysMatch(r.entries) && DistinctKeys(items)
    requires x in Everything(r.entries, items, alive).items && FullyStopped(x)
    requires x.key !in StoppedKeys(List(r, items, alive).items)
    ensures x.key in Cleared(r, items, alive).suppressed
  {
    var all, l := Everything(r.entries, items, alive), List(r, items, alive);
    ListExact(r, items, alive);
    EverythingKeys(r.entries, items, alive);
    assert x !in l.items;
    assert x.key in r.suppressed;
    forall y | y in all.items && y.key == x.key ensures y == x {
      var i, j :| 0 <= i < |all.items| && all.items[i] == x && 0 <= j < |all.items| && all.items[j] == y;
    }
  }

  // ---------- Runs ----------

  datatype Op =
    | Stop(x: Instance, snaps: map<Target, Snap>)
    | Scan(items: seq<Instance>, alive: int -> bool)
    | Look(live: Instance)
    | Dismiss(key: string)
    | ClearInactive(inactive: seq<Instance>, isAlive: int -> bool)

  ghost function Apply(r: Reg, op: Op): Reg {
    match op
    case Stop(x, snaps) => if x.orphaned then r else r.(entries := Recorded(r.entries, x, snaps))
    case Scan(items, alive) => List(r, items, alive).reg
    case Look(x) => r.(entries := ApplyEntry(r.entries, x).entries)
    case Dismiss(key) => Dismissed(r, key)
    case ClearInactive(items, alive) => Cleared(r, items, alive)
  }

  /** Scans have distinct keys; a stopped process is keyed by its app id. */
  ghost predicate ValidOp(op: Op) {
    match op
    case Stop(x, _) => !InContainer(x) && x.key == x.appId
    case Scan(items, _) => DistinctKeys(items)
    case Look(_) => true
    case Dismiss(_) => true
    case ClearInactive(items, _) => DistinctKeys(items)
  }

  ghost predicate Inv(r: Reg) {
    forall k :: k in r.entries ==> r.entries[k].instance.key == k && r.entries[k].instance.appId == k
  }

  /** With entries keyed by app id nothing is ever borrowed. */
  lemma InvBorrowsNothing(r: Reg, items: seq<Instance>)
    requires Inv(r)
    ensures KeysMatch(r.entries) && NothingBorrowed(r.entries, items)
  {
  }

  lemma StepKeepsInv(r: Reg, op: Op)
    requires Inv(r) && ValidOp(op)
    ensures Inv(Apply(r, op))
  {
    match op
    case Stop(_, _) =>
    case Scan(items, _) => ApplyAllKeys(r.entries, items);
    case Look(x) =>
      forall k ensures k in Apply(r, op).entries ==> k in r.entries && Apply(r, op).entries[k].instance == r.entries[k].instance {
        ApplyAddsNothing(r.entries, x, k);
      }
    case Dismiss(_) =>
    case ClearInactive(items, _) => ApplyAllKeys(r.entries, items);
  }

  /** The user dismisses k. */
  ghost predicate Dismisses(r: Reg, op: Op, k: string) {
    match op
    case Stop(_, _) => false
    case Scan(_, _) => false
    case Look(_) => false
    case Dismiss(key) => k == if Resolved(r.entries, key).Some? then Resolved(r.entries, key).value else key
    case ClearInactive(items, alive) => k in StoppedKeys(List(r, items, alive).items)
  }

  /** The dashboard sees k's process for t under another pid than s was captured from. */
  ghost predicate Restarted(op: Op, k: string, t: Target, s: Snap) {
    match op
    case Stop(_, _) => false
    case Scan(items, _) => exists x <- items :: Outdates(x, k, t, s)
    case Look(x) => Outdates(x, k, t, s)
    case Dismiss(_) => false
    case ClearInactive(items, _) => exists x <- items :: Outdates(x, k, t, s)
  }

  /** Another stop captures the same target again. */
  predicate Recaptures(op: Op, k: string, t: Target, s: Snap) {
    op.Stop? && !op.x.orphaned && op.x.key == k && t in op.snaps && op.snaps[t] != s
  }

  /** A captured snapshot is lost to exactly three things: its process seen restarted, a dismissal
      of its key, a newer capture. */
  lemma SnapshotLostIff(r: Reg, op: Op, k: string, t: Target, s: Snap)
    requires Inv(r) && ValidOp(op) && Holds(r.entries, k, t, s)
    ensures Holds(Apply(r, op).entries, k, t, s) <==> !(Restarted(op, k, t, s) || Dismisses(r, op, k) || Recaptures(op, k, t, s))
  {
    match op
    case Stop(_, _) =>
    case Scan(items, _) => SnapshotSurvivesIff(r.entries, items, k, t, s);
    case Look(x) => ApplyHoldsIff(r.entries, x, k, t, s);
    case Dismiss(_) =>
    case ClearInactive(items, _) => SnapshotSurvivesIff(r.entries, items, k, t, s);
  }

  /** Only a dismissal hides a key. */
  lemma SuppressedOnlyByDismissal(r: Reg, op: Op, k: string)
    requires Inv(r) && ValidOp(op) && k !in r.suppressed
    ensures k in Apply(r, op).suppressed <==> Dismisses(r, op, k)
  {
    match op
    case Stop(_, _) =>
    case Scan(items, alive) => ListExact(r, items, alive);
    case Look(_) =>
    case Dismiss(_) =>
    case ClearInactive(items, alive) => ListExact(r, items, alive);
  }

  ghost function Run(r: Reg, ops: seq<Op>): Reg {
    if ops == [] then r else Apply(Run(r, ops[..|ops| - 1]), ops[|ops| - 1])
  }

  ghost predicate NeverDismissed(r: Reg, ops: seq<Op>, k: string) {
    forall i :: 0 <= i < |ops| ==> !Dismisses(Run(r, ops[..i]), ops[i], k)
  }

  lemma {:induction false} NeverDismissedBefore(r: Reg, ops: seq<Op>, k: string)
    requires ops != [] && NeverDismissed(r, ops, k)
    ensures NeverDismissed(r, ops[..|ops| - 1], k)
    ensures !Dismisses(Run(r, ops[..|ops| - 1]), ops[|ops| - 1], k)
  {
    var most := ops[..|ops| - 1];
    forall i | 0 <= i < |most| ensures !Dismisses(Run(r, most[..i]), most[i], k) {
      assert most[..i] == ops[..i];
    }
  }

  lemma {:induction false} RunKeepsInv(r: Reg, ops: seq<Op>)
    requires Inv(r) && forall op <- ops :: ValidOp(op)
    ensures Inv(Run(r, ops))
  {
    if ops != [] {
      RunKeepsInv(r, ops[..|ops| - 1]);
      StepKeepsInv(Run(r, ops[..|ops| - 1]), ops[|ops| - 1]);
    }
  }

  /** Over every run, a snapshot nobody dismissed, recaptured, or saw restarted is still there. */
  lemma {:induction false} SnapshotSurvivesRun(r: Reg, ops: seq<Op>, k: string, t: Target, s: Snap)
    requires Inv(r) && Holds(r.entries, k, t, s) && NeverDismissed(r, ops, k)
    requires forall op <- ops :: ValidOp(op) && !Restarted(op, k, t, s) && !Recaptures(op, k, t, s)
    ensures Holds(Run(r, ops).entries, k, t, s)
  {
    if ops != [] {
      var most, last := ops[..|ops| - 1], ops[|ops| - 1];
      assert last in ops;
      NeverDismissedBefore(r, ops, k);
      SnapshotSurvivesRun(r, most, k, t, s);
      RunKeepsInv(r, most);
      SnapshotLostIff(Run(r, most), last, k, t, s);
    }
  }

  lemma {:induction false} StaysUnsuppressed(r: Reg, ops: seq<Op>, k: string)
    requires Inv(r) && k !in r.suppressed && NeverDismissed(r, ops, k)
    requires forall op <- ops :: ValidOp(op)
    ensures k !in Run(r, ops).suppressed
  {
    if ops != [] {
      var most, last := ops[..|ops| - 1], ops[|ops| - 1];
      assert last in ops;
      NeverDismissedBefore(r, ops, k);
      StaysUnsuppressed(r, most, k);
      RunKeepsInv(r, most);
      SuppressedOnlyByDismissal(Run(r, most), last, k);
    }
  }

  /** After every run without a dismissal of k, a scan lists k whenever the registry has it, once. */
  lemma UndismissedStaysListed(r: Reg, ops: seq<Op>, k: string, items: seq<Instance>, alive: int -> bool)
    requires Inv(r) && k !in r.suppressed && NeverDismissed(r, ops, k) && DistinctKeys(items)
    requires forall op <- ops :: ValidOp(op)
    requires k in Run(r, ops).entries
    ensures var rows := List(Run(r, ops), items, alive).items;
            DistinctKeys(rows) && exists x <- rows :: x.key == k
  {
    RunKeepsInv(r, ops);
    StaysUnsuppressed(r, ops, k);
    ListExact(Run(r, ops), items, alive);
    EntryStaysListed(Run(r, ops), items, alive, k);
  }

  /** After every run, clearing twice in a row dismisses nothing the second time. */
  lemma SecondClearIsEmpty(ops: seq<Op>, items: seq<Instance>, alive: int -> bool)
    requires DistinctKeys(items) && forall op <- ops :: ValidOp(op)
    ensures StoppedKeys(List(Cleared(Run(Reg(map[], {}), ops), items, alive), items, alive).items) == {}
  {
    RunKeepsInv(Reg(map[], {}), ops);
    InvBorrowsNothing(Run(Reg(map[], {}), ops), items);
    ClearIsComplete(Run(Reg(map[], {}), ops), items, alive);
  }

  /** A recorded app stop without a live row is a fully stopped ghost. */
  lemma StoppedGhost(es: Entries, items: seq<Instance>, alive: int -> bool, k: string, y: Instance)
    requires KeysMatch(es) && DistinctKeys(items) && k in es && TargetApp in es[k].procs && k !in KeysOf(items)
    requires y in Everything(es, items, alive).items && y.key == k
    ensures FullyStopped(y)
  {
    EverythingKeys(es, items, alive);
    ApplyAllKeys(es, items);
    var a := ApplyAll(es, items);
    SameKeys(a.items, items);
    assert y in a.items ==> y.key in KeysOf(a.items);
  }

  /** A stop does not lift a suppression: an app dismissed while running and stopped before the next
      scan leaves no row, although its entry was recorded after the dismissal. */
  lemma StopDoesNotUnsuppress(r: Reg, x: Instance, snaps: map<Target, Snap>, items: seq<Instance>, alive: int -> bool)
    requires Inv(r) && ValidOp(Stop(x, snaps)) && DistinctKeys(items)
    requires !x.orphaned && TargetApp in snaps && x.key in r.suppressed && x.key !in KeysOf(items)
    ensures var r2 := Apply(r, Stop(x, snaps));
            && x.key in List(r2, items, alive).reg.entries
            && forall y <- List(r2, items, alive).items :: y.key != x.key
  {
    var r2 := Apply(r, Stop(x, snaps));
    StepKeepsInv(r, Stop(x, snaps));
    HiddenGhost(r2, items, alive, x.key);
  }

  lemma HiddenGhost(r: Reg, items: seq<Instance>, alive: int -> bool, k: string)
    requires KeysMatch(r.entries) && DistinctKeys(items) && k in r.entries && TargetApp in r.entries[k].procs
    requires k !in KeysOf(items) && k in r.suppressed
    ensures k in List(r, items, alive).reg.entries && forall y <- List(r, items, alive).items :: y.key != k
  {
    ApplyAllKeys(r.entries, items);
    ListExact(r, items, alive);
    forall y | y in Everything(r.entries, items, alive).items && y.key == k ensures FullyStopped(y) {
      StoppedGhost(r.entries, items, alive, k, y);
    }
  }

  // ---------- The objects ----------

  lemma ListingOf(s: seq<string>, keys: set<string>)
    requires Distinct(s) && forall k :: k in s <==> k in keys
    ensures StableSort(s, KeyBefore) == SortedKeys(keys)
  {
    SortLists(s, keys);
    ListingUnique(StableSort(s, KeyBefore), SortedKeys(keys), keys);
  }

  lemma FirstInListing(es: Entries, s: seq<string>, i: nat, appId: string)
    requires Listing(s, es.Keys) && i < |s| && es[s[i]].instance.appId == appId
    requires forall j :: 0 <= j < i ==> es[s[j]].instance.appId != appId
    ensures FirstWithApp(es, appId, s[i])
  {
    forall k | k in es && k != s[i] && es[k].instance.appId == appId ensures Less(s[i], k) {
      assert k in s;
      var j :| 0 <= j < |s| && s[j] == k;
    }
    assert s[i] in s;
  }

  lemma ResolvedIs(es: Entries, key: string, k: string)
    requires key !in es && FirstWithApp(es, key, k)
    ensures Resolved(es, key) == Some(k)
  {
    var j :| FirstWithApp(es, key, j) && Resolved(es, key) == Some(j);
    FirstUnique(es, key, j, k);
  }

  class Registry {
    var entries: Entries
    var suppressed: set<string>

    constructor ()
      ensures entries == map[] && suppressed == {}
    {
      entries, suppressed := map[], {};
    }

    ghost function Now(): Reg
      reads this
    {
      Reg(entries, suppressed)
    }

    method RecordStop(x: Instance, snaps: map<Target, Snap>)
      modifies this`entries
      ensures entries == Recorded(old(entries), x, snaps)
    {
      if x.key !in entries {
        entries := entries[x.key := Entry(x, map[])];
      }
      entries := entries[x.key := entries[x.key].(instance := x)];
      entries := entries[x.key := entries[x.key].(procs := entries[x.key].procs + snaps)];
    }

    method Keys() returns (s: seq<string>)
      ensures s == SortedKeys(entries.Keys)
    {
      var left := entries.Keys;
      s := [];
      while left != {}
        invariant left <= entries.Keys && Distinct(s)
        invariant forall k :: k in s <==> k in entries.Keys - left
        decreases |left|
      {
        var k :| k in left;
        assert k !in s;
        assert forall i :: 0 <= i < |s| ==> s[i] in s;
        s, left := s + [k], left - {k};
      }
      ListingOf(s, entries.Keys);
      s := StableSort(s, KeyBefore);
    }

    /** The key of the entry that answers for key. */
    method Find(key: string) returns (r: Option<string>)
      ensures r == Resolved(entries, key)
      ensures key in entries ==> r == Some(key)
      ensures r.None? <==> key !in entries && forall k :: k in entries ==> entries[k].instance.appId != key
      ensures r.Some? && key !in entries ==>
                && r.value in entries && entries[r.value].instance.appId == key
                && forall k :: k in entries && entries[k].instance.appId == key ==> k == r.value || Less(r.value, k)
    {
      if key in entries {
        return Some(key);
      }
      var s := Keys();
      for i := 0 to |s|
        invariant forall j :: 0 <= j < i ==> entries[s[j]].instance.appId != key
      {
        assert s[i] in s;
        if entries[s[i]].instance.appId == key {
          FirstInListing(entries, s, i, key);
          ResolvedIs(entries, key, s[i]);
          return Some(s[i]);
        }
      }
      assert forall k :: k in entries ==> k in s;
      r := None;
    }

    method DropTarget(key: string, t: Target)
      modifies this`entries
      ensures entries == WithoutTarget(old(entries), key, t)
      ensures key in entries <==> key in old(entries) && exists u :: u in old(entries)[key].procs && u != t
      ensures key in entries ==>
                entries[key].instance == old(entries)[key].instance && entries[key].procs == old(entries)[key].procs - {t}
      ensures forall k :: k != key ==> (k in entries <==> k in old(entries)) && (k in entries ==> entries[k] == old(entries)[k])
    {
      if key !in entries {
        return;
      }
      ghost var procs := entries[key].procs;
      assert procs - {t} == map[] <==> !exists u :: u in procs && u != t by {
        assert forall u :: u in procs && u != t ==> u in procs - {t};
      }
      entries := entries[key := entries[key].(procs := entries[key].procs - {t})];
      if entries[key].procs == map[] {
        entries := entries - {key};
      }
    }

    method Drop(key: string)
      modifies this`entries
      ensures entries == old(entries) - {key}
    {
      entries := entries - {key};
    }

    method Suppress(key: string)
      modifies this`suppressed
      ensures suppressed == old(suppressed) + {key}
    {
      suppressed := suppressed + {key};
    }

    method Unsuppress(key: string)
      modifies this`suppressed
      ensures suppressed == old(suppressed) - {key}
    {
      suppressed := suppressed - {key};
    }
  }

  method ApplyOne(reg: Registry, x: Instance) returns (shown: Instance)
    modifies reg`entries
    ensures ApplyEntry(old(reg.entries), x) == Applied(reg.entries, shown)
  {
    var k := reg.Find(x.key);
    if k.None? || x.source == Compose || x.source == Testcontainers {
      return x;
    }
    var procs := reg.entries[k.value].procs;
    if TargetDaprd in procs && x.daprdPid != 0 && x.daprdPid != procs[TargetDaprd].pid {
      reg.DropTarget(x.key, TargetDaprd);
    }
    if TargetAll in procs && x.cliPid != 0 && x.cliPid != procs[TargetAll].pid {
      reg.DropTarget(x.key, TargetAll);
    }
    if TargetApp !in procs {
      return x;
    }
    if x.appPid != 0 && x.appPid != procs[TargetApp].pid {
      reg.DropTarget(x.key, TargetApp);
      return x;
    }
    shown := x.(appStatus := Stopped, appPid := 0);
  }

  lemma ApplyAllSnoc(es: Entries, items: seq<Instance>, i: nat)
    requires i < |items|
    ensures var before := ApplyAll(es, items[..i]);
            var last := ApplyEntry(before.entries, items[i]);
            ApplyAll(es, items[..i + 1]) == Shown(last.entries, before.items + [last.shown])
  {
    assert items[..i + 1][..i] == items[..i];
  }

  lemma FilterSnoc(suppressed: set<string>, items: seq<Instance>, i: nat)
    requires i < |items|
    ensures var f := Filter(suppressed, items[..i]);
            Filter(suppressed, items[..i + 1]) ==
              if items[i].key !in f.suppressed then f.(items := f.items + [items[i]])
              else if FullyStopped(items[i]) then f
              else Filtered(f.suppressed - {items[i].key}, f.items + [items[i]])
    ensures |Filter(suppressed, items[..i]).items| <= i
  {
    assert items[..i + 1][..i] == items[..i];
    FilterShrinks(suppressed, items[..i]);
  }

  lemma {:induction false} FilterShrinks(suppressed: set<string>, items: seq<Instance>)
    ensures |Filter(suppressed, items).items| <= |items|
  {
    if items != [] {
      FilterShrinks(suppressed, items[..|items| - 1]);
    }
  }

  /** The suppression loop of List, which compacts the rows it reads in place. */
  method HideSuppressed(reg: Registry, rows: seq<Instance>) returns (kept: seq<Instance>)
    modifies reg`suppressed
    ensures Filter(old(reg.suppressed), rows) == Filtered(reg.suppressed, kept)
    ensures DistinctKeys(rows) ==>
              && (forall x :: x in kept <==> x in rows && !(x.key in old(reg.suppressed) && x.appStatus == Stopped && x.daprdStatus == Stopped))
              && (forall k :: k in reg.suppressed <==>
                    k in old(reg.suppressed) && forall x <- rows :: x.key == k ==> x.appStatus == Stopped && x.daprdStatus == Stopped)
  {
    var items, n := rows, 0;
    for i := 0 to |rows|
      invariant 0 <= n <= i && |items| == |rows| && items[i..] == rows[i..]
      invariant Filter(old(reg.suppressed), rows[..i]) == Filtered(reg.suppressed, items[..n])
    {
      var x := items[i];
      assert x == rows[i] by { assert items[i..][0] == rows[i..][0]; }
      FilterSnoc(old(reg.suppressed), rows, i);
      if x.key in reg.suppressed {
        if FullyStopped(x) {
          continue;
        }
        reg.Unsuppress(x.key);
      }
      ghost var before := items;
      items := items[n := x];
      n := n + 1;
      assert items[..n] == before[..n - 1] + [x];
      assert items[i + 1..] == before[i..][1..];
    }
    assert rows[..|rows|] == rows;
    kept := items[..n];
    if DistinctKeys(rows) {
      FilterExact(old(reg.suppressed), rows);
    }
  }

  lemma GhostsSnoc(es: Entries, keys: seq<string>, i: nat, live: set<string>, alive: int -> bool)
    requires i < |keys| && forall k <- keys :: k in es
    ensures Ghosts(es, keys[..i + 1], live, alive) ==
            Ghosts(es, keys[..i], live, alive) + if keys[i] in live then [] else [Synthesize(es[keys[i]], alive)]
  {
    assert keys[..i + 1][..i] == keys[..i] && keys[..i + 1][i] == keys[i];
  }

  method ListGhosts(reg: Registry, live: set<string>, alive: int -> bool) returns (ghosts: seq<Instance>)
    ensures ghosts == Ghosts(reg.entries, SortedKeys(reg.entries.Keys), live, alive)
  {
    var keys := reg.Keys();
    ghosts := [];
    assert forall k <- keys :: k in reg.entries;
    for i := 0 to |keys|
      invariant ghosts == Ghosts(reg.entries, keys[..i], live, alive)
    {
      GhostsSnoc(reg.entries, keys, i, live, alive);
      if keys[i] !in live {
        ghosts := ghosts + [Synthesize(reg.entries[keys[i]], alive)];
      }
    }
    assert keys[..|keys|] == keys;
  }

  method CorrectAll(reg: Registry, items: seq<Instance>) returns (rows: seq<Instance>, live: set<string>)
    modifies reg`entries
    ensures ApplyAll(old(reg.entries), items) == Shown(reg.entries, rows) && live == KeysOf(items)
  {
    rows, live := [], {};
    for i := 0 to |items|
      invariant ApplyAll(old(reg.entries), items[..i]) == Shown(reg.entries, rows)
      invariant live == KeysOf(items[..i])
    {
      ApplyAllSnoc(old(reg.entries), items, i);
      assert items[..i + 1] == items[..i] + [items[i]];
      live := live + {items[i].key};
      var shown := ApplyOne(reg, items[i]);
      rows := rows + [shown];
    }
    assert items[..|items|] == items;
  }

  lemma ListedInFields(r: Reg, items: seq<Instance>, alive: int -> bool, after: Reg, rows: seq<Instance>)
    requires List(r, items, alive) == Listed(after, rows)
    ensures KeysMatch(r.entries) && DistinctKeys(items) ==>
              var all := Everything(r.entries, items, alive).items;
              && (forall x :: x in rows <==> x in all && !(x.key in r.suppressed && x.appStatus == Stopped && x.daprdStatus == Stopped))
              && (forall k :: k in after.suppressed <==>
                    k in r.suppressed && forall x <- all :: x.key == k ==> x.appStatus == Stopped && x.daprdStatus == Stopped)
  {
    if KeysMatch(r.entries) && DistinctKeys(items) {
      ListedIff(r, items, alive);
    }
  }

  lemma InAppOrder(kept: seq<Instance>, rows: seq<Instance>)
    requires rows == StableSort(kept, InstanceBefore)
    ensures forall i, j :: 0 <= i < j < |rows| ==>
              Less(rows[i].appId, rows[j].appId) || (rows[i].appId == rows[j].appId && !Less(rows[j].key, rows[i].key))
  {
    InstanceOrderIsStrictWeak();
    SortSorted(kept, InstanceBefore);
    forall i, j | 0 <= i < j < |rows|
      ensures Less(rows[i].appId, rows[j].appId) || (rows[i].appId == rows[j].appId && !Less(rows[j].key, rows[i].key))
    {
      assert !InstanceBefore(rows[j], rows[i]);
      LessTotal(rows[i].appId, rows[j].appId);
    }
  }

  lemma InstanceOrderIsStrictWeak()
    ensures StrictWeak(InstanceBefore)
  {
    KeyOrderIsStrictWeak();
    forall x ensures !InstanceBefore(x, x) {
      assert !KeyBefore(x.key, x.key);
    }
    forall x, y, z | InstanceBefore(x, y) && InstanceBefore(y, z) ensures InstanceBefore(x, z) {
      BeforeTransitive(x, y, z);
    }
    forall x, y, z | !InstanceBefore(x, y) && !InstanceBefore(y, z) ensures !InstanceBefore(x, z) {
      NotBefore(x, y, z);
    }
  }

  lemma BeforeTotal(x: Instance, y: Instance)
    ensures InstanceBefore(x, y) || InstanceBefore(y, x) || (x.appId == y.appId && x.key == y.key)
  {
    LessTotal(x.appId, y.appId);
    LessTotal(x.key, y.key);
  }

  lemma BeforeTransitive(x: Instance, y: Instance, z: Instance)
    requires InstanceBefore(x, y) && InstanceBefore(y, z)
    ensures InstanceBefore(x, z)
  {
    if x.appId != y.appId && y.appId != z.appId {
      LessTransitive(x.appId, y.appId, z.appId);
      LessAsymmetric(x.appId, z.appId);
    } else if x.appId == y.appId == z.appId {
      LessTransitive(x.key, y.key, z.key);
    }
  }

  lemma NotBefore(x: Instance, y: Instance, z: Instance)
    requires !InstanceBefore(x, y) && !InstanceBefore(y, z)
    ensures !InstanceBefore(x, z)
  {
    BeforeTotal(x, y);
    BeforeTotal(y, z);
    if InstanceBefore(y, x) && InstanceBefore(x, z) {
      BeforeTransitive(y, x, z);
    }
  }

  method ListInstances(reg: Registry, items: seq<Instance>, alive: int -> bool) returns (rows: seq<Instance>)
    modifies reg
    ensures List(old(reg.Now()), items, alive) == Listed(reg.Now(), rows)
    ensures KeysMatch(old(reg.entries)) && DistinctKeys(items) ==>
              var all := Everything(old(reg.entries), items, alive).items;
              && (forall x :: x in rows <==> x in all && !(x.key in old(reg.suppressed) && x.appStatus == Stopped && x.daprdStatus == Stopped))
              && (forall k :: k in reg.suppressed <==>
                    k in old(reg.suppressed) && forall x <- all :: x.key == k ==> x.appStatus == Stopped && x.daprdStatus == Stopped)
    ensures forall i, j :: 0 <= i < j < |rows| ==>
              Less(rows[i].appId, rows[j].appId) || (rows[i].appId == rows[j].appId && !Less(rows[j].key, rows[i].key))
  {
    var live;
    rows, live := CorrectAll(reg, items);
    var ghosts := ListGhosts(reg, live, alive);
    rows := rows + ghosts;
    rows := HideSuppressed(reg, rows);
    ghost var kept := rows;
    rows := StableSort(rows, InstanceBefore);
    InAppOrder(kept, rows);
    ListedInFields(old(reg.Now()), items, alive, reg.Now(), rows);
  }

  method DismissKey(reg: Registry, key: string)
    modifies reg
    ensures reg.Now() == Dismissed(old(reg.Now()), key)
  {
    var k := reg.Find(key);
    var ik := if k.Some? then reg.entries[k.value].instance.key else key;
    reg.Drop(ik);
    reg.Suppress(ik);
  }

  function CountStopped(rows: seq<Instance>): nat {
    if rows == [] then 0
    else CountStopped(rows[..|rows| - 1]) +
         if rows[|rows| - 1].appStatus == Stopped && rows[|rows| - 1].daprdStatus == Stopped then 1 else 0
  }

  lemma StoppedKeysSnoc(rows: seq<Instance>, x: Instance)
    ensures StoppedKeys(rows + [x]) == StoppedKeys(rows) + if FullyStopped(x) then {x.key} else {}
  {
  }

  /** With one row a key, counting keys is counting rows. */
  lemma {:induction false} CountByKey(rows: seq<Instance>)
    requires DistinctKeys(rows)
    ensures |StoppedKeys(rows)| == CountStopped(rows)
  {
    if rows != [] {
      var most, last := rows[..|rows| - 1], rows[|rows| - 1];
      assert rows == most + [last];
      assert forall i :: 0 <= i < |most| ==> most[i] == rows[i];
      CountByKey(most);
      StoppedKeysSnoc(most, last);
      forall x <- most ensures x.key != last.key {
        var i :| 0 <= i < |most| && most[i] == x;
      }
      assert last.key !in StoppedKeys(most);
    }
  }

  /** Returns how many distinct instances were dismissed. */
  method ClearAllInactive(reg: Registry, items: seq<Instance>, alive: int -> bool) returns (n: nat)
    modifies reg
    ensures reg.Now() == Cleared(old(reg.Now()), items, alive)
    ensures n == |StoppedKeys(List(old(reg.Now()), items, alive).items)|
    ensures KeysMatch(old(reg.entries)) && DistinctKeys(items) ==> n == CountStopped(List(old(reg.Now()), items, alive).items)
    ensures forall x <- List(old(reg.Now()), items, alive).items ::
              x.appStatus == Stopped && x.daprdStatus == Stopped ==> x.key in reg.suppressed && x.key !in reg.entries
  {
    var rows := ListInstances(reg, items, alive);
    var seen := DismissStopped(reg, rows);
    n := |seen|;
    if KeysMatch(old(reg.entries)) && DistinctKeys(items) {
      ListExact(old(reg.Now()), items, alive);
      CountByKey(rows);
    }
    assert forall x <- rows :: FullyStopped(x) ==> x.key in seen;
  }

  method DismissStopped(reg: Registry, rows: seq<Instance>) returns (seen: set<string>)
    modifies reg
    ensures seen == StoppedKeys(rows)
    ensures reg.entries == old(reg.entries) - seen && reg.suppressed == old(reg.suppressed) + seen
  {
    seen := {};
    for i := 0 to |rows|
      invariant seen == StoppedKeys(rows[..i])
      invariant reg.entries == old(reg.entries) - seen && reg.suppressed == old(reg.suppressed) + seen
    {
      var x := rows[i];
      assert rows[..i + 1] == rows[..i] + [x];
      if FullyStopped(x) && x.key !in seen {
        seen := seen + {x.key};
        reg.Drop(x.key);
        reg.Suppress(x.key);
      }
    }
    assert rows[..|rows|] == rows;
  }

  // ---------- What a stop captures ----------

  /** A sidecar stop outside Aspire is a stop of the whole instance. */
  function Effective(x: Instance, target: Target): Target {
    if !x.source.Aspire? && target.TargetDaprd? then TargetAll else target
  }

  predicate Wanted(t: Target, effective: Target) { effective != TargetDaprd || t == TargetDaprd }

  predicate Capturable(x: Instance, t: Target, probe: int -> Option<Snap>) {
    PidOf(x, t) != 0 && probe(PidOf(x, t)).Some?
  }

  /** standaloneStop's snapshots: every process the stop may take down, each under its own target. */
  method Capture(x: Instance, target: Target, probe: int -> Option<Snap>) returns (snaps: map<Target, Snap>)
    ensures forall t :: t in snaps <==> Wanted(t, Effective(x, target)) && Capturable(x, t, probe)
    ensures forall t :: t in snaps ==> probe(PidOf(x, t)) == Some(snaps[t])
    ensures var all := target != TargetDaprd || x.source != Aspire;
            && (TargetApp in snaps <==> all && x.appPid != 0 && probe(x.appPid).Some?)
            && (TargetDaprd in snaps <==> x.daprdPid != 0 && probe(x.daprdPid).Some?)
            && (TargetAll in snaps <==> all && x.cliPid != 0 && probe(x.cliPid).Some?)
    ensures TargetApp in snaps ==> probe(x.appPid) == Some(snaps[TargetApp])
    ensures TargetDaprd in snaps ==> probe(x.daprdPid) == Some(snaps[TargetDaprd])
    ensures TargetAll in snaps ==> probe(x.cliPid) == Some(snaps[TargetAll])
  {
    snaps := map[];
    var effective := if !x.source.Aspire? && target == TargetDaprd then TargetAll else target;
    if effective != TargetDaprd && x.appPid != 0 && probe(x.appPid).Some? {
      snaps := snaps[TargetApp := probe(x.appPid).value];
    }
    if x.daprdPid != 0 && probe(x.daprdPid).Some? {
      snaps := snaps[TargetDaprd := probe(x.daprdPid).value];
    }
    if effective != TargetDaprd && x.cliPid != 0 && probe(x.cliPid).Some? {
      snaps := snaps[TargetAll := probe(x.cliPid).value];
    }
  }

  /** False is the refusal when there is no process to signal; nothing is recorded then, and
      nothing for an orphaned sidecar. */
  method StandaloneStop(reg: Registry, x: Instance, target: Target, probe: int -> Option<Snap>) returns (ok: bool, snaps: map<Target, Snap>)
    modifies reg`entries
    ensures ok <==> match Effective(x, target)
                    case TargetApp => x.appPid != 0
                    case TargetDaprd => x.daprdPid != 0
                    case TargetAll => x.cliPid != 0 || x.appPid != 0 || x.daprdPid != 0
    ensures ok <==> if target == TargetApp then x.appPid != 0
                    else if target == TargetDaprd && x.source == Aspire then x.daprdPid != 0
                    else x.cliPid != 0 || x.appPid != 0 || x.daprdPid != 0
    ensures ok ==> forall t :: t in snaps <==> Wanted(t, Effective(x, target)) && Capturable(x, t, probe)
    ensures reg.Now() == if ok then Apply(old(reg.Now()), Stop(x, snaps)) else old(reg.Now())
  {
    snaps := map[];
    var effective := Effective(x, target);
    ok := if effective == TargetApp then x.appPid != 0
          else if effective == TargetDaprd then x.daprdPid != 0
          else x.cliPid != 0 || x.appPid != 0 || x.daprdPid != 0;
    if !ok {
      return;
    }
    snaps := Capture(x, target, probe);
    if !x.orphaned {
      reg.RecordStop(x, snaps);
    }
  }
}
