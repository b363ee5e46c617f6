/** What the reconciler derives from the discovered apps, and the fingerprint that gates it
    (cmd/derive.go). Characters stand for bytes; the hash is taken as injective on the byte
    strings it is given. */
module Fingerprint {
  import opened Text
  import Election

  datatype Loaded = Loaded(name: string, typ: string)

  datatype App = App(id: string, resourcePaths: seq<string>, configPath: string, components: seq<Loaded>, daprdStatus: string)

  predicate Running(a: App) { a.daprdStatus != "stopped" }

  predicate IsState(c: Loaded) { HasPrefix(c.typ, "state.") }

  function StoreNames(cs: seq<Loaded>): seq<string> {
    if cs == [] then [] else (if IsState(cs[0]) then [cs[0].name] else []) + StoreNames(cs[1..])
  }

  function ScannedPaths(a: App): seq<string> {
    a.resourcePaths + if a.configPath != "" then [a.configPath] else []
  }

  /** One list per app, joined over all apps. */
  function Gather(apps: seq<App>, of: App -> seq<string>): seq<string> {
    if apps == [] then [] else of(apps[0]) + Gather(apps[1..], of)
  }

  function IdOf(a: App): seq<string> { [a.id] }

  function StoresOf(a: App): seq<string> { StoreNames(a.components) }

  function RunningIdOf(a: App): seq<string> { if Running(a) then [a.id] else [] }

  function RunningStores(a: App): seq<string> { if Running(a) then StoreNames(a.components) else [] }

  function RunningPaths(a: App): seq<string> { if Running(a) then a.resourcePaths else [] }

  function ResourcePaths(a: App): seq<string> { a.resourcePaths }

  lemma {:induction false} GatherConcat(a: seq<App>, b: seq<App>, of: App -> seq<string>)
    ensures Gather(a + b, of) == Gather(a, of) + Gather(b, of)
  {
    if a == [] {
      assert a + b == b;
    } else {
      assert (a + b)[1..] == a[1..] + b;
      GatherConcat(a[1..], b, of);
    }
  }

  lemma GatherSnoc(apps: seq<App>, i: nat, of: App -> seq<string>)
    requires i < |apps|
    ensures Gather(apps[..i + 1], of) == Gather(apps[..i], of) + of(apps[i])
  {
    assert apps[..i + 1] == apps[..i] + [apps[i]];
    GatherConcat(apps[..i], [apps[i]], of);
    assert Gather([apps[i]], of) == of(apps[i]) + Gather([], of);
  }

  lemma {:induction false} GatherHolds(apps: seq<App>, of: App -> seq<string>, x: string)
    ensures x in Gather(apps, of) <==> exists a <- apps :: x in of(a)
  {
    if apps != [] {
      GatherHolds(apps[1..], of, x);
      assert apps == [apps[0]] + apps[1..];
    }
  }

  lemma {:induction false} StoreNamesSnoc(cs: seq<Loaded>, c: Loaded)
    ensures StoreNames(cs + [c]) == StoreNames(cs) + if IsState(c) then [c.name] else []
  {
    if cs == [] {
      assert cs + [c] == [c];
    } else {
      assert (cs + [c])[1..] == cs[1..] + [c];
      StoreNamesSnoc(cs[1..], c);
    }
  }

  // ---------- derivePaths ----------

  /** The names of the state stores and the resource paths of the running apps. */
  method ElectionInputs(apps: seq<App>) returns (loaded: set<string>, appPaths: seq<string>)
    ensures forall n :: n in loaded <==> n in Gather(apps, RunningStores)
    ensures appPaths == Gather(apps, RunningPaths)
  {
    loaded, appPaths := {}, [];
    for i := 0 to |apps|
      invariant forall n :: n in loaded <==> n in Gather(apps[..i], RunningStores)
      invariant appPaths == Gather(apps[..i], RunningPaths)
    {
      GatherSnoc(apps, i, RunningStores);
      GatherSnoc(apps, i, RunningPaths);
      if Running(apps[i]) {
        var names := StateStores(apps[i].components);
        loaded := loaded + set n <- names;
        appPaths := appPaths + apps[i].resourcePaths;
      }
    }
    assert apps[..|apps|] == apps;
  }

  method StateStores(cs: seq<Loaded>) returns (names: seq<string>)
    ensures names == StoreNames(cs)
  {
    names := [];
    for k := 0 to |cs|
      invariant names == StoreNames(cs[..k])
    {
      assert cs[..k + 1] == cs[..k] + [cs[k]];
      StoreNamesSnoc(cs[..k], cs[k]);
      if IsState(cs[k]) {
        names := names + [cs[k].name];
      }
    }
    assert cs[..|cs|] == cs;
  }

  /** The paths detection walks, in order. */
  function ScanPaths(apps: seq<App>, home: bool, components: string, stateStorePath: string): seq<string> {
    if stateStorePath != "" then [stateStorePath] else (if home then [components] else []) + Gather(apps, ResourcePaths)
  }

  /** derivePaths; components and dapr stand for the two directories under a non-empty home. */
  method DerivePaths(apps: seq<App>, home: bool, components: string, dapr: string, stateStorePath: string, extra: seq<string>)
    returns (resPaths: seq<string>, scanPaths: seq<string>, loaded: set<string>, appPaths: seq<string>)
    ensures forall n :: n in loaded <==> exists a <- apps :: Running(a) && n in StoreNames(a.components)
    ensures forall p :: p in appPaths <==> exists a <- apps :: Running(a) && p in a.resourcePaths
    ensures scanPaths == ScanPaths(apps, home, components, stateStorePath)
    ensures resPaths == (if home then [components, dapr] else []) + Gather(apps, ScannedPaths) + extra
    ensures stateStorePath != "" ==> scanPaths == [stateStorePath]
    ensures stateStorePath == "" ==> forall p :: p in scanPaths <==> (home && p == components) || exists a <- apps :: p in a.resourcePaths
    ensures forall p :: p in resPaths <==>
              (home && p in {components, dapr}) || p in extra || exists a <- apps :: p in a.resourcePaths || (p == a.configPath && p != "")
  {
    loaded, appPaths := ElectionInputs(apps);
    if stateStorePath != "" {
      scanPaths := [stateStorePath];
    } else {
      var paths := GatherAll(apps, ResourcePaths);
      scanPaths := (if home then [components] else []) + paths;
    }
    var paths := GatherAll(apps, ScannedPaths);
    resPaths := (if home then [components, dapr] else []) + paths + extra;
    DerivedFrom(apps);
  }

  lemma DerivedFrom(apps: seq<App>)
    ensures forall n :: n in Gather(apps, RunningStores) <==> exists a <- apps :: Running(a) && n in StoreNames(a.components)
    ensures forall p :: p in Gather(apps, RunningPaths) <==> exists a <- apps :: Running(a) && p in a.resourcePaths
    ensures forall p :: p in Gather(apps, ResourcePaths) <==> exists a <- apps :: p in a.resourcePaths
    ensures forall p :: p in Gather(apps, ScannedPaths) <==> exists a <- apps :: p in a.resourcePaths || (p == a.configPath && p != "")
  {
    forall n ensures n in Gather(apps, RunningStores) <==> exists a <- apps :: Running(a) && n in StoreNames(a.components) {
      GatherHolds(apps, RunningStores, n);
    }
    forall p ensures p in Gather(apps, RunningPaths) <==> exists a <- apps :: Running(a) && p in a.resourcePaths {
      GatherHolds(apps, RunningPaths, p);
    }
    forall p ensures p in Gather(apps, ResourcePaths) <==> exists a <- apps :: p in a.resourcePaths {
      GatherHolds(apps, ResourcePaths, p);
    }
    forall p ensures p in Gather(apps, ScannedPaths) <==> exists a <- apps :: p in a.resourcePaths || (p == a.configPath && p != "") {
      GatherHolds(apps, ScannedPaths, p);
    }
  }

  /** The loop that appends one list per app. */
  method GatherAll(apps: seq<App>, of: App -> seq<string>) returns (all: seq<string>)
    ensures all == Gather(apps, of)
  {
    all := [];
    for i := 0 to |apps|
      invariant all == Gather(apps[..i], of)
    {
      GatherSnoc(apps, i, of);
      all := all + of(apps[i]);
    }
    assert apps[..|apps|] == apps;
  }

  // ---------- The encoding ----------

  const EndOfItem: char := 0 as char
  const EndOfGroup: char := 1 as char

  function EncodeItems(items: seq<string>): string {
    if items == [] then "" else items[0] + [EndOfItem] + EncodeItems(items[1..])
  }

  function Encode(groups: seq<seq<string>>): string {
    if groups == [] then ""
    else if |groups| == 1 then EncodeItems(groups[0])
    else EncodeItems(groups[0]) + [EndOfGroup] + Encode(groups[1..])
  }

  predicate CleanItem(s: string) { EndOfItem !in s && (s == "" || s[0] != EndOfGroup) }

  predicate Clean(items: seq<string>) { forall s <- items :: CleanItem(s) }

  function EndOfFirst(s: string): (n: nat)
    ensures n <= |s| && EndOfItem !in s[..n] && (n < |s| ==> s[n] == EndOfItem)
  {
    if s == "" || s[0] == EndOfItem then 0 else
      var n := 1 + EndOfFirst(s[1..]);
      assert s[..n] == [s[0]] + s[1..][..n - 1];
      n
  }

  /** Reads the groups back; text after the last terminator is dropped. */
  function Decode(s: string): (groups: seq<seq<string>>)
    ensures groups != []
    decreases |s|
  {
    if s == "" then [[]]
    else if s[0] == EndOfGroup then [[]] + Decode(s[1..])
    else
      var n := EndOfFirst(s);
      if n == |s| then [[]] else
        var rest := Decode(s[n + 1..]);
        [[s[..n]] + rest[0]] + rest[1..]
  }

  lemma {:induction false} EndOfFirstAt(item: string, rest: string)
    requires EndOfItem !in item
    ensures EndOfFirst(item + [EndOfItem] + rest) == |item|
  {
    var s := item + [EndOfItem] + rest;
    if item != "" {
      assert s[0] == item[0];
      assert s[1..] == item[1..] + [EndOfItem] + rest;
      EndOfFirstAt(item[1..], rest);
    }
  }

  lemma DecodeItem(item: string, rest: string, groups: seq<seq<string>>)
    requires CleanItem(item) && Decode(rest) == groups
    ensures Decode(item + [EndOfItem] + rest) == [[item] + groups[0]] + groups[1..]
  {
    var s := item + [EndOfItem] + rest;
    EndOfFirstAt(item, rest);
    assert s[..|item|] == item && s[|item| + 1..] == rest;
    assert s[0] != EndOfGroup;
  }

  lemma EncodeFirst(items: seq<string>, rest: string)
    requires items != []
    ensures EncodeItems(items) + rest == items[0] + [EndOfItem] + (EncodeItems(items[1..]) + rest)
  {
  }

  lemma Prepend(item: string, items: seq<string>, first: seq<string>, groups: seq<seq<string>>)
    ensures [[item] + ([items + first] + groups)[0]] + ([items + first] + groups)[1..] == [[item] + items + first] + groups
  {
    assert [item] + (items + first) == [item] + items + first;
  }

  lemma {:induction false} DecodeItems(items: seq<string>, rest: string, first: seq<string>, groups: seq<seq<string>>)
    requires Clean(items) && Decode(rest) == [first] + groups
    ensures Decode(EncodeItems(items) + rest) == [items + first] + groups
  {
    if items == [] {
      assert EncodeItems(items) + rest == rest;
      assert items + first == first;
    } else {
      var tail := EncodeItems(items[1..]) + rest;
      DecodeItems(items[1..], rest, first, groups);
      DecodeItem(items[0], tail, [items[1..] + first] + groups);
      Prepend(items[0], items[1..], first, groups);
      assert items == [items[0]] + items[1..];
      EncodeFirst(items, rest);
    }
  }

  /** The bytes hashed determine the lists they were made from. */
  lemma {:induction false} DecodeEncode(groups: seq<seq<string>>)
    requires groups != [] && forall g <- groups :: Clean(g)
    ensures Decode(Encode(groups)) == groups
    decreases |groups|
  {
    if |groups| == 1 {
      DecodeNothing();
      EncodeOne(groups[0]);
      DecodeItems(groups[0], "", [], []);
      assert groups[0] + [] == groups[0];
      assert [groups[0]] + [] == groups;
    } else {
      var rest := Encode(groups[1..]);
      DecodeEncode(groups[1..]);
      DecodeBoundary(rest, groups[1..]);
      DecodeItems(groups[0], [EndOfGroup] + rest, [], groups[1..]);
      EncodeMore(groups);
      assert groups[0] + [] == groups[0];
      assert [groups[0]] + groups[1..] == groups;
    }
  }

  lemma EncodeOne(g: seq<string>)
    ensures Encode([g]) == EncodeItems(g) + ""
  {
  }

  lemma EncodeMore(groups: seq<seq<string>>)
    requires |groups| > 1
    ensures Encode(groups) == EncodeItems(groups[0]) + ([EndOfGroup] + Encode(groups[1..]))
  {
  }

  lemma DecodeNothing()
    ensures Decode("") == [[]] + []
  {
  }

  lemma DecodeBoundary(rest: string, groups: seq<seq<string>>)
    requires Decode(rest) == groups
    ensures Decode([EndOfGroup] + rest) == [[]] + groups
  {
    assert ([EndOfGroup] + rest)[1..] == rest;
  }

  /** Both conditions on items are needed. */
  lemma UncleanItemsCollide(x: string, y: string)
    ensures EncodeItems([x + [EndOfItem] + y]) == EncodeItems([x, y])
    ensures EncodeItems([[EndOfGroup]]) + [EndOfGroup] + EncodeItems([""]) == EncodeItems([]) + [EndOfGroup] + EncodeItems(["", [EndOfGroup]])
  {
    One(x + [EndOfItem] + y);
    One(y);
    One([EndOfGroup]);
    One("");
    assert [x, y][1..] == [y] && ["", [EndOfGroup]][1..] == [[EndOfGroup]];
  }

  lemma One(s: string)
    ensures EncodeItems([s]) == s + [EndOfItem]
  {
  }

  lemma {:induction false} EncodeItemsSnoc(items: seq<string>, s: string)
    ensures EncodeItems(items + [s]) == EncodeItems(items) + s + [EndOfItem]
  {
    if items == [] {
      assert items + [s] == [s];
    } else {
      assert (items + [s])[1..] == items[1..] + [s];
      EncodeItemsSnoc(items[1..], s);
    }
  }

  lemma {:induction false} EncodeSnoc(groups: seq<seq<string>>, g: seq<string>)
    requires groups != []
    ensures Encode(groups + [g]) == Encode(groups) + [EndOfGroup] + EncodeItems(g)
  {
    assert (groups + [g])[1..] == groups[1..] + [g];
    if |groups| > 1 {
      EncodeSnoc(groups[1..], g);
    } else {
      assert groups[1..] + [g] == [g];
    }
  }

  /** The loops that write the groups to the hash. */
  method WriteGroups(groups: seq<seq<string>>) returns (bytes: string)
    ensures bytes == Encode(groups)
  {
    bytes := "";
    for gi := 0 to |groups|
      invariant bytes == Encode(groups[..gi])
    {
      if gi > 0 {
        bytes := bytes + [EndOfGroup];
        EncodeSnoc(groups[..gi], groups[gi]);
      }
      assert groups[..gi + 1] == groups[..gi] + [groups[gi]];
      ghost var start := bytes;
      var group := groups[gi];
      for k := 0 to |group|
        invariant bytes == start + EncodeItems(group[..k])
      {
        assert group[..k + 1] == group[..k] + [group[k]];
        EncodeItemsSnoc(group[..k], group[k]);
        bytes := bytes + group[k] + [EndOfItem];
      }
      assert group[..|group|] == group;
    }
    assert groups[..|groups|] == groups;
  }

  // ---------- appsFingerprint ----------

  /** sort.Strings */
  function Sorted(s: seq<string>): seq<string> { StableSort(s, KeyBefore) }

  function Lists(apps: seq<App>): seq<seq<string>> {
    [Sorted(Gather(apps, IdOf)), Sorted(Gather(apps, ScannedPaths)), Sorted(Gather(apps, StoresOf)), Sorted(Gather(apps, RunningIdOf))]
  }

  /** The bytes written to the hash. */
  function BytesOf(apps: seq<App>): string { Encode(Lists(apps)) }

  method FingerprintBytes(apps: seq<App>) returns (bytes: string)
    ensures bytes == BytesOf(apps)
    ensures forall later :: CleanApps(apps) && CleanApps(later) ==>
              (bytes == BytesOf(later) <==>
                 && IdBag(apps) == IdBag(later) && PathBag(apps) == PathBag(later)
                 && StoreBag(apps) == StoreBag(later) && RunningBag(apps) == RunningBag(later))
  {
    var ids, paths, stores, running := GatherFour(apps);
    bytes := WriteGroups([Sorted(ids), Sorted(paths), Sorted(stores), Sorted(running)]);
    FingerprintTells(apps);
  }

  /** The loop over the apps. */
  method GatherFour(apps: seq<App>) returns (ids: seq<string>, paths: seq<string>, stores: seq<string>, running: seq<string>)
    ensures ids == Gather(apps, IdOf) && paths == Gather(apps, ScannedPaths)
    ensures stores == Gather(apps, StoresOf) && running == Gather(apps, RunningIdOf)
  {
    ids, paths, stores, running := [], [], [], [];
    for i := 0 to |apps|
      invariant ids == Gather(apps[..i], IdOf) && paths == Gather(apps[..i], ScannedPaths)
      invariant stores == Gather(apps[..i], StoresOf) && running == Gather(apps[..i], RunningIdOf)
    {
      var a := apps[i];
      GatherSnoc(apps, i, IdOf);
      GatherSnoc(apps, i, ScannedPaths);
      GatherSnoc(apps, i, StoresOf);
      GatherSnoc(apps, i, RunningIdOf);
      ids := ids + [a.id];
      paths := paths + a.resourcePaths;
      if a.configPath != "" {
        paths := paths + [a.configPath];
      }
      var names := StateStores(a.components);
      stores := stores + names;
      if Running(a) {
        running := running + [a.id];
      }
    }
    assert apps[..|apps|] == apps;
  }

  // ---------- The order of the apps does not matter ----------

  lemma TailBag<T>(a: seq<T>, b: seq<T>)
    requires a != [] && b != [] && a[0] == b[0] && multiset(a) == multiset(b)
    ensures multiset(a[1..]) == multiset(b[1..])
  {
    assert a == [a[0]] + a[1..] && b == [b[0]] + b[1..];
    assert multiset(a[1..]) == multiset(a) - multiset{a[0]} == multiset(b[1..]);
  }

  lemma {:induction false} SortedSameBag<T(!new)>(a: seq<T>, b: seq<T>, before: (T, T) -> bool)
    requires forall x, y :: before(x, y) || before(y, x) || x == y
    requires SortedBy(a, before) && SortedBy(b, before) && multiset(a) == multiset(b)
    ensures a == b
  {
    assert |a| == |multiset(a)| == |multiset(b)| == |b|;
    if a != [] {
      assert a[0] in multiset(b) && b[0] in multiset(a);
      var i, j :| 0 <= i < |b| && b[i] == a[0] && 0 <= j < |a| && a[j] == b[0];
      assert i > 0 ==> !before(b[i], b[0]);
      assert j > 0 ==> !before(a[j], a[0]);
      TailBag(a, b);
      SortedSameBag(a[1..], b[1..], before);
    }
  }

  lemma SortedOfSameBag(a: seq<string>, b: seq<string>)
    requires multiset(a) == multiset(b)
    ensures Sorted(a) == Sorted(b)
  {
    KeyOrderIsStrictWeak();
    SortSorted(a, KeyBefore);
    SortSorted(b, KeyBefore);
    forall x, y ensures KeyBefore(x, y) || KeyBefore(y, x) || x == y {
      LessTotal(x, y);
    }
    SortedSameBag(Sorted(a), Sorted(b), KeyBefore);
  }

  lemma TakeOut<T>(a: seq<T>, b: seq<T>, j: nat)
    requires a != [] && j < |b| && b[j] == a[0] && multiset(a) == multiset(b)
    ensures multiset(a[1..]) == multiset(b[..j] + b[j + 1..])
  {
    assert a == [a[0]] + a[1..];
    assert b == b[..j] + [b[j]] + b[j + 1..];
    assert multiset(b[..j] + b[j + 1..]) == multiset(b) - multiset{b[j]} == multiset(a[1..]);
  }

  lemma BagOfParts(a: seq<string>, x: seq<string>, b: seq<string>)
    ensures multiset(a + x + b) == multiset(x) + multiset(a + b)
  {
  }

  lemma GatherWithout(apps: seq<App>, j: nat, of: App -> seq<string>)
    requires j < |apps|
    ensures multiset(Gather(apps, of)) == multiset(of(apps[j])) + multiset(Gather(apps[..j] + apps[j + 1..], of))
  {
    var l, r := apps[..j], apps[j + 1..];
    assert apps == apps[..j + 1] + r;
    GatherConcat(apps[..j + 1], r, of);
    GatherSnoc(apps, j, of);
    GatherConcat(l, r, of);
    BagOfParts(Gather(l, of), of(apps[j]), Gather(r, of));
  }

  lemma {:induction false} GatherBag(apps: seq<App>, later: seq<App>, of: App -> seq<string>)
    requires multiset(apps) == multiset(later)
    ensures multiset(Gather(apps, of)) == multiset(Gather(later, of))
  {
    assert |later| == |multiset(later)| == |multiset(apps)| == |apps|;
    if apps != [] {
      assert apps[0] in multiset(later);
      var j :| 0 <= j < |later| && later[j] == apps[0];
      TakeOut(apps, later, j);
      GatherBag(apps[1..], later[..j] + later[j + 1..], of);
      GatherWithout(later, j, of);
    }
  }

  /** The same apps in any order have the same fingerprint. */
  lemma OrderDoesNotMatter(apps: seq<App>, later: seq<App>)
    requires multiset(apps) == multiset(later)
    ensures Lists(apps) == Lists(later)
  {
    SameBagSorted(apps, later, IdOf);
    SameBagSorted(apps, later, ScannedPaths);
    SameBagSorted(apps, later, StoresOf);
    SameBagSorted(apps, later, RunningIdOf);
  }

  lemma SameBagSorted(apps: seq<App>, later: seq<App>, of: App -> seq<string>)
    requires multiset(apps) == multiset(later)
    ensures Sorted(Gather(apps, of)) == Sorted(Gather(later, of))
  {
    GatherBag(apps, later, of);
    SortedOfSameBag(Gather(apps, of), Gather(later, of));
  }

  // ---------- What the fingerprint depends on ----------

  /** The app ids, with their multiplicities; likewise the paths to scan, the names of loaded state
      stores, and the ids of the running apps. */
  function IdBag(apps: seq<App>): multiset<string> {
    if apps == [] then multiset{} else multiset{apps[0].id} + IdBag(apps[1..])
  }

  function PathBag(apps: seq<App>): multiset<string> {
    if apps == [] then multiset{}
    else multiset(apps[0].resourcePaths) + (if apps[0].configPath == "" then multiset{} else multiset{apps[0].configPath}) + PathBag(apps[1..])
  }

  function StoreBag(apps: seq<App>): multiset<string> {
    if apps == [] then multiset{} else StateStoreBag(apps[0].components) + StoreBag(apps[1..])
  }

  function StateStoreBag(cs: seq<Loaded>): multiset<string> {
    if cs == [] then multiset{}
    else (if "state." <= cs[0].typ then multiset{cs[0].name} else multiset{}) + StateStoreBag(cs[1..])
  }

  function RunningBag(apps: seq<App>): multiset<string> {
    if apps == [] then multiset{}
    else (if apps[0].daprdStatus == "stopped" then multiset{} else multiset{apps[0].id}) + RunningBag(apps[1..])
  }

  lemma {:induction false} StoreNamesBag(cs: seq<Loaded>)
    ensures multiset(StoreNames(cs)) == StateStoreBag(cs)
  {
    if cs != [] {
      StoreNamesBag(cs[1..]);
    }
  }

  lemma {:induction false} GatheredBags(apps: seq<App>)
    ensures multiset(Gather(apps, IdOf)) == IdBag(apps)
    ensures multiset(Gather(apps, ScannedPaths)) == PathBag(apps)
    ensures multiset(Gather(apps, StoresOf)) == StoreBag(apps)
    ensures multiset(Gather(apps, RunningIdOf)) == RunningBag(apps)
  {
    if apps != [] {
      GatheredBags(apps[1..]);
      StoreNamesBag(apps[0].components);
    }
  }

  lemma SortedEqualIff(a: seq<string>, b: seq<string>)
    ensures Sorted(a) == Sorted(b) <==> multiset(a) == multiset(b)
  {
    if multiset(a) == multiset(b) {
      SortedOfSameBag(a, b);
    } else {
      assert multiset(Sorted(a)) == multiset(a) && multiset(Sorted(b)) == multiset(b);
    }
  }

  predicate SameBags(apps: seq<App>, later: seq<App>) {
    && IdBag(apps) == IdBag(later) && PathBag(apps) == PathBag(later)
    && StoreBag(apps) == StoreBag(later) && RunningBag(apps) == RunningBag(later)
  }

  lemma FourEqualIff(a: seq<string>, b: seq<string>, c: seq<string>, d: seq<string>, a': seq<string>, b': seq<string>, c': seq<string>, d': seq<string>)
    ensures [a, b, c, d] == [a', b', c', d'] <==> a == a' && b == b' && c == c' && d == d'
  {
    var g, h := [a, b, c, d], [a', b', c', d'];
    assert g == h ==> g[0] == h[0] && g[1] == h[1] && g[2] == h[2] && g[3] == h[3];
  }

  lemma ListsEqualIff(apps: seq<App>, later: seq<App>)
    ensures Lists(apps) == Lists(later) <==> SameBags(apps, later)
  {
    GatheredBags(apps);
    GatheredBags(later);
    SortedEqualIff(Gather(apps, IdOf), Gather(later, IdOf));
    SortedEqualIff(Gather(apps, ScannedPaths), Gather(later, ScannedPaths));
    SortedEqualIff(Gather(apps, StoresOf), Gather(later, StoresOf));
    SortedEqualIff(Gather(apps, RunningIdOf), Gather(later, RunningIdOf));
    FourEqualIff(Sorted(Gather(apps, IdOf)), Sorted(Gather(apps, ScannedPaths)), Sorted(Gather(apps, StoresOf)), Sorted(Gather(apps, RunningIdOf)),
                 Sorted(Gather(later, IdOf)), Sorted(Gather(later, ScannedPaths)), Sorted(Gather(later, StoresOf)), Sorted(Gather(later, RunningIdOf)));
  }

  /** Whatever else changes: two discoveries of clean apps have equal fingerprints exactly when the app
      ids, the paths to scan, the loaded state stores and the running ids are the same, multiplicities
      included.  So any change to one of the four is noticed. */
  lemma EqualFingerprintsIff(apps: seq<App>, later: seq<App>)
    requires CleanApps(apps) && CleanApps(later)
    ensures BytesOf(apps) == BytesOf(later) <==>
            && IdBag(apps) == IdBag(later) && PathBag(apps) == PathBag(later)
            && StoreBag(apps) == StoreBag(later) && RunningBag(apps) == RunningBag(later)
  {
    ListsEqualIff(apps, later);
    if BytesOf(apps) == BytesOf(later) {
      EqualBytesEqualLists(apps, later);
    }
  }

  lemma FingerprintTells(apps: seq<App>)
    ensures forall later :: CleanApps(apps) && CleanApps(later) ==>
              (BytesOf(apps) == BytesOf(later) <==>
                 && IdBag(apps) == IdBag(later) && PathBag(apps) == PathBag(later)
                 && StoreBag(apps) == StoreBag(later) && RunningBag(apps) == RunningBag(later))
  {
    forall later | CleanApps(apps) && CleanApps(later)
      ensures BytesOf(apps) == BytesOf(later) <==>
                && IdBag(apps) == IdBag(later) && PathBag(apps) == PathBag(later)
                && StoreBag(apps) == StoreBag(later) && RunningBag(apps) == RunningBag(later)
    {
      EqualFingerprintsIff(apps, later);
    }
  }

  // ---------- What equal fingerprints mean ----------

  ghost predicate UniqueIds(apps: seq<App>) {
    forall a, b :: a in apps && b in apps && a.id == b.id ==> a == b
  }

  predicate CleanApps(apps: seq<App>) {
    forall a <- apps :: CleanItem(a.id) && Clean(ScannedPaths(a)) && Clean(StoreNames(a.components))
  }

  /** An app seen in both discoveries in the same running state has the same paths and stores. */
  ghost predicate FixedByIdAndState(apps: seq<App>, later: seq<App>) {
    forall a, b :: a in apps && b in later && a.id == b.id && Running(a) == Running(b) ==>
      a.resourcePaths == b.resourcePaths && StoreNames(a.components) == StoreNames(b.components)
  }

  lemma SortHolds(s: seq<string>, x: string)
    ensures x in Sorted(s) <==> x in s
  {
    assert x in Sorted(s) <==> x in multiset(Sorted(s));
    assert x in s <==> x in multiset(s);
  }

  lemma SortedClean(apps: seq<App>, of: App -> seq<string>)
    requires forall a <- apps :: Clean(of(a))
    ensures Clean(Sorted(Gather(apps, of)))
  {
    forall x | x in Sorted(Gather(apps, of)) ensures CleanItem(x) {
      SortHolds(Gather(apps, of), x);
      GatherHolds(apps, of, x);
    }
  }

  lemma FourClean(a: seq<string>, b: seq<string>, c: seq<string>, d: seq<string>)
    requires Clean(a) && Clean(b) && Clean(c) && Clean(d)
    ensures forall g <- [a, b, c, d] :: Clean(g)
  {
  }

  lemma ListsClean(apps: seq<App>)
    requires CleanApps(apps)
    ensures forall g <- Lists(apps) :: Clean(g)
  {
    SortedClean(apps, IdOf);
    SortedClean(apps, ScannedPaths);
    SortedClean(apps, StoresOf);
    SortedClean(apps, RunningIdOf);
    FourClean(Sorted(Gather(apps, IdOf)), Sorted(Gather(apps, ScannedPaths)), Sorted(Gather(apps, StoresOf)), Sorted(Gather(apps, RunningIdOf)));
  }

  lemma EqualBytesEqualLists(apps: seq<App>, later: seq<App>)
    requires CleanApps(apps) && CleanApps(later)
    requires BytesOf(apps) == BytesOf(later)
    ensures Lists(apps) == Lists(later)
  {
    var g, h := Lists(apps), Lists(later);
    ListsClean(apps);
    ListsClean(later);
    SameGroups(g, h);
  }

  lemma SameGroups(g: seq<seq<string>>, h: seq<seq<string>>)
    requires g != [] && h != [] && (forall x <- g :: Clean(x)) && (forall x <- h :: Clean(x)) && Encode(g) == Encode(h)
    ensures g == h
  {
    DecodeEncode(g);
    DecodeEncode(h);
  }

  lemma SameMembers(apps: seq<App>, later: seq<App>, of: App -> seq<string>, x: string)
    requires Sorted(Gather(apps, of)) == Sorted(Gather(later, of))
    ensures (exists a <- apps :: x in of(a)) <==> (exists a <- later :: x in of(a))
  {
    SortHolds(Gather(apps, of), x);
    SortHolds(Gather(later, of), x);
    GatherHolds(apps, of, x);
    GatherHolds(later, of, x);
  }

  lemma RunningIff(apps: seq<App>, a: App)
    requires UniqueIds(apps) && a in apps
    ensures (exists c <- apps :: a.id in RunningIdOf(c)) <==> Running(a)
  {
    if Running(a) {
      assert a.id in RunningIdOf(a);
    }
  }

  lemma ListsEqual(apps: seq<App>, later: seq<App>)
    requires Lists(apps) == Lists(later)
    ensures Sorted(Gather(apps, IdOf)) == Sorted(Gather(later, IdOf))
    ensures Sorted(Gather(apps, RunningIdOf)) == Sorted(Gather(later, RunningIdOf))
  {
    assert Lists(apps)[0] == Lists(later)[0] && Lists(apps)[3] == Lists(later)[3];
  }

  /** An app of one discovery has a counterpart in the other, in the same running state. */
  lemma Counterpart(apps: seq<App>, later: seq<App>, a: App) returns (b: App)
    requires Lists(apps) == Lists(later) && UniqueIds(apps) && UniqueIds(later) && a in apps
    ensures b in later && b.id == a.id && Running(b) == Running(a)
  {
    ListsEqual(apps, later);
    SameMembers(apps, later, IdOf, a.id);
    SameMembers(apps, later, RunningIdOf, a.id);
    assert a.id in IdOf(a);
    b :| b in later && a.id in IdOf(b);
    RunningIff(apps, a);
    RunningIff(later, b);
  }

  lemma SubsetOfInputs(apps: seq<App>, later: seq<App>, of: App -> seq<string>, x: string)
    requires Lists(apps) == Lists(later) && UniqueIds(apps) && UniqueIds(later)
    requires forall a, b :: a in apps && b in later && a.id == b.id && Running(a) == Running(b) ==> of(a) == of(b)
    ensures x in Gather(apps, of) ==> x in Gather(later, of)
  {
    GatherHolds(apps, of, x);
    GatherHolds(later, of, x);
    if a :| a in apps && x in of(a) {
      var b := Counterpart(apps, later, a);
    }
  }

  /** In any order of the apps, equal fingerprints mean the same election inputs and the same set of
      paths to scan. */
  lemma EqualFingerprintsEqualSets(apps: seq<App>, later: seq<App>, x: string)
    requires CleanApps(apps) && CleanApps(later) && UniqueIds(apps) && UniqueIds(later)
    requires FixedByIdAndState(apps, later)
    requires BytesOf(apps) == BytesOf(later)
    ensures x in Gather(apps, RunningStores) <==> x in Gather(later, RunningStores)
    ensures x in Gather(apps, RunningPaths) <==> x in Gather(later, RunningPaths)
    ensures x in Gather(apps, ResourcePaths) <==> x in Gather(later, ResourcePaths)
  {
    EqualBytesEqualLists(apps, later);
    SubsetOfInputs(apps, later, RunningStores, x);
    SubsetOfInputs(later, apps, RunningStores, x);
    SubsetOfInputs(apps, later, RunningPaths, x);
    SubsetOfInputs(later, apps, RunningPaths, x);
    SubsetOfInputs(apps, later, ResourcePaths, x);
    SubsetOfInputs(later, apps, ResourcePaths, x);
  }

  // ---------- The order of the apps ----------

  /** Discovery hands the apps over in order of their ids; here no two share one. */
  predicate SortedById(apps: seq<App>) { forall i, j :: 0 <= i < j < |apps| ==> Less(apps[i].id, apps[j].id) }

  lemma SortedAreUnique(apps: seq<App>)
    requires SortedById(apps)
    ensures UniqueIds(apps)
  {
    forall a, b | a in apps && b in apps && a.id == b.id ensures a == b {
      var i, j :| 0 <= i < |apps| && apps[i] == a && 0 <= j < |apps| && apps[j] == b;
      if i != j {
        LessAsymmetric(if i < j then a.id else b.id, if i < j then b.id else a.id);
      }
    }
  }

  /** It is enough to compare neighbours. */
  lemma {:induction false} SortedByIdIff(apps: seq<App>)
    ensures SortedById(apps) <==> forall i :: 0 <= i < |apps| - 1 ==> Less(apps[i].id, apps[i + 1].id)
  {
    if |apps| > 1 && forall i :: 0 <= i < |apps| - 1 ==> Less(apps[i].id, apps[i + 1].id) {
      var rest := apps[1..];
      assert forall i :: 0 <= i < |rest| ==> rest[i] == apps[i + 1];
      SortedByIdIff(rest);
      forall j | 1 <= j < |apps| ensures Less(apps[0].id, apps[j].id) {
        if j > 1 {
          assert Less(rest[0].id, rest[j - 1].id);
          LessTransitive(apps[0].id, apps[1].id, apps[j].id);
        }
      }
      forall i, j | 0 <= i < j < |apps| ensures Less(apps[i].id, apps[j].id) {
        if i > 0 {
          assert Less(rest[i - 1].id, rest[j - 1].id);
        }
      }
    }
  }

  function Ids(apps: seq<App>): seq<string> { seq(|apps|, i requires 0 <= i < |apps| => apps[i].id) }

  lemma SameId(apps: seq<App>, later: seq<App>, k: string)
    requires UniqueIds(apps) && UniqueIds(later) && Lists(apps) == Lists(later)
    ensures k in Ids(apps) ==> k in Ids(later)
  {
    if i :| 0 <= i < |apps| && Ids(apps)[i] == k {
      var b := Counterpart(apps, later, apps[i]);
      var j :| 0 <= j < |later| && later[j] == b;
      assert Ids(later)[j] == k;
    }
  }

  lemma SameIds(apps: seq<App>, later: seq<App>)
    requires SortedById(apps) && SortedById(later) && UniqueIds(apps) && UniqueIds(later)
    requires Lists(apps) == Lists(later)
    ensures Ids(apps) == Ids(later)
  {
    var keys := set k | k in Ids(apps);
    forall k ensures k in Ids(later) <==> k in keys {
      SameId(apps, later, k);
      SameId(later, apps, k);
    }
    ListingUnique(Ids(apps), Ids(later), keys);
  }

  /** Apps sorted by id with the same lists are the same apps in the same running states, one by one. */
  lemma SamePlace(apps: seq<App>, later: seq<App>, i: nat)
    requires SortedById(apps) && SortedById(later) && UniqueIds(apps) && UniqueIds(later) && Ids(apps) == Ids(later)
    requires Lists(apps) == Lists(later) && i < |apps|
    ensures |apps| == |later| && apps[i].id == later[i].id && Running(apps[i]) == Running(later[i])
  {
    assert |Ids(apps)| == |Ids(later)| && Ids(apps)[i] == Ids(later)[i];
    var b := Counterpart(apps, later, apps[i]);
    assert later[i] in later && b == later[i];
  }

  lemma SameApps(apps: seq<App>, later: seq<App>)
    requires SortedById(apps) && SortedById(later) && FixedByIdAndState(apps, later)
    requires Lists(apps) == Lists(later)
    ensures |apps| == |later|
    ensures forall i :: 0 <= i < |apps| ==>
              && Running(apps[i]) == Running(later[i]) && apps[i].resourcePaths == later[i].resourcePaths
              && StoreNames(apps[i].components) == StoreNames(later[i].components)
  {
    SortedAreUnique(apps);
    SortedAreUnique(later);
    SameIds(apps, later);
    assert |Ids(apps)| == |Ids(later)|;
    forall i | 0 <= i < |apps|
      ensures Running(apps[i]) == Running(later[i]) && apps[i].resourcePaths == later[i].resourcePaths
      ensures StoreNames(apps[i].components) == StoreNames(later[i].components)
    {
      SamePlace(apps, later, i);
      assert apps[i] in apps && later[i] in later;
    }
  }

  lemma {:induction false} SameGathered(apps: seq<App>, later: seq<App>, of: App -> seq<string>)
    requires |apps| == |later| && forall i :: 0 <= i < |apps| ==> of(apps[i]) == of(later[i])
    ensures Gather(apps, of) == Gather(later, of)
  {
    if apps != [] {
      SameGathered(apps[1..], later[1..], of);
    }
  }

  /** The gate skips no needed reconcile: for apps sorted by id, with paths and stores fixed by id and
      running state, equal fingerprints mean the same inputs, in the same order. */
  lemma EqualFingerprintsEqualInputs(apps: seq<App>, later: seq<App>)
    requires CleanApps(apps) && CleanApps(later) && SortedById(apps) && SortedById(later)
    requires FixedByIdAndState(apps, later)
    requires BytesOf(apps) == BytesOf(later)
    ensures Gather(apps, RunningStores) == Gather(later, RunningStores)
    ensures Gather(apps, RunningPaths) == Gather(later, RunningPaths)
    ensures Gather(apps, ResourcePaths) == Gather(later, ResourcePaths)
  {
    EqualBytesEqualLists(apps, later);
    SameApps(apps, later);
    SameGathered(apps, later, RunningStores);
    SameGathered(apps, later, RunningPaths);
    SameGathered(apps, later, ResourcePaths);
  }

  /** So, files being what they were, detection finds the same components and the store that was
      elected is still the one that would be. */
  lemma EqualFingerprintsSameElection(apps: seq<App>, later: seq<App>, detect: seq<string> -> seq<Election.Component>,
                                      home: bool, components: string, stateStorePath: string, norm: string -> string, i: nat)
    requires CleanApps(apps) && CleanApps(later) && SortedById(apps) && SortedById(later)
    requires FixedByIdAndState(apps, later)
    requires BytesOf(apps) == BytesOf(later)
    ensures ScanPaths(apps, home, components, stateStorePath) == ScanPaths(later, home, components, stateStorePath)
    ensures ElectedFrom(apps, detect(ScanPaths(apps, home, components, stateStorePath)), norm, i) <==>
            ElectedFrom(later, detect(ScanPaths(later, home, components, stateStorePath)), norm, i)
  {
    EqualFingerprintsEqualInputs(apps, later);
    SameInputsSameElection(apps, later, detect, home, components, stateStorePath, norm, i);
  }

  ghost predicate ElectedFrom(apps: seq<App>, comps: seq<Election.Component>, norm: string -> string, i: nat) {
    Election.IsElected(comps, Names(Gather(apps, RunningStores)), Gather(apps, RunningPaths), norm, i)
  }

  function Names(stores: seq<string>): set<string> { set n <- stores }

  lemma SameInputsSameElection(apps: seq<App>, later: seq<App>, detect: seq<string> -> seq<Election.Component>,
                               home: bool, components: string, stateStorePath: string, norm: string -> string, i: nat)
    requires Gather(apps, RunningStores) == Gather(later, RunningStores)
    requires Gather(apps, RunningPaths) == Gather(later, RunningPaths)
    requires Gather(apps, ResourcePaths) == Gather(later, ResourcePaths)
    ensures ScanPaths(apps, home, components, stateStorePath) == ScanPaths(later, home, components, stateStorePath)
    ensures ElectedFrom(apps, detect(ScanPaths(apps, home, components, stateStorePath)), norm, i) <==>
            ElectedFrom(later, detect(ScanPaths(later, home, components, stateStorePath)), norm, i)
  {
  }

  /** Order is needed: two apps the other way round have the same fingerprint and are scanned the
      other way round, while the first of equally ranked components is elected. */
  lemma SwappedAppsFoolTheGate(a: App, b: App)
    requires a.resourcePaths + b.resourcePaths != b.resourcePaths + a.resourcePaths
    ensures Lists([a, b]) == Lists([b, a])
    ensures Gather([a, b], ResourcePaths) != Gather([b, a], ResourcePaths)
  {
    assert multiset([a, b]) == multiset([b, a]);
    OrderDoesNotMatter([a, b], [b, a]);
    TwoApps(a, b, ResourcePaths);
    TwoApps(b, a, ResourcePaths);
  }

  // ---------- Why paths and stores must be fixed by id and state ----------

  lemma TwoApps(a: App, b: App, of: App -> seq<string>)
    ensures Gather([a, b], of) == of(a) + of(b)
  {
    assert [a, b] == [a] + [b];
    GatherConcat([a], [b], of);
    assert Gather([a], of) == of(a) + Gather([], of) && Gather([b], of) == of(b) + Gather([], of);
  }

  lemma SwapKeeps(a: App, b: App, a': App, b': App, of: App -> seq<string>)
    requires (of(a') == of(a) && of(b') == of(b)) || (of(a') == of(b) && of(b') == of(a))
    ensures Sorted(Gather([a, b], of)) == Sorted(Gather([a', b'], of))
  {
    TwoApps(a, b, of);
    TwoApps(a', b', of);
    SortedOfSameBag(of(a) + of(b), of(a') + of(b'));
  }

  /** Two apps, one running and one stopped, that swap their stores leave the fingerprint alone and
      change what is loaded. */
  lemma SwappedStoresFoolTheGate(a: App, b: App, a': App, b': App)
    requires Running(a) && !Running(b) && StoreNames(a.components) != StoreNames(b.components)
    requires a' == a.(components := b.components) && b' == b.(components := a.components)
    ensures Lists([a, b]) == Lists([a', b'])
    ensures Gather([a, b], RunningStores) != Gather([a', b'], RunningStores)
  {
    SwapKeeps(a, b, a', b', IdOf);
    SwapKeeps(a, b, a', b', ScannedPaths);
    SwapKeeps(a, b, a', b', StoresOf);
    SwapKeeps(a, b, a', b', RunningIdOf);
    TwoApps(a, b, RunningStores);
    TwoApps(a', b', RunningStores);
    assert RunningStores(a) + RunningStores(b) == StoreNames(a.components);
    assert RunningStores(a') + RunningStores(b') == StoreNames(b.components);
  }
}
