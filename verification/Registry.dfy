/** The persisted connection registry and its tombstones (cmd/registry.go). */
module Registry {
  import opened Options

  datatype Source = Auto | Manual

  datatype Entry = Entry(id: string, name: string, typ: string, source: Source, path: string,
                         metadata: map<string, string>, updatedAt: nat, dismissed: bool)

  const ManualPrefix := "manual:"

  /** What entryID hashes. */
  function Preimage(s: Source, key: string): string { if s.Manual? then ManualPrefix + key else key }

  /** The two functions the registry takes from its platform: path normalisation, and the hash
      (twelve hex digits of SHA-256). */
  datatype Naming = Naming(norm: string -> string, hash: string -> string) {
    /** entryID */
    function idOf(s: Source, key: string): string { hash(Preimage(s, key)) }
  }

  function KeyOf(e: Entry, n: Naming): (Source, string) {
    (e.source, if e.source.Manual? then e.name else n.norm(e.path))
  }

  /** Entries have pairwise different keys and the ids that go with them; only auto entries are
      ever tombstoned, and only they have a path. */
  ghost predicate WellFormed(es: seq<Entry>, n: Naming) {
    && (forall i, j :: 0 <= i < j < |es| ==> KeyOf(es[i], n) != KeyOf(es[j], n))
    && (forall i :: 0 <= i < |es| ==> es[i].id == n.idOf(KeyOf(es[i], n).0, KeyOf(es[i], n).1))
    && (forall i :: 0 <= i < |es| && es[i].source.Manual? ==> !es[i].dismissed && es[i].path == "")
  }

  function PreimageOf(e: Entry, n: Naming): string { Preimage(KeyOf(e, n).0, KeyOf(e, n).1) }

  /** The hash tells the entries' preimages apart. */
  ghost predicate NoCollisions(es: seq<Entry>, n: Naming) {
    forall i, j :: 0 <= i < |es| && 0 <= j < |es| && n.hash(PreimageOf(es[i], n)) == n.hash(PreimageOf(es[j], n)) ==>
      PreimageOf(es[i], n) == PreimageOf(es[j], n)
  }

  /** An auto entry's key is what the id of a manual entry is hashed from. */
  predicate Twins(e: Entry, f: Entry, n: Naming) {
    e.source.Auto? && f.source.Manual? && n.norm(e.path) == ManualPrefix + f.name
  }

  ghost predicate NoTwins(es: seq<Entry>, n: Naming) {
    forall i, j :: 0 <= i < |es| && 0 <= j < |es| ==> !Twins(es[i], es[j], n)
  }

  ghost predicate UniqueIds(es: seq<Entry>) {
    forall i, j :: 0 <= i < |es| && 0 <= j < |es| && es[i].id == es[j].id ==> i == j
  }

  /** The marker keeps two keys apart except an auto key that starts with it from the manual name it
      goes on with. */
  lemma PreimagesEqualIff(s: Source, k: string, s': Source, k': string)
    ensures Preimage(s, k) == Preimage(s', k') <==>
            || (s == s' && k == k')
            || (s.Auto? && s'.Manual? && k == ManualPrefix + k')
            || (s.Manual? && s'.Auto? && k' == ManualPrefix + k)
  {
    if s.Manual? && s'.Manual? {
      assert k == (ManualPrefix + k)[|ManualPrefix|..] && k' == (ManualPrefix + k')[|ManualPrefix|..];
    }
  }

  /** Whatever the hash, an auto entry at a path that normalises to "manual:" and a name has the id
      of the manual entry of that name. */
  lemma TwinsShareId(n: Naming, name: string)
    ensures n.idOf(Auto, ManualPrefix + name) == n.idOf(Manual, name)
  {
  }

  lemma SameIdIff(es: seq<Entry>, n: Naming, i: nat, j: nat)
    requires WellFormed(es, n) && NoCollisions(es, n) && i < |es| && j < |es|
    ensures es[i].id == es[j].id <==> i == j || Twins(es[i], es[j], n) || Twins(es[j], es[i], n)
  {
    PreimagesEqualIff(KeyOf(es[i], n).0, KeyOf(es[i], n).1, KeyOf(es[j], n).0, KeyOf(es[j], n).1);
    assert KeyOf(es[i], n) == KeyOf(es[j], n) <==> i == j;
  }

  /** While the hash does not collide, ids are unique exactly when no auto entry's key is "manual:"
      and a manual entry's name. */
  lemma IdsUniqueIff(es: seq<Entry>, n: Naming)
    requires WellFormed(es, n) && NoCollisions(es, n)
    ensures UniqueIds(es) <==> NoTwins(es, n)
  {
    forall i, j | 0 <= i < |es| && 0 <= j < |es|
      ensures es[i].id == es[j].id <==> i == j || Twins(es[i], es[j], n) || Twins(es[j], es[i], n)
    {
      SameIdIff(es, n, i, j);
    }
    assert forall i, j :: 0 <= i < |es| && 0 <= j < |es| && Twins(es[i], es[j], n) ==> i != j && es[i].id == es[j].id;
  }

  /** The first entry satisfying p, |es| when there is none. */
  function First(es: seq<Entry>, p: Entry -> bool): (i: nat)
    ensures i <= |es| && (i < |es| ==> p(es[i])) && forall j :: 0 <= j < i ==> !p(es[j])
  {
    if es == [] || p(es[0]) then 0 else
      var i := 1 + First(es[1..], p);
      assert forall j :: 0 < j < i ==> es[j] == es[1..][j - 1];
      i
  }

  function IsAutoAt(n: Naming, key: string): Entry -> bool { (e: Entry) => e.source.Auto? && n.norm(e.path) == key }

  function IsManualAt(n: Naming, key: string): Entry -> bool { (e: Entry) => e.source.Manual? && n.norm(e.path) == key }

  function IsManualNamed(name: string): Entry -> bool { (e: Entry) => e.source.Manual? && e.name == name }

  function IsManualId(id: string): Entry -> bool { (e: Entry) => e.source.Manual? && e.id == id }

  function IsTombstoneAt(n: Naming, key: string): Entry -> bool {
    (e: Entry) => !e.source.Manual? && e.dismissed && n.norm(e.path) == key
  }

  function Refresh(cur: Entry, e: Entry, now: nat): Entry {
    if cur.id == e.id && cur.name == e.name && cur.typ == e.typ && cur.path == e.path && cur.metadata == e.metadata then cur
    else cur.(id := e.id, name := e.name, typ := e.typ, path := e.path, metadata := e.metadata, updatedAt := now)
  }

  function Upserted(es: seq<Entry>, name: string, typ: string, path: string, n: Naming, now: nat): seq<Entry> {
    var key := n.norm(path);
    var e := Entry(n.idOf(Auto, key), name, typ, Auto, path, map[], now, false);
    var i := First(es, IsAutoAt(n, key));
    if First(es, IsManualAt(n, key)) < |es| then es
    else if i < |es| then es[i := Refresh(es[i], e, now)]
    else es + [e]
  }

  function Added(es: seq<Entry>, name: string, typ: string, metadata: map<string, string>, n: Naming, now: nat): Option<seq<Entry>> {
    if First(es, IsManualNamed(name)) < |es| then None
    else Some(es + [Entry(n.idOf(Manual, name), name, typ, Manual, "", metadata, now, false)])
  }

  /** None when no manual entry has the id, or another manual entry has the new name. */
  function Updated(es: seq<Entry>, id: string, name: string, typ: string, metadata: map<string, string>, n: Naming, now: nat): Option<seq<Entry>> {
    var i := First(es, IsManualId(id));
    if i == |es| then None
    else if exists j :: 0 <= j < |es| && j != i && IsManualNamed(name)(es[j]) then None
    else Some(es[i := Entry(n.idOf(Manual, name), name, typ, Manual, "", metadata, now, false)])
  }

  function Deleted(es: seq<Entry>, id: string): seq<Entry> {
    if es == [] then []
    else (if es[0].id != id then [es[0]] else if es[0].source.Manual? then [] else [es[0].(dismissed := true)]) + Deleted(es[1..], id)
  }

  function Undismissed(es: seq<Entry>, path: string, n: Naming, now: nat): seq<Entry> {
    var i := First(es, IsTombstoneAt(n, n.norm(path)));
    if i < |es| then es[i := es[i].(dismissed := false, updatedAt := now)] else es
  }

  // ---------- What every operation keeps ----------

  lemma UpsertKeeps(es: seq<Entry>, name: string, typ: string, path: string, n: Naming, now: nat)
    requires WellFormed(es, n)
    ensures WellFormed(Upserted(es, name, typ, path, n, now), n)
  {
  }

  lemma AddKeeps(es: seq<Entry>, name: string, typ: string, metadata: map<string, string>, n: Naming, now: nat)
    requires WellFormed(es, n) && Added(es, name, typ, metadata, n, now).Some?
    ensures WellFormed(Added(es, name, typ, metadata, n, now).value, n)
  {
    forall i | 0 <= i < |es| ensures KeyOf(es[i], n) != (Manual, name) {
      assert !IsManualNamed(name)(es[i]);
    }
  }

  lemma UpdateKeeps(es: seq<Entry>, id: string, name: string, typ: string, metadata: map<string, string>, n: Naming, now: nat)
    requires WellFormed(es, n) && Updated(es, id, name, typ, metadata, n, now).Some?
    ensures WellFormed(Updated(es, id, name, typ, metadata, n, now).value, n)
  {
    var i := First(es, IsManualId(id));
    forall j | 0 <= j < |es| && j != i ensures KeyOf(es[j], n) != (Manual, name) {
      assert !IsManualNamed(name)(es[j]);
    }
  }

  lemma UndismissKeeps(es: seq<Entry>, path: string, n: Naming, now: nat)
    requires WellFormed(es, n)
    ensures WellFormed(Undismissed(es, path, n, now), n)
  {
  }

  /** e is an entry of es, dismissed maybe. */
  ghost predicate ComesFrom(e: Entry, es: seq<Entry>) {
    exists i :: 0 <= i < |es| && (e == es[i] || (e == es[i].(dismissed := true) && es[i].source.Auto?))
  }

  lemma {:induction false} DeletedComeFrom(es: seq<Entry>, id: string)
    ensures forall e <- Deleted(es, id) :: ComesFrom(e, es)
  {
    if es != [] {
      DeletedComeFrom(es[1..], id);
      forall e <- Deleted(es, id) ensures ComesFrom(e, es) {
        if e in Deleted(es[1..], id) {
          var i :| 0 <= i < |es[1..]| && (e == es[1..][i] || (e == es[1..][i].(dismissed := true) && es[1..][i].source.Auto?));
          assert es[1..][i] == es[i + 1];
        } else {
          assert e == es[0] || e == es[0].(dismissed := true);
        }
      }
    }
  }

  lemma DeleteKeepsHead(es: seq<Entry>, id: string, n: Naming, head: Entry)
    requires WellFormed([head] + es, n) && WellFormed(Deleted(es, id), n)
    requires head.source.Manual? ==> !head.dismissed
    ensures WellFormed([head] + Deleted(es, id), n)
    ensures head.source.Auto? ==> WellFormed([head.(dismissed := true)] + Deleted(es, id), n)
  {
    DeletedComeFrom(es, id);
    var all := [head] + es;
    var rest := Deleted(es, id);
    forall j | 0 <= j < |rest| ensures KeyOf(rest[j], n) != KeyOf(head, n) {
      assert rest[j] in rest;
      var i :| 0 <= i < |es| && (rest[j] == es[i] || (rest[j] == es[i].(dismissed := true) && es[i].source.Auto?));
      assert all[i + 1] == es[i] && all[0] == head;
    }
    assert all[0] == head;
  }

  /** Whatever ids collide. */
  lemma {:induction false} DeleteKeeps(es: seq<Entry>, id: string, n: Naming)
    requires WellFormed(es, n)
    ensures WellFormed(Deleted(es, id), n)
  {
    if es != [] {
      assert es == [es[0]] + es[1..];
      assert forall i :: 0 <= i < |es[1..]| ==> es[1..][i] == es[i + 1];
      DeleteKeeps(es[1..], id, n);
      DeleteKeepsHead(es[1..], id, n, es[0]);
      assert [] + Deleted(es[1..], id) == Deleted(es[1..], id);
    }
  }

  /** A deletion leaves every auto entry in place: dismissed when its id is the one deleted, else as it was. */
  lemma {:induction false} AutoSurvives(es: seq<Entry>, id: string, k: nat) returns (k': nat)
    requires k < |es| && es[k].source.Auto?
    ensures k' < |Deleted(es, id)| && Deleted(es, id)[k'] == if es[k].id == id then es[k].(dismissed := true) else es[k]
  {
    if k == 0 {
      k' := 0;
    } else {
      k' := AutoSurvives(es[1..], id, k - 1);
      k' := k' + |Deleted(es, id)| - |Deleted(es[1..], id)|;
    }
  }

  // ---------- What each operation does, entry by entry ----------

  /** Add refuses a taken manual name and otherwise appends the entry. */
  lemma AddedIs(es: seq<Entry>, name: string, typ: string, metadata: map<string, string>, n: Naming, now: nat)
    ensures var r := Added(es, name, typ, metadata, n, now);
            && (r.None? <==> exists i :: 0 <= i < |es| && es[i].source.Manual? && es[i].name == name)
            && (r.Some? ==> r.value == es + [Entry(n.hash("manual:" + name), name, typ, Manual, "", metadata, now, false)])
  {
    var i := First(es, IsManualNamed(name));
    if j :| 0 <= j < |es| && es[j].source.Manual? && es[j].name == name {
      assert IsManualNamed(name)(es[j]);
    }
  }

  /** Update replaces the first manual entry with the id, unless another one has the new name. */
  lemma UpdatedIs(es: seq<Entry>, id: string, name: string, typ: string, metadata: map<string, string>, n: Naming, now: nat, i: nat)
    requires i < |es| && es[i].source.Manual? && es[i].id == id
    requires forall j :: 0 <= j < i ==> !(es[j].source.Manual? && es[j].id == id)
    ensures var r := Updated(es, id, name, typ, metadata, n, now);
            && (r.None? <==> exists j :: 0 <= j < |es| && j != i && es[j].source.Manual? && es[j].name == name)
            && (r.Some? ==> |r.value| == |es| && (forall j :: 0 <= j < |es| && j != i ==> r.value[j] == es[j])
                            && r.value[i] == Entry(n.hash("manual:" + name), name, typ, Manual, "", metadata, now, false))
  {
    assert IsManualId(id)(es[i]);
    assert First(es, IsManualId(id)) == i;
    if j :| 0 <= j < |es| && j != i && es[j].source.Manual? && es[j].name == name {
      assert IsManualNamed(name)(es[j]);
    }
  }

  lemma UpdatedNothing(es: seq<Entry>, id: string, name: string, typ: string, metadata: map<string, string>, n: Naming, now: nat)
    requires forall i :: 0 <= i < |es| ==> !(es[i].source.Manual? && es[i].id == id)
    ensures Updated(es, id, name, typ, metadata, n, now).None?
  {
    assert First(es, IsManualId(id)) == |es|;
  }

  /** UpsertAuto leaves everything alone next to a manual entry at the path. */
  lemma UpsertedNothing(es: seq<Entry>, name: string, typ: string, path: string, n: Naming, now: nat, i: nat)
    requires i < |es| && es[i].source.Manual? && n.norm(es[i].path) == n.norm(path)
    ensures Upserted(es, name, typ, path, n, now) == es
  {
    assert IsManualAt(n, n.norm(path))(es[i]);
  }

  /** Otherwise it writes the first auto entry at the path, tombstone kept and time kept if nothing
      else changes, ... */
  lemma UpsertedAt(es: seq<Entry>, name: string, typ: string, path: string, n: Naming, now: nat, i: nat)
    requires forall j :: 0 <= j < |es| && es[j].source.Manual? ==> n.norm(es[j].path) != n.norm(path)
    requires i < |es| && es[i].source.Auto? && n.norm(es[i].path) == n.norm(path)
    requires forall j :: 0 <= j < i && es[j].source.Auto? ==> n.norm(es[j].path) != n.norm(path)
    ensures var us := Upserted(es, name, typ, path, n, now);
            && |us| == |es| && (forall j :: 0 <= j < |es| && j != i ==> us[j] == es[j])
            && us[i] == Entry(n.hash(n.norm(path)), name, typ, Auto, path, map[], us[i].updatedAt, es[i].dismissed)
            && us[i].updatedAt == if us[i].(updatedAt := es[i].updatedAt) == es[i] then es[i].updatedAt else now
  {
    var key := n.norm(path);
    assert forall j :: 0 <= j < |es| ==> !IsManualAt(n, key)(es[j]);
    assert IsAutoAt(n, key)(es[i]);
    assert First(es, IsAutoAt(n, key)) == i && First(es, IsManualAt(n, key)) == |es|;
  }

  /** ... or appends a new one. */
  lemma UpsertedNew(es: seq<Entry>, name: string, typ: string, path: string, n: Naming, now: nat)
    requires forall j :: 0 <= j < |es| ==> n.norm(es[j].path) != n.norm(path)
    ensures Upserted(es, name, typ, path, n, now) == es + [Entry(n.hash(n.norm(path)), name, typ, Auto, path, map[], now, false)]
  {
    var key := n.norm(path);
    assert First(es, IsAutoAt(n, key)) == |es| && First(es, IsManualAt(n, key)) == |es|;
  }

  /** Undismiss clears the first tombstone at the path and nothing else. */
  lemma UndismissedIs(es: seq<Entry>, path: string, n: Naming, now: nat)
    ensures var us := Undismissed(es, path, n, now);
            && |us| == |es|
            && (forall i :: 0 <= i < |es| && (es[i].source.Manual? || !es[i].dismissed || n.norm(es[i].path) != n.norm(path)) ==> us[i] == es[i])
            && (forall i :: 0 <= i < |es| && es[i].source.Auto? && es[i].dismissed && n.norm(es[i].path) == n.norm(path) ==>
                  us[i] == if exists j :: 0 <= j < i && es[j].source.Auto? && es[j].dismissed && n.norm(es[j].path) == n.norm(path)
                           then es[i] else es[i].(dismissed := false, updatedAt := now))
  {
    var k := First(es, IsTombstoneAt(n, n.norm(path)));
    forall i | 0 <= i < |es| && es[i].source.Auto? && es[i].dismissed && n.norm(es[i].path) == n.norm(path)
      ensures k <= i && IsTombstoneAt(n, n.norm(path))(es[i])
    {
      assert IsTombstoneAt(n, n.norm(path))(es[i]);
    }
  }

  /** us is es without its manual entries with the id, and with its auto entries with it dismissed;
      everything else is as it was, in order: kept lists the places in es that us comes from. */
  ghost predicate Removal(es: seq<Entry>, us: seq<Entry>, id: string, kept: seq<nat>) {
    && |kept| == |us|
    && (forall i, j :: 0 <= i < j < |kept| ==> kept[i] < kept[j])
    && (forall j :: 0 <= j < |kept| ==> kept[j] < |es| && us[j] == if es[kept[j]].id == id then es[kept[j]].(dismissed := true) else es[kept[j]])
    && (forall i: nat :: i < |es| ==> (i in kept <==> !(es[i].source.Manual? && es[i].id == id)))
  }

  lemma {:induction false} DeletedIs(es: seq<Entry>, id: string) returns (kept: seq<nat>)
    ensures Removal(es, Deleted(es, id), id, kept)
  {
    if es == [] {
      kept := [];
    } else {
      var most, last := es[..|es| - 1], es[|es| - 1];
      kept := DeletedIs(most, id);
      assert es == most + [last];
      DeletedConcat(most, [last], id);
      if last.source.Manual? && last.id == id {
        assert Deleted([last], id) == [];
      } else {
        assert Deleted([last], id) == [if last.id == id then last.(dismissed := true) else last];
        OneMoreKept(most, last, id, kept);
        kept := kept + [|most|];
      }
    }
  }

  lemma OneMoreKept(most: seq<Entry>, last: Entry, id: string, kept: seq<nat>)
    requires Removal(most, Deleted(most, id), id, kept) && !(last.source.Manual? && last.id == id)
    ensures Removal(most + [last], Deleted(most, id) + [if last.id == id then last.(dismissed := true) else last], id, kept + [|most|])
  {
    var es, kept' := most + [last], kept + [|most|];
    forall i: nat | i < |es| ensures i in kept' <==> !(es[i].source.Manual? && es[i].id == id) {
      assert i in kept' <==> i in kept || i == |most|;
      assert i < |most| ==> es[i] == most[i];
    }
  }

  /** What is left of the id: no manual entry, and its auto entries are tombstoned. */
  lemma NothingLeftOf(es: seq<Entry>, us: seq<Entry>, id: string, kept: seq<nat>)
    requires Removal(es, us, id, kept)
    ensures forall e <- us :: e.id == id ==> e.source.Auto? && e.dismissed
    ensures forall e <- es :: e.id != id ==> e in us
    ensures forall e <- es :: e.id == id && e.source.Auto? ==> e.(dismissed := true) in us
  {
    forall e <- us | e.id == id ensures e.source.Auto? && e.dismissed {
      var j :| 0 <= j < |us| && us[j] == e;
      assert kept[j] in kept;
    }
    forall e <- es | !(e.source.Manual? && e.id == id) ensures (if e.id == id then e.(dismissed := true) else e) in us {
      var i :| 0 <= i < |es| && es[i] == e;
      var j :| 0 <= j < |kept| && kept[j] == i;
      assert us[j] in us;
    }
  }

  // ---------- Tombstones ----------

  /** The auto entry at key is tombstoned: its store stays out of the panel. */
  ghost predicate Hidden(es: seq<Entry>, key: string, n: Naming) {
    exists i :: 0 <= i < |es| && IsTombstoneAt(n, key)(es[i])
  }

  /** An entry for the store at exactly this path is in the panel. */
  ghost predicate ShownAt(es: seq<Entry>, path: string, n: Naming) {
    exists i :: 0 <= i < |es| && es[i].source.Auto? && es[i].path == path && !es[i].dismissed
  }

  /** Re-discovery neither clears nor sets a tombstone, for any path. */
  lemma UpsertRespectsTombstones(es: seq<Entry>, name: string, typ: string, path: string, n: Naming, now: nat, key: string)
    requires WellFormed(es, n)
    ensures Hidden(Upserted(es, name, typ, path, n, now), key, n) <==> Hidden(es, key, n)
  {
    var us := Upserted(es, name, typ, path, n, now);
    if i :| 0 <= i < |es| && IsTombstoneAt(n, key)(es[i]) {
      assert IsTombstoneAt(n, key)(us[i]);
    }
    if i :| 0 <= i < |us| && IsTombstoneAt(n, key)(us[i]) {
      assert IsTombstoneAt(n, key)(es[i]);
    }
  }

  // ---------- The registry object ----------

  lemma {:induction false} DeletedConcat(a: seq<Entry>, b: seq<Entry>, id: string)
    ensures Deleted(a + b, id) == Deleted(a, id) + Deleted(b, id)
  {
    if a == [] {
      assert a + b == b;
    } else {
      assert (a + b)[1..] == a[1..] + b;
      DeletedConcat(a[1..], b, id);
    }
  }

  class ConnRegistry {
    const naming: Naming
    var entries: seq<Entry>

    constructor (naming: Naming, entries: seq<Entry>)
      ensures this.naming == naming && this.entries == entries
    {
      this.naming := naming;
      this.entries := entries;
    }

    method UpsertAuto(name: string, typ: string, path: string, now: nat)
      modifies this`entries
      ensures entries == Upserted(old(entries), name, typ, path, naming, now)
    {
      var key := naming.norm(path);
      var e := Entry(naming.idOf(Auto, key), name, typ, Auto, path, map[], now, false);
      for i := 0 to |entries|
        invariant entries == old(entries)
        invariant forall j :: 0 <= j < i ==> !IsManualAt(naming, key)(entries[j])
      {
        if entries[i].source.Manual? && naming.norm(entries[i].path) == key {
          assert IsManualAt(naming, key)(entries[i]);
          return;
        }
      }
      for i := 0 to |entries|
        invariant entries == old(entries)
        invariant forall j :: 0 <= j < i ==> !IsAutoAt(naming, key)(entries[j])
      {
        var cur := entries[i];
        if cur.source.Auto? && naming.norm(cur.path) == key {
          assert IsAutoAt(naming, key)(entries[i]);
          if cur.id == e.id && cur.name == e.name && cur.typ == e.typ && cur.path == e.path && cur.metadata == e.metadata {
            assert entries == entries[i := cur];
            return;
          }
          entries := entries[i := Entry(e.id, e.name, e.typ, cur.source, e.path, e.metadata, now, cur.dismissed)];
          return;
        }
      }
      entries := entries + [e];
    }

    method Add(name: string, typ: string, metadata: map<string, string>, now: nat) returns (ok: bool)
      modifies this`entries
      ensures ok <==> Added(old(entries), name, typ, metadata, naming, now).Some?
      ensures entries == if ok then Added(old(entries), name, typ, metadata, naming, now).value else old(entries)
    {
      for i := 0 to |entries|
        invariant entries == old(entries)
        invariant forall j :: 0 <= j < i ==> !IsManualNamed(name)(entries[j])
      {
        if entries[i].source.Manual? && entries[i].name == name {
          assert IsManualNamed(name)(entries[i]);
          return false;
        }
      }
      entries := entries + [Entry(naming.idOf(Manual, name), name, typ, Manual, "", metadata, now, false)];
      ok := true;
    }

    method Update(id: string, name: string, typ: string, metadata: map<string, string>, now: nat) returns (newId: Option<string>)
      modifies this`entries
      ensures newId.Some? <==> Updated(old(entries), id, name, typ, metadata, naming, now).Some?
      ensures newId.Some? ==> newId.value == naming.idOf(Manual, name)
      ensures entries == if newId.Some? then Updated(old(entries), id, name, typ, metadata, naming, now).value else old(entries)
    {
      for i := 0 to |entries|
        invariant entries == old(entries)
        invariant forall j :: 0 <= j < i ==> !IsManualId(id)(entries[j])
      {
        if entries[i].source.Manual? && entries[i].id == id {
          assert IsManualId(id)(entries[i]);
          for j := 0 to |entries|
            invariant entries == old(entries)
            invariant forall k :: 0 <= k < j && k != i ==> !IsManualNamed(name)(entries[k])
          {
            if j != i && entries[j].source.Manual? && entries[j].name == name {
              assert IsManualNamed(name)(entries[j]);
              return None;
            }
          }
          entries := entries[i := Entry(naming.idOf(Manual, name), name, typ, Manual, "", metadata, now, false)];
          return Some(naming.idOf(Manual, name));
        }
      }
      newId := None;
    }

    /** Compacts in place: kept entries are written over the front of the very sequence being read. */
    method Delete(id: string) returns (changed: bool)
      modifies this`entries
      ensures entries == Deleted(old(entries), id)
      ensures exists kept :: Removal(old(entries), entries, id, kept)
      ensures forall e <- entries :: e.id == id ==> e.source.Auto? && e.dismissed
      ensures changed <==> exists e <- old(entries) :: e.id == id
    {
      var was := entries;
      var k := 0;
      changed := false;
      for i := 0 to |was|
        invariant 0 <= k <= i && |entries| == |was|
        invariant entries[i..] == was[i..]
        invariant entries[..k] == Deleted(was[..i], id)
        invariant changed <==> exists e <- was[..i] :: e.id == id
      {
        var e := entries[i];
        assert e == was[i] by { assert entries[i..][0] == was[i..][0]; }
        assert was[..i + 1] == was[..i] + [e];
        DeletedConcat(was[..i], [e], id);
        ghost var before := entries;
        if e.id == id {
          changed := true;
          if e.source.Manual? {
            assert Deleted([e], id) == [];
            continue;
          }
          e := e.(dismissed := true);
        }
        assert Deleted([was[i]], id) == [e];
        entries := entries[k := e];
        k := k + 1;
        assert entries[..k] == before[..k - 1] + [e];
        assert entries[i + 1..] == before[i..][1..];
      }
      entries := entries[..k];
      assert was[..|was|] == was;
      ghost var kept := DeletedIs(was, id);
      NothingLeftOf(was, entries, id, kept);
    }

    method Undismiss(path: string, now: nat)
      modifies this`entries
      ensures entries == Undismissed(old(entries), path, naming, now)
    {
      var key := naming.norm(path);
      for i := 0 to |entries|
        invariant entries == old(entries)
        invariant forall j :: 0 <= j < i ==> !IsTombstoneAt(naming, key)(entries[j])
      {
        var e := entries[i];
        if !e.source.Manual? && e.dismissed && naming.norm(e.path) == key {
          assert IsTombstoneAt(naming, key)(entries[i]);
          entries := entries[i := e.(dismissed := false, updatedAt := now)];
          return;
        }
      }
    }
  }
}
