/** The reconciler over registry and election (cmd/reconciler.go). */
module Reconcile {
  import opened Options
  import opened Text
  import opened Election
  import opened Registry

  /** What does not change during a run: naming, the strings hashed in it, the parsed component of each
      YAML file, and how a component is translated and described. */
  datatype World = World(naming: Naming, hashed: set<string>, files: map<string, Component>,
                         translate: Component -> Component, connInfo: Component -> string)

  function Identity(w: World, c: Component): string { c.name + "|" + c.typ + "|" + w.connInfo(c) }

  /** One discovery result: the detected stores and the election inputs of the running apps. */
  datatype Inputs = Inputs(detected: seq<Component>, loaded: set<string>, appPaths: seq<string>)

  datatype State = State(entries: seq<Entry>, elected: Option<Component>)

  /** The hash collides on none of the strings it is given. */
  ghost predicate HashesApart(w: World) {
    forall x, y :: x in w.hashed && y in w.hashed && w.naming.hash(x) == w.naming.hash(y) ==> x == y
  }

  /** The id of such an entry is hashed in this run, and an auto entry's path is absolute, so that it
      does not start with the marker of manual names. */
  predicate Hashable(w: World, s: Source, key: string) {
    Preimage(s, key) in w.hashed && (s.Auto? ==> !HasPrefix(key, ManualPrefix))
  }

  predicate AllHashable(w: World, es: seq<Entry>) {
    forall i :: 0 <= i < |es| ==> Hashable(w, KeyOf(es[i], w.naming).0, KeyOf(es[i], w.naming).1)
  }

  ghost predicate Keyed(w: World, es: seq<Entry>) { WellFormed(es, w.naming) && AllHashable(w, es) }

  lemma KeyedIdsUnique(w: World, es: seq<Entry>)
    requires Keyed(w, es) && HashesApart(w)
    ensures UniqueIds(es)
  {
    IdsUniqueIff(es, w.naming);
  }

  ghost predicate ValidInputs(w: World, in_: Inputs) {
    && (forall c <- in_.detected :: Hashable(w, Auto, w.naming.norm(c.path)))
    && (forall c <- in_.detected :: c.path in w.files && w.files[c.path] == c && w.naming.norm(c.path) != w.naming.norm("") && c.path != "")
    && (forall i, j :: 0 <= i < j < |in_.detected| ==> w.naming.norm(in_.detected[i].path) != w.naming.norm(in_.detected[j].path))
  }

  /** componentForEntry */
  function ComponentFor(w: World, e: Entry): Component {
    if e.source.Manual? then w.translate(Component(e.name, e.typ, e.metadata, ""))
    else if e.path in w.files then w.translate(w.files[e.path])
    else Component(e.name, e.typ, map[], e.path)
  }

  function UpsertAll(es: seq<Entry>, detected: seq<Component>, n: Naming, now: nat): seq<Entry> {
    if detected == [] then es
    else Upserted(UpsertAll(es, detected[..|detected| - 1], n, now),
                  detected[|detected| - 1].name, detected[|detected| - 1].typ, detected[|detected| - 1].path, n, now)
  }

  function UndismissAll(es: seq<Entry>, detected: seq<Component>, in_: Inputs, n: Naming, now: nat): seq<Entry> {
    if detected == [] then es
    else
      var c := detected[|detected| - 1];
      var before := UndismissAll(es, detected[..|detected| - 1], in_, n, now);
      if IsAppProvided(c, in_.loaded, in_.appPaths, n.norm) then Undismissed(before, c.path, n, now) else before
  }

  /** Everything reconcile does to the registry, before it publishes the election. */
  function Refreshed(es: seq<Entry>, in_: Inputs, n: Naming, now: nat): seq<Entry> {
    var us := UpsertAll(es, in_.detected, n, now);
    var active := Winner(in_.detected, in_.loaded, in_.appPaths, n.norm);
    UndismissAll(if active.Some? && active.value.path != "" then Undismissed(us, active.value.path, n, now) else us, in_.detected, in_, n, now)
  }

  function Reconciled(s: State, in_: Inputs, n: Naming, now: nat): State {
    State(Refreshed(s.entries, in_, n, now), Winner(in_.detected, in_.loaded, in_.appPaths, n.norm))
  }

  /** DeleteStore refuses the elected store, recognised by its connection identity. */
  predicate Refused(w: World, s: State, id: string) {
    var i := First(s.entries, (e: Entry) => e.id == id);
    i < |s.entries| && s.elected.Some?
    && Identity(w, ComponentFor(w, s.entries[i])) == Identity(w, w.translate(s.elected.value))
  }

  /** The elected store is this component's connection. */
  predicate SameStore(w: World, elected: Option<Component>, c: Component) {
    elected.Some? && Identity(w, w.translate(c)) == Identity(w, w.translate(elected.value))
  }

  datatype Op =
    | Discover(in_: Inputs)
    | AddStore(name: string, typ: string, metadata: map<string, string>)
    | UpdateStore(id: string, name: string, typ: string, metadata: map<string, string>)
    | DeleteStore(id: string)

  ghost predicate ValidOp(w: World, op: Op) {
    match op
    case Discover(in_) => ValidInputs(w, in_)
    case AddStore(name, _, _) => Hashable(w, Manual, name)
    case UpdateStore(_, name, _, _) => Hashable(w, Manual, name)
    case DeleteStore(_) => true
  }

  function Step(w: World, s: State, op: Op, now: nat): State {
    match op
    case Discover(in_) => Reconciled(s, in_, w.naming, now)
    case AddStore(name, typ, metadata) =>
      var r := Added(s.entries, name, typ, metadata, w.naming, now);
      if r.Some? then s.(entries := r.value) else s
    case UpdateStore(id, name, typ, metadata) =>
      var r := Updated(s.entries, id, name, typ, metadata, w.naming, now);
      if r.Some? then s.(entries := r.value) else s
    case DeleteStore(id) => if Refused(w, s, id) then s else s.(entries := Deleted(s.entries, id))
  }

  ghost predicate Inv(w: World, s: State) {
    && Keyed(w, s.entries)
    && (s.elected.Some? ==>
          var c := s.elected.value;
          c.path in w.files && w.files[c.path] == c && ShownAt(s.entries, c.path, w.naming))
  }

  // ---------- The strings hashed ----------

  lemma UpsertHashable(w: World, es: seq<Entry>, name: string, typ: string, path: string, now: nat)
    requires AllHashable(w, es) && Hashable(w, Auto, w.naming.norm(path))
    ensures AllHashable(w, Upserted(es, name, typ, path, w.naming, now))
  {
  }

  lemma UndismissHashable(w: World, es: seq<Entry>, path: string, now: nat)
    requires AllHashable(w, es)
    ensures AllHashable(w, Undismissed(es, path, w.naming, now))
  {
  }

  lemma {:induction false} UpsertAllHashable(w: World, es: seq<Entry>, detected: seq<Component>, now: nat)
    requires AllHashable(w, es) && forall c <- detected :: Hashable(w, Auto, w.naming.norm(c.path))
    ensures AllHashable(w, UpsertAll(es, detected, w.naming, now))
  {
    if detected != [] {
      var most, c := detected[..|detected| - 1], detected[|detected| - 1];
      assert detected == most + [c] && c in detected;
      UpsertAllHashable(w, es, most, now);
      UpsertHashable(w, UpsertAll(es, most, w.naming, now), c.name, c.typ, c.path, now);
    }
  }

  lemma {:induction false} UndismissAllHashable(w: World, es: seq<Entry>, detected: seq<Component>, in_: Inputs, now: nat)
    requires AllHashable(w, es)
    ensures AllHashable(w, UndismissAll(es, detected, in_, w.naming, now))
  {
    if detected != [] {
      var most, c := detected[..|detected| - 1], detected[|detected| - 1];
      UndismissAllHashable(w, es, most, in_, now);
      UndismissHashable(w, UndismissAll(es, most, in_, w.naming, now), c.path, now);
    }
  }

  lemma RefreshedHashable(w: World, es: seq<Entry>, in_: Inputs, now: nat)
    requires AllHashable(w, es) && forall c <- in_.detected :: Hashable(w, Auto, w.naming.norm(c.path))
    ensures AllHashable(w, Refreshed(es, in_, w.naming, now))
  {
    var us := UpsertAll(es, in_.detected, w.naming, now);
    var active := Winner(in_.detected, in_.loaded, in_.appPaths, w.naming.norm);
    UpsertAllHashable(w, es, in_.detected, now);
    if active.Some? && active.value.path != "" {
      UndismissHashable(w, us, active.value.path, now);
      UndismissAllHashable(w, Undismissed(us, active.value.path, w.naming, now), in_.detected, in_, now);
    } else {
      UndismissAllHashable(w, us, in_.detected, in_, now);
    }
  }

  lemma DeleteHashable(w: World, es: seq<Entry>, id: string)
    requires AllHashable(w, es)
    ensures AllHashable(w, Deleted(es, id))
  {
    DeletedComeFrom(es, id);
    var us := Deleted(es, id);
    forall j | 0 <= j < |us| ensures Hashable(w, KeyOf(us[j], w.naming).0, KeyOf(us[j], w.naming).1) {
      assert us[j] in us;
      var i :| 0 <= i < |es| && (us[j] == es[i] || (us[j] == es[i].(dismissed := true) && es[i].source.Auto?));
      assert KeyOf(us[j], w.naming) == KeyOf(es[i], w.naming);
    }
  }

  /** Entries stay keyed through a panel edit. */
  lemma EditKeepsKeyed(w: World, s: State, op: Op, now: nat)
    requires Keyed(w, s.entries) && ValidOp(w, op) && !op.Discover?
    ensures Keyed(w, Step(w, s, op, now).entries)
  {
    var n := w.naming;
    match op
    case AddStore(name, typ, metadata) =>
      if Added(s.entries, name, typ, metadata, n, now).Some? {
        AddKeeps(s.entries, name, typ, metadata, n, now);
      }
    case UpdateStore(id, name, typ, metadata) =>
      if Updated(s.entries, id, name, typ, metadata, n, now).Some? {
        UpdateKeeps(s.entries, id, name, typ, metadata, n, now);
      }
    case DeleteStore(id) =>
      DeleteKeeps(s.entries, id, n);
      DeleteHashable(w, s.entries, id);
  }

  // ---------- How each registry operation treats one shown or present path ----------

  ghost predicate Present(es: seq<Entry>, path: string) {
    exists i :: 0 <= i < |es| && es[i].source.Auto? && es[i].path == path
  }

  lemma UpsertPresent(es: seq<Entry>, c: Component, n: Naming, now: nat)
    requires WellFormed(es, n) && n.norm(c.path) != n.norm("")
    ensures Present(Upserted(es, c.name, c.typ, c.path, n, now), c.path)
  {
    var us := Upserted(es, c.name, c.typ, c.path, n, now);
    var i := First(es, IsAutoAt(n, n.norm(c.path)));
    assert forall j :: 0 <= j < |es| ==> !IsManualAt(n, n.norm(c.path))(es[j]);
    assert us[i].source.Auto? && us[i].path == c.path;
  }

  lemma UpsertKeepsOthers(es: seq<Entry>, c: Component, n: Naming, now: nat, path: string)
    requires n.norm(path) != n.norm(c.path) || path == c.path
    ensures Present(es, path) ==> Present(Upserted(es, c.name, c.typ, c.path, n, now), path)
    ensures ShownAt(es, path, n) ==> ShownAt(Upserted(es, c.name, c.typ, c.path, n, now), path, n)
  {
    var us := Upserted(es, c.name, c.typ, c.path, n, now);
    if i :| 0 <= i < |es| && es[i].source.Auto? && es[i].path == path && !es[i].dismissed {
      assert us[i].source.Auto? && us[i].path == path && !us[i].dismissed;
    }
    if i :| 0 <= i < |es| && es[i].source.Auto? && es[i].path == path {
      assert us[i].source.Auto? && us[i].path == path;
    }
  }

  lemma UndismissShows(es: seq<Entry>, path: string, n: Naming, now: nat)
    requires WellFormed(es, n) && Present(es, path)
    ensures ShownAt(Undismissed(es, path, n, now), path, n)
  {
    var us := Undismissed(es, path, n, now);
    var i :| 0 <= i < |es| && es[i].source.Auto? && es[i].path == path;
    var k := First(es, IsTombstoneAt(n, n.norm(path)));
    if k < |es| {
      assert KeyOf(es[k], n) == KeyOf(es[i], n);
      assert k == i;
    } else {
      assert !IsTombstoneAt(n, n.norm(path))(es[i]);
    }
    assert us[i].source.Auto? && us[i].path == path && !us[i].dismissed;
  }

  lemma UndismissKeepsOthers(es: seq<Entry>, path: string, n: Naming, now: nat, other: string)
    ensures Present(es, other) ==> Present(Undismissed(es, path, n, now), other)
    ensures ShownAt(es, other, n) ==> ShownAt(Undismissed(es, path, n, now), other, n)
  {
    var us := Undismissed(es, path, n, now);
    if i :| 0 <= i < |es| && es[i].source.Auto? && es[i].path == other && !es[i].dismissed {
      assert us[i].source.Auto? && us[i].path == other && !us[i].dismissed;
    }
    if i :| 0 <= i < |es| && es[i].source.Auto? && es[i].path == other {
      assert us[i].source.Auto? && us[i].path == other;
    }
  }

  lemma UpsertKeepsAll(es: seq<Entry>, most: seq<Component>, last: Component, n: Naming, now: nat)
    requires forall c <- most :: Present(es, c.path)
    requires forall i :: 0 <= i < |most| ==> n.norm(most[i].path) != n.norm(last.path)
    ensures forall c <- most :: Present(Upserted(es, last.name, last.typ, last.path, n, now), c.path)
  {
    forall c | c in most ensures Present(Upserted(es, last.name, last.typ, last.path, n, now), c.path) {
      UpsertKeepsOthers(es, last, n, now, c.path);
    }
  }

  lemma {:induction false} UpsertAllPresents(es: seq<Entry>, detected: seq<Component>, n: Naming, now: nat)
    requires WellFormed(es, n)
    requires forall c <- detected :: n.norm(c.path) != n.norm("")
    requires forall i, j :: 0 <= i < j < |detected| ==> n.norm(detected[i].path) != n.norm(detected[j].path)
    ensures WellFormed(UpsertAll(es, detected, n, now), n)
    ensures forall c <- detected :: Present(UpsertAll(es, detected, n, now), c.path)
  {
    if detected != [] {
      var most, last := detected[..|detected| - 1], detected[|detected| - 1];
      assert detected == most + [last] && last in detected;
      UpsertAllPresents(es, most, n, now);
      var before := UpsertAll(es, most, n, now);
      UpsertKeeps(before, last.name, last.typ, last.path, n, now);
      UpsertPresent(before, last, n, now);
      UpsertKeepsAll(before, most, last, n, now);
      assert detected[|most|] == last;
    }
  }

  lemma {:induction false} UndismissAllShows(es: seq<Entry>, detected: seq<Component>, in_: Inputs, n: Naming, now: nat, shown: set<string>)
    requires WellFormed(es, n)
    requires forall c <- detected :: Present(es, c.path)
    requires forall p <- shown :: ShownAt(es, p, n)
    ensures var us := UndismissAll(es, detected, in_, n, now);
            && WellFormed(us, n)
            && (forall c <- detected :: IsAppProvided(c, in_.loaded, in_.appPaths, n.norm) ==> ShownAt(us, c.path, n))
            && (forall p :: Present(es, p) ==> Present(us, p))
            && forall p <- shown :: ShownAt(us, p, n)
  {
    if detected != [] {
      var most, c := detected[..|detected| - 1], detected[|detected| - 1];
      assert detected == most + [c] && c in detected;
      UndismissAllShows(es, most, in_, n, now, shown);
      var before := UndismissAll(es, most, in_, n, now);
      if IsAppProvided(c, in_.loaded, in_.appPaths, n.norm) {
        UndismissKeeps(before, c.path, n, now);
        UndismissShows(before, c.path, n, now);
        forall p ensures Present(before, p) ==> Present(Undismissed(before, c.path, n, now), p) {
          UndismissKeepsOthers(before, c.path, n, now, p);
        }
        forall p ensures ShownAt(before, p, n) ==> ShownAt(Undismissed(before, c.path, n, now), p, n) {
          UndismissKeepsOthers(before, c.path, n, now, p);
        }
      }
    }
  }

  /** After a reconcile the elected store is in the panel, and so is every store a running app
      provides, whatever had been dismissed before. */
  lemma ReconcileShows(w: World, s: State, in_: Inputs, now: nat)
    requires Keyed(w, s.entries) && ValidInputs(w, in_)
    ensures var t := Reconciled(s, in_, w.naming, now);
            && Inv(w, t)
            && forall c <- in_.detected :: IsAppProvided(c, in_.loaded, in_.appPaths, w.naming.norm) ==> ShownAt(t.entries, c.path, w.naming)
  {
    var n := w.naming;
    RefreshedHashable(w, s.entries, in_, now);
    UpsertAllPresents(s.entries, in_.detected, n, now);
    var active := Winner(in_.detected, in_.loaded, in_.appPaths, n.norm);
    if active.Some? {
      var i: nat :| IsElected(in_.detected, in_.loaded, in_.appPaths, n.norm, i) && in_.detected[i] == active.value;
      assert active.value in in_.detected;
      RefreshShows(UpsertAll(s.entries, in_.detected, n, now), in_, n, now, active.value);
    }
  }

  lemma RefreshShows(us: seq<Entry>, in_: Inputs, n: Naming, now: nat, c: Component)
    requires WellFormed(us, n) && c in in_.detected && forall d <- in_.detected :: Present(us, d.path)
    ensures var es := UndismissAll(Undismissed(us, c.path, n, now), in_.detected, in_, n, now);
            && WellFormed(es, n) && ShownAt(es, c.path, n)
            && forall d <- in_.detected :: IsAppProvided(d, in_.loaded, in_.appPaths, n.norm) ==> ShownAt(es, d.path, n)
  {
    UndismissKeeps(us, c.path, n, now);
    UndismissShows(us, c.path, n, now);
    forall p ensures Present(us, p) ==> Present(Undismissed(us, c.path, n, now), p) {
      UndismissKeepsOthers(us, c.path, n, now, p);
    }
    UndismissAllShows(Undismissed(us, c.path, n, now), in_.detected, in_, n, now, {c.path});
  }

  lemma UndismissHides(es: seq<Entry>, path: string, n: Naming, now: nat, key: string)
    requires WellFormed(es, n)
    ensures Hidden(Undismissed(es, path, n, now), key, n) <==> Hidden(es, key, n) && n.norm(path) != key
  {
    var us, k := Undismissed(es, path, n, now), First(es, IsTombstoneAt(n, n.norm(path)));
    if i :| 0 <= i < |es| && IsTombstoneAt(n, key)(es[i]) && n.norm(path) != key {
      assert us[i] == es[i] && IsTombstoneAt(n, key)(us[i]);
    }
    if i :| 0 <= i < |us| && IsTombstoneAt(n, key)(us[i]) {
      assert us[i] == es[i] && IsTombstoneAt(n, key)(es[i]);
      assert k < |es| ==> k != i && KeyOf(es[k], n) != KeyOf(es[i], n);
    }
  }

  lemma {:induction false} UpsertAllHides(es: seq<Entry>, detected: seq<Component>, n: Naming, now: nat, key: string)
    requires WellFormed(es, n)
    ensures WellFormed(UpsertAll(es, detected, n, now), n)
    ensures Hidden(UpsertAll(es, detected, n, now), key, n) <==> Hidden(es, key, n)
  {
    if detected != [] {
      var most, c := detected[..|detected| - 1], detected[|detected| - 1];
      UpsertAllHides(es, most, n, now, key);
      UpsertKeeps(UpsertAll(es, most, n, now), c.name, c.typ, c.path, n, now);
      UpsertRespectsTombstones(UpsertAll(es, most, n, now), c.name, c.typ, c.path, n, now, key);
    }
  }

  lemma {:induction false} UndismissAllHides(es: seq<Entry>, detected: seq<Component>, in_: Inputs, n: Naming, now: nat, key: string)
    requires WellFormed(es, n)
    ensures WellFormed(UndismissAll(es, detected, in_, n, now), n)
    ensures Hidden(UndismissAll(es, detected, in_, n, now), key, n) <==>
            Hidden(es, key, n) && !exists c <- detected :: n.norm(c.path) == key && c.name in in_.loaded && PathUnder(c.path, in_.appPaths, n.norm)
  {
    if detected != [] {
      var most, c := detected[..|detected| - 1], detected[|detected| - 1];
      assert detected == most + [c];
      UndismissAllHides(es, most, in_, n, now, key);
      var before := UndismissAll(es, most, in_, n, now);
      if IsAppProvided(c, in_.loaded, in_.appPaths, n.norm) {
        UndismissKeeps(before, c.path, n, now);
        UndismissHides(before, c.path, n, now, key);
      }
    }
  }

  /** A reconcile brings back exactly what it should: of the stores hidden before, those stay hidden
      that are neither elected nor provided by a running app. */
  lemma ReconcileHidesIff(w: World, s: State, in_: Inputs, now: nat, key: string)
    requires WellFormed(s.entries, w.naming) && ValidInputs(w, in_)
    ensures var t := Reconciled(s, in_, w.naming, now);
            && t.elected == Winner(in_.detected, in_.loaded, in_.appPaths, w.naming.norm)
            && (Hidden(t.entries, key, w.naming) <==>
                  && Hidden(s.entries, key, w.naming)
                  && (t.elected.Some? ==> w.naming.norm(t.elected.value.path) != key)
                  && !exists c <- in_.detected ::
                       w.naming.norm(c.path) == key && c.name in in_.loaded && PathUnder(c.path, in_.appPaths, w.naming.norm))
  {
    var n, us := w.naming, UpsertAll(s.entries, in_.detected, w.naming, now);
    var active := Winner(in_.detected, in_.loaded, in_.appPaths, n.norm);
    UpsertAllHides(s.entries, in_.detected, n, now, key);
    if active.Some? {
      var i: nat :| IsElected(in_.detected, in_.loaded, in_.appPaths, n.norm, i) && in_.detected[i] == active.value;
      assert active.value in in_.detected;
      UndismissKeeps(us, active.value.path, n, now);
      UndismissHides(us, active.value.path, n, now, key);
      UndismissAllHides(Undismissed(us, active.value.path, n, now), in_.detected, in_, n, now, key);
    } else {
      UndismissAllHides(us, in_.detected, in_, n, now, key);
    }
  }

  // ---------- Runs ----------

  lemma ManualChangeKeepsShown(es: seq<Entry>, us: seq<Entry>, path: string, n: Naming)
    requires ShownAt(es, path, n)
    requires |es| <= |us| && forall i :: 0 <= i < |es| && es[i].source.Auto? ==> us[i] == es[i]
    ensures ShownAt(us, path, n)
  {
    var i :| 0 <= i < |es| && es[i].source.Auto? && es[i].path == path && !es[i].dismissed;
    assert us[i] == es[i];
  }

  /** Of the auto entry of a component on file: deleting it is refused when it is the elected store. */
  lemma RefusedIff(w: World, s: State, k: nat, c: Component)
    requires Keyed(w, s.entries) && HashesApart(w)
    requires c.path in w.files && w.files[c.path] == c
    requires k < |s.entries| && s.entries[k].source.Auto? && s.entries[k].path == c.path
    ensures Refused(w, s, s.entries[k].id) <==> SameStore(w, s.elected, c)
  {
    var id := s.entries[k].id;
    var i := First(s.entries, (e: Entry) => e.id == id);
    if i < |s.entries| {
      KeyedIdsUnique(w, s.entries);
    }
    assert ComponentFor(w, s.entries[k]) == w.translate(c);
  }

  lemma BarHead(a: string, rest: string, b: string, rest': string)
    requires '|' !in a && '|' !in b && a + "|" + rest == b + "|" + rest'
    ensures a == b && rest == rest'
  {
    var s := a + "|" + rest;
    assert forall i :: 0 <= i < |a| ==> s[i] == a[i] && a[i] in a;
    assert forall i :: 0 <= i < |b| ==> s[i] == b[i] && b[i] in b;
    assert s[|a|] == '|' && s[|b|] == '|';
    assert |a| == |b|;
    assert a == s[..|a|] == b && rest == s[|a| + 1..] == rest';
  }

  /** Identities tell stores apart by name, type and connection. */
  lemma IdentityIff(w: World, c: Component, d: Component)
    requires '|' !in c.name && '|' !in c.typ && '|' !in d.name && '|' !in d.typ
    ensures Identity(w, c) == Identity(w, d) <==> c.name == d.name && c.typ == d.typ && w.connInfo(c) == w.connInfo(d)
  {
    var x, y := c.typ + "|" + w.connInfo(c), d.typ + "|" + w.connInfo(d);
    assert Identity(w, c) == c.name + "|" + x && Identity(w, d) == d.name + "|" + y;
    if Identity(w, c) == Identity(w, d) {
      BarHead(c.name, x, d.name, y);
      BarHead(c.typ, w.connInfo(c), d.typ, w.connInfo(d));
    }
  }

  /** A deletion is refused exactly when the first entry with the id, a manual one by its own metadata,
      an auto one by its file if there is one, makes the connection of the elected store. */
  lemma RefusedExactly(w: World, s: State, i: nat)
    requires s.elected.Some? && i < |s.entries| && forall j :: 0 <= j < i ==> s.entries[j].id != s.entries[i].id
    ensures var e, d := s.entries[i], w.translate(s.elected.value);
            var c := if e.source.Manual? then w.translate(Component(e.name, e.typ, e.metadata, ""))
                     else if e.path in w.files then w.translate(w.files[e.path])
                     else Component(e.name, e.typ, map[], e.path);
            Refused(w, s, e.id) <==> c.name + "|" + c.typ + "|" + w.connInfo(c) == d.name + "|" + d.typ + "|" + w.connInfo(d)
  {
    FirstOfId(s.entries, i, s.entries[i].id);
  }

  lemma RefusedNever(w: World, s: State, id: string)
    requires s.elected.None? || forall i :: 0 <= i < |s.entries| ==> s.entries[i].id != id
    ensures !Refused(w, s, id)
  {
    FirstOfId(s.entries, First(s.entries, (e: Entry) => e.id == id), id);
  }

  /** Only deleting the elected entry itself could hide it, and that is refused. */
  lemma DeleteSparesElected(w: World, s: State, id: string)
    requires Inv(w, s) && HashesApart(w) && s.elected.Some? && !Refused(w, s, id)
    ensures ShownAt(Deleted(s.entries, id), s.elected.value.path, w.naming)
  {
    var es, c := s.entries, s.elected.value;
    var k :| 0 <= k < |es| && es[k].source.Auto? && es[k].path == c.path && !es[k].dismissed;
    RefusedIff(w, s, k, c);
    var k' := AutoSurvives(es, id, k);
    assert Deleted(es, id)[k'] == es[k];
  }

  lemma StepKeepsInv(w: World, s: State, op: Op, now: nat)
    requires Inv(w, s) && HashesApart(w)
    requires ValidOp(w, op)
    ensures Inv(w, Step(w, s, op, now))
  {
    var n := w.naming;
    match op
    case Discover(in_) => ReconcileShows(w, s, in_, now);
    case AddStore(name, typ, metadata) =>
      var r := Added(s.entries, name, typ, metadata, n, now);
      if r.Some? {
        EditKeepsKeyed(w, s, op, now);
        if s.elected.Some? {
          ManualChangeKeepsShown(s.entries, r.value, s.elected.value.path, n);
        }
      }
    case UpdateStore(id, name, typ, metadata) =>
      var r := Updated(s.entries, id, name, typ, metadata, n, now);
      if r.Some? {
        EditKeepsKeyed(w, s, op, now);
        if s.elected.Some? {
          ManualChangeKeepsShown(s.entries, r.value, s.elected.value.path, n);
        }
      }
    case DeleteStore(id) =>
      if !Refused(w, s, id) {
        EditKeepsKeyed(w, s, op, now);
        if s.elected.Some? {
          DeleteSparesElected(w, s, id);
        }
      }
  }

  function Run(w: World, s: State, ops: seq<Op>, now: nat): State
    decreases |ops|
  {
    if ops == [] then s else Run(w, Step(w, s, ops[0], now), ops[1..], now + 1)
  }

  /** Over every run of discoveries, additions, updates and deletions taken one at a time, entries
      keep unique keys and ids, and the elected store is never hidden. */
  lemma {:induction false} RunKeepsInv(w: World, s: State, ops: seq<Op>, now: nat)
    requires Inv(w, s) && HashesApart(w)
    requires forall op <- ops :: ValidOp(w, op)
    ensures Inv(w, Run(w, s, ops, now)) && UniqueIds(Run(w, s, ops, now).entries)
    decreases |ops|
  {
    KeyedIdsUnique(w, s.entries);
    if ops != [] {
      StepKeepsInv(w, s, ops[0], now);
      RunKeepsInv(w, Step(w, s, ops[0], now), ops[1..], now + 1);
    }
  }

  // ---------- A deletion between the undismissals and the publication ----------

  /** reconcile up to its undismissals: the registry is refreshed, the old election still published. */
  function Unpublished(s: State, in_: Inputs, n: Naming, now: nat): State {
    s.(entries := Refreshed(s.entries, in_, n, now))
  }

  function Publish(s: State, in_: Inputs, n: Naming): State {
    s.(elected := Winner(in_.detected, in_.loaded, in_.appPaths, n.norm))
  }

  ghost predicate AutoAt(es: seq<Entry>, path: string, dismissed: bool) {
    exists i :: 0 <= i < |es| && es[i].source.Auto? && es[i].path == path && es[i].dismissed == dismissed
  }

  lemma AutoAtUnique(es: seq<Entry>, path: string, n: Naming)
    requires WellFormed(es, n) && AutoAt(es, path, true)
    ensures !ShownAt(es, path, n)
  {
    var i :| 0 <= i < |es| && es[i].source.Auto? && es[i].path == path && es[i].dismissed;
    forall j | 0 <= j < |es| && es[j].source.Auto? && es[j].path == path ensures es[j].dismissed {
      assert KeyOf(es[i], n) == KeyOf(es[j], n);
      assert i == j;
    }
  }

  lemma AutoAtShown(es: seq<Entry>, path: string, n: Naming, dismissed: bool)
    requires WellFormed(es, n) && AutoAt(es, path, dismissed)
    ensures ShownAt(es, path, n) <==> !dismissed
  {
    if dismissed {
      AutoAtUnique(es, path, n);
    }
  }

  /** While no discovery runs, one op dismisses the auto entry of c exactly when it deletes that
      entry and the published election is some other store. */
  lemma OpDismissesIff(w: World, s: State, op: Op, now: nat, c: Component, dismissed: bool)
    requires Keyed(w, s.entries) && HashesApart(w) && !op.Discover? && ValidOp(w, op)
    requires c.path in w.files && w.files[c.path] == c && AutoAt(s.entries, c.path, dismissed)
    ensures var t := Step(w, s, op, now);
            var id := w.naming.idOf(Auto, w.naming.norm(c.path));
            && Keyed(w, t.entries) && t.elected == s.elected
            && AutoAt(t.entries, c.path, dismissed || (op == DeleteStore(id) && !SameStore(w, s.elected, c)))
  {
    var n, es, t := w.naming, s.entries, Step(w, s, op, now);
    var k :| 0 <= k < |es| && es[k].source.Auto? && es[k].path == c.path && es[k].dismissed == dismissed;
    assert es[k].id == n.idOf(Auto, n.norm(c.path));
    EditKeepsKeyed(w, s, op, now);
    match op
    case Discover(_) =>
    case AddStore(_, _, _) => assert t.entries[k] == es[k];
    case UpdateStore(_, _, _, _) => assert t.entries[k] == es[k];
    case DeleteStore(id) => DeleteDismissesIff(w, s, id, now, c, k);
  }

  lemma DeleteDismissesIff(w: World, s: State, id: string, now: nat, c: Component, k: nat)
    requires Keyed(w, s.entries) && HashesApart(w)
    requires c.path in w.files && w.files[c.path] == c
    requires k < |s.entries| && s.entries[k].source.Auto? && s.entries[k].path == c.path
    ensures var t := Step(w, s, DeleteStore(id), now);
            && Keyed(w, t.entries) && t.elected == s.elected
            && AutoAt(t.entries, c.path, s.entries[k].dismissed || (id == s.entries[k].id && !SameStore(w, s.elected, c)))
  {
    var es, t := s.entries, Step(w, s, DeleteStore(id), now);
    EditKeepsKeyed(w, s, DeleteStore(id), now);
    RefusedIff(w, s, k, c);
    if Refused(w, s, id) {
      assert t.entries[k] == es[k];
    } else {
      var k' := AutoSurvives(es, id, k);
      assert t.entries[k'] == if es[k].id == id then es[k].(dismissed := true) else es[k];
    }
  }

  lemma {:induction false} GapDismissesIff(w: World, s: State, gap: seq<Op>, now: nat, c: Component, dismissed: bool)
    requires Keyed(w, s.entries) && HashesApart(w)
    requires forall op <- gap :: !op.Discover? && ValidOp(w, op)
    requires c.path in w.files && w.files[c.path] == c && AutoAt(s.entries, c.path, dismissed)
    ensures var t := Run(w, s, gap, now);
            var id := w.naming.idOf(Auto, w.naming.norm(c.path));
            && Keyed(w, t.entries) && t.elected == s.elected
            && AutoAt(t.entries, c.path, dismissed || (DeleteStore(id) in gap && !SameStore(w, s.elected, c)))
    decreases |gap|
  {
    if gap != [] {
      var id := w.naming.idOf(Auto, w.naming.norm(c.path));
      OpDismissesIff(w, s, gap[0], now, c, dismissed);
      GapDismissesIff(w, Step(w, s, gap[0], now), gap[1..], now + 1, c,
                      dismissed || (gap[0] == DeleteStore(id) && !SameStore(w, s.elected, c)));
      assert DeleteStore(id) in gap <==> DeleteStore(id) == gap[0] || DeleteStore(id) in gap[1..];
    }
  }

  /** When panel edits land between the undismissals and the publication, the newly elected store
      ends up hidden exactly when one of them deletes its entry and the store elected before was
      not the same connection: that deletion is judged against the outgoing election. */
  lemma ElectedHiddenIff(w: World, s: State, in_: Inputs, gap: seq<Op>, now: nat, c: Component)
    requires Keyed(w, s.entries) && HashesApart(w) && ValidInputs(w, in_)
    requires forall op <- gap :: !op.Discover? && ValidOp(w, op)
    requires Winner(in_.detected, in_.loaded, in_.appPaths, w.naming.norm) == Some(c)
    ensures var t := Publish(Run(w, Unpublished(s, in_, w.naming, now), gap, now), in_, w.naming);
            var id := w.naming.idOf(Auto, w.naming.norm(c.path));
            && t.elected == Some(c)
            && (ShownAt(t.entries, c.path, w.naming) <==> !(DeleteStore(id) in gap && !SameStore(w, s.elected, c)))
  {
    ReconcileShows(w, s, in_, now);
    var u := Unpublished(s, in_, w.naming, now);
    assert AutoAt(u.entries, c.path, false);
    GapDismissesIff(w, u, gap, now, c, false);
    var id := w.naming.idOf(Auto, w.naming.norm(c.path));
    AutoAtShown(Run(w, u, gap, now).entries, c.path, w.naming, DeleteStore(id) in gap && !SameStore(w, s.elected, c));
  }

  // ---------- Panel edits anywhere among the undismissals ----------

  /** A panel edit, or one undismissal of the reconcile. */
  datatype Act = Edit(op: Op, at: nat) | Clear(path: string, at: nat)

  function Acted(w: World, s: State, a: Act): State {
    match a
    case Edit(op, at) => Step(w, s, op, at)
    case Clear(path, at) => s.(entries := Undismissed(s.entries, path, w.naming, at))
  }

  function Play(w: World, s: State, acts: seq<Act>): State
    decreases |acts|
  {
    if acts == [] then s else Play(w, Acted(w, s, acts[0]), acts[1..])
  }

  function Cleared(acts: seq<Act>): seq<string> {
    if acts == [] then [] else (if acts[0].Clear? then [acts[0].path] else []) + Cleared(acts[1..])
  }

  function ProvidedPaths(detected: seq<Component>, in_: Inputs, n: Naming): seq<string> {
    if detected == [] then []
    else
      var c := detected[|detected| - 1];
      ProvidedPaths(detected[..|detected| - 1], in_, n) +
      if IsAppProvided(c, in_.loaded, in_.appPaths, n.norm) then [c.path] else []
  }

  /** What reconcile undismisses, in order: the store it elects, then the app-provided ones. */
  function ToClear(in_: Inputs, n: Naming): seq<string> {
    var active := Winner(in_.detected, in_.loaded, in_.appPaths, n.norm);
    (if active.Some? && active.value.path != "" then [active.value.path] else []) + ProvidedPaths(in_.detected, in_, n)
  }

  function Persisted(s: State, in_: Inputs, n: Naming, now: nat): State {
    s.(entries := UpsertAll(s.entries, in_.detected, n, now))
  }

  function Clears(paths: seq<string>, now: nat): seq<Act> { seq(|paths|, i requires 0 <= i < |paths| => Clear(paths[i], now)) }

  lemma {:induction false} PlayConcat(w: World, s: State, a: seq<Act>, b: seq<Act>)
    ensures Play(w, s, a + b) == Play(w, Play(w, s, a), b)
    decreases |a|
  {
    if a == [] {
      assert a + b == b;
    } else {
      assert (a + b)[1..] == a[1..] + b;
      PlayConcat(w, Acted(w, s, a[0]), a[1..], b);
    }
  }

  lemma PlayOne(w: World, s: State, a: Act)
    ensures Play(w, s, [a]) == Acted(w, s, a)
  {
    assert Play(w, Acted(w, s, a), [a][1..]) == Acted(w, s, a);
  }

  lemma PlayFirst(w: World, s: State, path: string, rest: seq<string>, now: nat)
    ensures Play(w, s, Clears([path] + rest, now)) == Play(w, s.(entries := Undismissed(s.entries, path, w.naming, now)), Clears(rest, now))
  {
    assert Clears([path] + rest, now) == [Clear(path, now)] + Clears(rest, now);
    PlayConcat(w, s, [Clear(path, now)], Clears(rest, now));
    PlayOne(w, s, Clear(path, now));
  }

  lemma {:induction false} ProvidedPlay(w: World, s: State, detected: seq<Component>, in_: Inputs, now: nat)
    ensures Play(w, s, Clears(ProvidedPaths(detected, in_, w.naming), now)) ==
            s.(entries := UndismissAll(s.entries, detected, in_, w.naming, now))
  {
    if detected != [] {
      var most, c := detected[..|detected| - 1], detected[|detected| - 1];
      var before := ProvidedPaths(most, in_, w.naming);
      ProvidedPlay(w, s, most, in_, now);
      if IsAppProvided(c, in_.loaded, in_.appPaths, w.naming.norm) {
        assert Clears(before + [c.path], now) == Clears(before, now) + [Clear(c.path, now)];
        PlayConcat(w, s, Clears(before, now), [Clear(c.path, now)]);
        PlayOne(w, Play(w, s, Clears(before, now)), Clear(c.path, now));
      } else {
        assert before + [] == before;
      }
    }
  }

  /** Undisturbed, the undismissals are those of reconcile. */
  lemma UndisturbedPlay(w: World, s: State, in_: Inputs, now: nat)
    ensures Publish(Play(w, Persisted(s, in_, w.naming, now), Clears(ToClear(in_, w.naming), now)), in_, w.naming) ==
            Reconciled(s, in_, w.naming, now)
  {
    var active, u := Winner(in_.detected, in_.loaded, in_.appPaths, w.naming.norm), Persisted(s, in_, w.naming, now);
    var provided := ProvidedPaths(in_.detected, in_, w.naming);
    if active.Some? && active.value.path != "" {
      PlayFirst(w, u, active.value.path, provided, now);
      ProvidedPlay(w, u.(entries := Undismissed(u.entries, active.value.path, w.naming, now)), in_.detected, in_, now);
    } else {
      assert [] + provided == provided;
      ProvidedPlay(w, u, in_.detected, in_, now);
    }
  }

  /** The entry is deleted and its path not undismissed any more. */
  predicate DeletedLast(acts: seq<Act>, id: string, path: string) {
    acts != [] &&
    (DeletedLast(acts[1..], id, path) || (acts[0].Edit? && acts[0].op == DeleteStore(id) && path !in Cleared(acts[1..])))
  }

  lemma ClearShows(es: seq<Entry>, c: Component, path: string, n: Naming, at: nat, dismissed: bool)
    requires WellFormed(es, n) && AutoAt(es, c.path, dismissed) && (n.norm(path) == n.norm(c.path) ==> path == c.path)
    ensures WellFormed(Undismissed(es, path, n, at), n)
    ensures AutoAt(Undismissed(es, path, n, at), c.path, dismissed && path != c.path)
  {
    UndismissKeeps(es, path, n, at);
    var us := Undismissed(es, path, n, at);
    var k :| 0 <= k < |es| && es[k].source.Auto? && es[k].path == c.path && es[k].dismissed == dismissed;
    if path == c.path {
      UndismissShows(es, path, n, at);
      var i :| 0 <= i < |us| && us[i].source.Auto? && us[i].path == path && !us[i].dismissed;
    } else {
      assert us[k] == es[k];
    }
  }

  lemma {:induction false} PlayHidesIff(w: World, s: State, acts: seq<Act>, c: Component, dismissed: bool)
    requires Keyed(w, s.entries) && HashesApart(w)
    requires forall a <- acts :: a.Edit? ==> !a.op.Discover? && ValidOp(w, a.op)
    requires forall p <- Cleared(acts) :: w.naming.norm(p) == w.naming.norm(c.path) ==> p == c.path
    requires c.path in w.files && w.files[c.path] == c && AutoAt(s.entries, c.path, dismissed)
    ensures var t := Play(w, s, acts);
            var id := w.naming.idOf(Auto, w.naming.norm(c.path));
            && Keyed(w, t.entries) && t.elected == s.elected
            && AutoAt(t.entries, c.path, (dismissed && c.path !in Cleared(acts)) || (DeletedLast(acts, id, c.path) && !SameStore(w, s.elected, c)))
    decreases |acts|
  {
    if acts != [] {
      var a, rest := acts[0], acts[1..];
      assert acts == [a] + rest && forall p <- Cleared(rest) :: p in Cleared(acts);
      var id := w.naming.idOf(Auto, w.naming.norm(c.path));
      match a
      case Edit(op, at) =>
        OpDismissesIff(w, s, op, at, c, dismissed);
        PlayHidesIff(w, Acted(w, s, a), rest, c, dismissed || (op == DeleteStore(id) && !SameStore(w, s.elected, c)));
      case Clear(path, at) =>
        assert path in Cleared(acts);
        ClearShows(s.entries, c, path, w.naming, at, dismissed);
        UndismissHashable(w, s.entries, path, at);
        PlayHidesIff(w, Acted(w, s, a), rest, c, dismissed && path != c.path);
    }
  }

  lemma {:induction false} ProvidedAreDetected(detected: seq<Component>, in_: Inputs, n: Naming, p: string)
    requires p in ProvidedPaths(detected, in_, n)
    ensures exists c <- detected :: c.path == p
  {
    var most, c := detected[..|detected| - 1], detected[|detected| - 1];
    assert detected == most + [c];
    if p in ProvidedPaths(most, in_, n) {
      ProvidedAreDetected(most, in_, n, p);
    } else {
      assert c in detected && c.path == p;
    }
  }

  lemma ClearedAreDetected(w: World, in_: Inputs, c: Component, p: string)
    requires ValidInputs(w, in_) && Winner(in_.detected, in_.loaded, in_.appPaths, w.naming.norm) == Some(c)
    requires p in ToClear(in_, w.naming) && w.naming.norm(p) == w.naming.norm(c.path) && c in in_.detected
    ensures p == c.path
  {
    if p in ProvidedPaths(in_.detected, in_, w.naming) {
      ProvidedAreDetected(in_.detected, in_, w.naming, p);
    }
  }

  lemma WinnerIsPersisted(w: World, s: State, in_: Inputs, now: nat, c: Component) returns (dismissed: bool)
    requires Keyed(w, s.entries) && ValidInputs(w, in_)
    requires Winner(in_.detected, in_.loaded, in_.appPaths, w.naming.norm) == Some(c)
    ensures var u := Persisted(s, in_, w.naming, now);
            c in in_.detected && Keyed(w, u.entries) && AutoAt(u.entries, c.path, dismissed)
  {
    var n, es := w.naming, UpsertAll(s.entries, in_.detected, w.naming, now);
    var i: nat :| IsElected(in_.detected, in_.loaded, in_.appPaths, n.norm, i) && in_.detected[i] == c;
    UpsertAllPresents(s.entries, in_.detected, n, now);
    UpsertAllHashable(w, s.entries, in_.detected, now);
    var k :| 0 <= k < |es| && es[k].source.Auto? && es[k].path == c.path;
    dismissed := es[k].dismissed;
  }

  /** Panel edits landing anywhere between persisting the detected stores and the publication, among
      the undismissals too: the newly elected store ends up hidden exactly when its entry is deleted
      after the last undismissal of its path and the store elected before was not the same connection. */
  lemma HiddenAmongUndismissalsIff(w: World, s: State, in_: Inputs, acts: seq<Act>, now: nat, c: Component)
    requires Keyed(w, s.entries) && HashesApart(w) && ValidInputs(w, in_)
    requires forall a <- acts :: a.Edit? ==> !a.op.Discover? && ValidOp(w, a.op)
    requires Cleared(acts) == ToClear(in_, w.naming)
    requires Winner(in_.detected, in_.loaded, in_.appPaths, w.naming.norm) == Some(c)
    ensures var t := Publish(Play(w, Persisted(s, in_, w.naming, now), acts), in_, w.naming);
            var id := w.naming.idOf(Auto, w.naming.norm(c.path));
            && t.elected == Some(c)
            && (ShownAt(t.entries, c.path, w.naming) <==> !(DeletedLast(acts, id, c.path) && !SameStore(w, s.elected, c)))
  {
    var u := Persisted(s, in_, w.naming, now);
    var dismissed := WinnerIsPersisted(w, s, in_, now, c);
    forall p <- Cleared(acts) | w.naming.norm(p) == w.naming.norm(c.path) ensures p == c.path {
      ClearedAreDetected(w, in_, c, p);
    }
    assert ToClear(in_, w.naming)[0] == c.path && c.path in Cleared(acts);
    PlayHidesIff(w, u, acts, c, dismissed);
    var id := w.naming.idOf(Auto, w.naming.norm(c.path));
    AutoAtShown(Play(w, u, acts).entries, c.path, w.naming, DeletedLast(acts, id, c.path) && !SameStore(w, s.elected, c));
  }

  function Named(name: string): Component { Component(name, "state.redis", map[], name) }

  function Plain(): Naming { Naming((p: string) => p, (x: string) => x) }

  function PlainWorld(files: map<string, Component>): World {
    World(Plain(), files.Keys, files, (c: Component) => c, (c: Component) => "")
  }

  lemma SingleWinner(c: Component, n: Naming)
    ensures Winner([c], {}, [], n.norm) == Some(c)
  {
    var i: nat :| IsElected([c], {}, [], n.norm, i) && [c][i] == Winner([c], {}, [], n.norm).value;
  }

  lemma OtherStore(w: World, a: string, b: string)
    requires a != "" && b != "" && a[0] != b[0] && w.translate == ((c: Component) => c)
    ensures !SameStore(w, Some(Named(a)), Named(b))
  {
    assert Identity(w, Named(a))[0] == a[0] && Identity(w, Named(b))[0] == b[0];
  }

  function ElectedAlone(a: string): State {
    State([Entry(Plain().idOf(Auto, a), a, "state.redis", Auto, a, map[], 0, false)], Some(Named(a)))
  }

  lemma ElectedAloneFits(w: World, a: string)
    requires w.naming == Plain() && a in w.files && w.files[a] == Named(a) && Hashable(w, Auto, a)
    ensures Inv(w, ElectedAlone(a))
  {
    var es := ElectedAlone(a).entries;
    assert es[0].source.Auto? && es[0].path == a && !es[0].dismissed;
  }

  /** A run that does it: a is elected, discovery elects b, and b is deleted just before the
      election is published. */
  lemma DeletionInTheGapHidesElected(a: string, b: string, now: nat)
    requires a != "" && b != "" && a[0] != b[0] && !HasPrefix(a, ManualPrefix) && !HasPrefix(b, ManualPrefix)
    ensures exists w: World, s: State, in_: Inputs, op: Op ::
              HashesApart(w) && Inv(w, s) && ValidInputs(w, in_) && !op.Discover? &&
              var t := Publish(Run(w, Unpublished(s, in_, w.naming, now), [op], now), in_, w.naming);
              t.elected == Some(Named(b)) && !ShownAt(t.entries, b, w.naming)
  {
    var n, w := Plain(), PlainWorld(map[a := Named(a), b := Named(b)]);
    var s, in_, op := ElectedAlone(a), Inputs([Named(b)], {}, []), DeleteStore(n.idOf(Auto, b));
    SingleWinner(Named(b), n);
    ElectedAloneFits(w, a);
    OtherStore(w, a, b);
    HiddenBy(w, s, in_, op, now, Named(b));
  }

  lemma HiddenBy(w: World, s: State, in_: Inputs, op: Op, now: nat, c: Component)
    requires Keyed(w, s.entries) && HashesApart(w) && ValidInputs(w, in_)
    requires Winner(in_.detected, in_.loaded, in_.appPaths, w.naming.norm) == Some(c)
    requires op == DeleteStore(w.naming.idOf(Auto, w.naming.norm(c.path))) && !SameStore(w, s.elected, c)
    ensures var t := Publish(Run(w, Unpublished(s, in_, w.naming, now), [op], now), in_, w.naming);
            t.elected == Some(c) && !ShownAt(t.entries, c.path, w.naming)
  {
    ElectedHiddenIff(w, s, in_, [op], now, c);
    assert op in [op];
  }

  /** DeleteStore checks the election and deletes in two sections. Whatever happens in between, whole
      reconciles included, a deletion let through hides the store elected by then exactly when it is
      that store's entry. */
  lemma LateDeletionHidesIff(w: World, t: State, id: string, c: Component)
    requires Inv(w, t) && t.elected == Some(c)
    ensures ShownAt(Deleted(t.entries, id), c.path, w.naming) <==> id != w.naming.idOf(Auto, w.naming.norm(c.path))
  {
    var es, n := t.entries, w.naming;
    var k :| 0 <= k < |es| && es[k].source.Auto? && es[k].path == c.path && !es[k].dismissed;
    var k' := AutoSurvives(es, id, k);
    DeleteKeeps(es, id, n);
    assert es[k].id == n.idOf(Auto, n.norm(c.path));
    if es[k].id == id {
      AutoAtUnique(Deleted(es, id), c.path, n);
    }
  }

  /** A reconcile in between is enough: the deletion of the entry of the store it elects is let through
      by the check before it exactly when another connection was elected then, and ends up hiding it. */
  lemma CheckedBeforeReconcile(w: World, s: State, in_: Inputs, now: nat, c: Component)
    requires Inv(w, s) && HashesApart(w) && ValidInputs(w, in_)
    requires Winner(in_.detected, in_.loaded, in_.appPaths, w.naming.norm) == Some(c) && Present(s.entries, c.path)
    ensures var t := Step(w, s, Discover(in_), now);
            var id := w.naming.idOf(Auto, w.naming.norm(c.path));
            && Inv(w, t) && t.elected == Some(c)
            && (Refused(w, s, id) <==> SameStore(w, s.elected, c))
            && !ShownAt(Deleted(t.entries, id), c.path, w.naming)
  {
    var id := w.naming.idOf(Auto, w.naming.norm(c.path));
    ReconcileShows(w, s, in_, now);
    LateDeletionHidesIff(w, Step(w, s, Discover(in_), now), id, c);
    var i: nat :| IsElected(in_.detected, in_.loaded, in_.appPaths, w.naming.norm, i) && in_.detected[i] == c;
    var k :| 0 <= k < |s.entries| && s.entries[k].source.Auto? && s.entries[k].path == c.path;
    RefusedIff(w, s, k, c);
  }

  // ---------- The reconciler object ----------

  lemma UpsertAllSnoc(es: seq<Entry>, detected: seq<Component>, i: nat, n: Naming, now: nat)
    requires i < |detected|
    ensures UpsertAll(es, detected[..i + 1], n, now) ==
            Upserted(UpsertAll(es, detected[..i], n, now), detected[i].name, detected[i].typ, detected[i].path, n, now)
  {
    assert detected[..i + 1][..i] == detected[..i];
  }

  lemma UndismissAllSnoc(es: seq<Entry>, detected: seq<Component>, i: nat, in_: Inputs, n: Naming, now: nat)
    requires i < |detected|
    ensures UndismissAll(es, detected[..i + 1], in_, n, now) ==
            var before := UndismissAll(es, detected[..i], in_, n, now);
            if IsAppProvided(detected[i], in_.loaded, in_.appPaths, n.norm) then Undismissed(before, detected[i].path, n, now) else before
  {
    assert detected[..i + 1][..i] == detected[..i];
  }

  class Reconciler {
    const registry: ConnRegistry
    var elected: Option<Component>
    var fp: string
    var closing: bool

    constructor (registry: ConnRegistry)
      ensures this.registry == registry && elected == None && fp == "" && !closing
    {
      this.registry := registry;
      elected, fp, closing := None, "", false;
    }

    ghost function Now(): (s: State)
      reads this, registry
    {
      State(registry.entries, elected)
    }

    method PersistAll(detected: seq<Component>, now: nat)
      modifies registry`entries
      ensures registry.entries == UpsertAll(old(registry.entries), detected, registry.naming, now)
    {
      for i := 0 to |detected|
        invariant registry.entries == UpsertAll(old(registry.entries), detected[..i], registry.naming, now)
      {
        UpsertAllSnoc(old(registry.entries), detected, i, registry.naming, now);
        registry.UpsertAuto(detected[i].name, detected[i].typ, detected[i].path, now);
      }
      assert detected[..|detected|] == detected;
    }

    /** undismissAppProvided; a component without a path is under no path. */
    method UndismissProvided(in_: Inputs, now: nat)
      modifies registry`entries
      ensures registry.entries == UndismissAll(old(registry.entries), in_.detected, in_, registry.naming, now)
    {
      var detected := in_.detected;
      for k := 0 to |detected|
        invariant registry.entries == UndismissAll(old(registry.entries), detected[..k], in_, registry.naming, now)
      {
        var c := detected[k];
        UndismissAllSnoc(old(registry.entries), detected, k, in_, registry.naming, now);
        if c.path == "" || c.name !in in_.loaded || !PathUnder(c.path, in_.appPaths, registry.naming.norm) {
          continue;
        }
        registry.Undismiss(c.path, now);
      }
      assert detected[..|detected|] == detected;
    }

    /** closesMeanwhile: Close ran after the first check and before the second. */
    method Reconcile(in_: Inputs, newFp: string, now: nat, closesMeanwhile: bool)
      modifies this, registry`entries
      ensures closing == (old(closing) || closesMeanwhile)
      ensures old(closing) ==> Now() == old(Now()) && fp == old(fp)
      ensures !old(closing) ==> registry.entries == Refreshed(old(registry.entries), in_, registry.naming, now)
      ensures !old(closing) && closesMeanwhile ==> Now() == Unpublished(old(Now()), in_, registry.naming, now) && fp == old(fp)
      ensures !closing ==> Now() == Reconciled(old(Now()), in_, registry.naming, now) && fp == newFp
    {
      if closing {
        return;
      }
      var detected := in_.detected;
      PersistAll(detected, now);
      var i := Elect(detected, in_.loaded, in_.appPaths, registry.naming.norm);
      var active := if i.Some? then Some(detected[i.value]) else None;
      if i.Some? {
        ElectedIsWinner(detected, in_.loaded, in_.appPaths, registry.naming.norm, i.value);
      }
      if active.Some? && active.value.path != "" {
        registry.Undismiss(active.value.path, now);
      }
      UndismissProvided(in_, now);
      closing := closing || closesMeanwhile;
      if closing {
        return;
      }
      elected, fp := active, newFp;
    }

    method AddStore(w: World, name: string, typ: string, metadata: map<string, string>, now: nat) returns (ok: bool)
      requires w.naming == registry.naming
      modifies registry`entries
      ensures Now() == Step(w, old(Now()), Op.AddStore(name, typ, metadata), now)
      ensures ok <==> forall e <- old(registry.entries) :: !(e.source.Manual? && e.name == name)
      ensures registry.entries == old(registry.entries) +
                if ok then [Entry(registry.naming.hash("manual:" + name), name, typ, Manual, "", metadata, now, false)] else []
    {
      ok := registry.Add(name, typ, metadata, now);
      AddedIs(old(registry.entries), name, typ, metadata, registry.naming, now);
      ghost var i := First(old(registry.entries), IsManualNamed(name));
      assert i < |old(registry.entries)| ==> old(registry.entries)[i] in old(registry.entries);
    }

    method UpdateStore(w: World, id: string, name: string, typ: string, metadata: map<string, string>, now: nat) returns (newId: Option<string>)
      requires w.naming == registry.naming
      modifies registry`entries
      ensures Now() == Step(w, old(Now()), Op.UpdateStore(id, name, typ, metadata), now)
      ensures newId.Some? ==> newId.value == w.naming.hash("manual:" + name)
      ensures forall i :: (0 <= i < |old(registry.entries)| && old(registry.entries)[i].source.Manual? && old(registry.entries)[i].id == id
                           && (forall j :: 0 <= j < i ==> !(old(registry.entries)[j].source.Manual? && old(registry.entries)[j].id == id))) ==>
                && (newId.None? <==> exists j :: 0 <= j < |old(registry.entries)| && j != i
                                       && old(registry.entries)[j].source.Manual? && old(registry.entries)[j].name == name)
                && registry.entries == if newId.None? then old(registry.entries)
                                       else old(registry.entries)[i := Entry(newId.value, name, typ, Manual, "", metadata, now, false)]
      ensures (forall e <- old(registry.entries) :: !(e.source.Manual? && e.id == id)) ==> newId.None? && registry.entries == old(registry.entries)
    {
      newId := registry.Update(id, name, typ, metadata, now);
      ghost var es := old(registry.entries);
      forall i | 0 <= i < |es| && es[i].source.Manual? && es[i].id == id && (forall j :: 0 <= j < i ==> !(es[j].source.Manual? && es[j].id == id))
        ensures newId.None? <==> exists j :: 0 <= j < |es| && j != i && es[j].source.Manual? && es[j].name == name
        ensures registry.entries == if newId.None? then es else es[i := Entry(newId.value, name, typ, Manual, "", metadata, now, false)]
      {
        UpdatedIs(es, id, name, typ, metadata, registry.naming, now, i);
      }
      if forall e <- es :: !(e.source.Manual? && e.id == id) {
        assert forall i :: 0 <= i < |es| ==> es[i] in es;
        UpdatedNothing(es, id, name, typ, metadata, registry.naming, now);
      }
    }

    /** False is the refusal of the elected store. */
    method DeleteStore(w: World, id: string, now: nat) returns (ok: bool)
      requires w.naming == registry.naming
      modifies registry`entries
      ensures ok <==> !Refused(w, old(Now()), id)
      ensures Now() == Step(w, old(Now()), Op.DeleteStore(id), now)
      ensures ok ==> exists kept :: Removal(old(registry.entries), registry.entries, id, kept)
      ensures ok ==> forall e <- registry.entries :: e.id == id ==> e.source.Auto? && e.dismissed
      ensures !ok ==> registry.entries == old(registry.entries)
    {
      for i := 0 to |registry.entries|
        invariant registry.entries == old(registry.entries)
        invariant forall j :: 0 <= j < i ==> registry.entries[j].id != id
      {
        var e := registry.entries[i];
        if e.id == id {
          FirstOfId(registry.entries, i, id);
          if elected.Some? && Identity(w, ComponentFor(w, e)) == Identity(w, w.translate(elected.value)) {
            return false;
          }
          var _ := registry.Delete(id);
          return true;
        }
      }
      FirstOfId(registry.entries, |registry.entries|, id);
      var _ := registry.Delete(id);
      ok := true;
    }
  }

  lemma FirstOfId(es: seq<Entry>, i: nat, id: string)
    requires i <= |es| && (i < |es| ==> es[i].id == id) && forall j :: 0 <= j < i ==> es[j].id != id
    ensures First(es, (e: Entry) => e.id == id) == i
  {
  }
}
