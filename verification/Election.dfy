/** Active-store election (cmd/workflow.go). */
module Election {
  import opened Options
  import opened Text

  datatype Component = Component(name: string, typ: string, metadata: map<string, string>, path: string)

  /** pathUnder; norm is the platform's path normalisation. */
  predicate PathUnder(child: string, parents: seq<string>, norm: string -> string) {
    child != "" && exists p :: p in parents && (norm(child) == norm(p) || HasPrefix(norm(child), norm(p) + "/"))
  }

  predicate IsActor(c: Component) { "actorStateStore" in c.metadata && c.metadata["actorStateStore"] == "true" }

  predicate IsAppProvided(c: Component, loaded: set<string>, appPaths: seq<string>, norm: string -> string) {
    c.name in loaded && PathUnder(c.path, appPaths, norm)
  }

  /** The documented precedence, best first. */
  function Rank(c: Component, loaded: set<string>, appPaths: seq<string>, norm: string -> string): nat {
    if IsAppProvided(c, loaded, appPaths, norm) then (if IsActor(c) then 1 else 2)
    else if c.name in loaded then (if IsActor(c) then 3 else 4)
    else if IsActor(c) then 5
    else 6
  }

  /** A path is under a directory when it is the directory or goes on from it after a separator. */
  lemma PathUnderIff(child: string, parents: seq<string>, norm: string -> string)
    ensures PathUnder(child, parents, norm) <==>
            child != "" && exists p <- parents :: norm(child) == norm(p) || exists rest: string :: norm(child) == norm(p) + "/" + rest
  {
    forall p | p in parents ensures HasPrefix(norm(child), norm(p) + "/") <==> exists rest: string :: norm(child) == norm(p) + "/" + rest {
      if HasPrefix(norm(child), norm(p) + "/") {
        assert norm(child) == norm(p) + "/" + norm(child)[|norm(p)| + 1..];
      }
    }
  }

  method FirstWhere(comps: seq<Component>, p: Component -> bool) returns (r: Option<nat>)
    ensures r.Some? ==> r.value < |comps| && p(comps[r.value]) && forall j :: 0 <= j < r.value ==> !p(comps[j])
    ensures r.None? ==> forall j :: 0 <= j < |comps| ==> !p(comps[j])
  {
    for i := 0 to |comps|
      invariant forall j :: 0 <= j < i ==> !p(comps[j])
    {
      if p(comps[i]) {
        return Some(i);
      }
    }
    r := None;
  }

  /** The elected index is the least by rank, then by position. */
  ghost predicate IsElected(comps: seq<Component>, loaded: set<string>, appPaths: seq<string>, norm: string -> string, i: nat) {
    && i < |comps|
    && (forall j :: 0 <= j < |comps| ==> Rank(comps[i], loaded, appPaths, norm) <= Rank(comps[j], loaded, appPaths, norm))
    && (forall j :: 0 <= j < i ==> Rank(comps[i], loaded, appPaths, norm) < Rank(comps[j], loaded, appPaths, norm))
  }

  /** newStoreRegistry: six passes over the components. */
  method Elect(comps: seq<Component>, loaded: set<string>, appPaths: seq<string>, norm: string -> string) returns (active: Option<nat>)
    ensures active.None? <==> comps == []
    ensures active.Some? ==> IsElected(comps, loaded, appPaths, norm, active.value)
  {
    if comps == [] {
      return None;
    }
    active := FirstWhere(comps, (c: Component) => IsAppProvided(c, loaded, appPaths, norm) && IsActor(c));
    if active.Some? { return; }
    active := FirstWhere(comps, (c: Component) => IsAppProvided(c, loaded, appPaths, norm));
    if active.Some? { return; }
    active := FirstWhere(comps, (c: Component) => c.name in loaded && IsActor(c));
    if active.Some? { return; }
    active := FirstWhere(comps, (c: Component) => c.name in loaded);
    if active.Some? { return; }
    active := FirstWhere(comps, IsActor);
    if active.Some? { return; }
    active := Some(0);
  }

  lemma ElectedUnique(comps: seq<Component>, loaded: set<string>, appPaths: seq<string>, norm: string -> string, i: nat, j: nat)
    requires IsElected(comps, loaded, appPaths, norm, i) && IsElected(comps, loaded, appPaths, norm, j)
    ensures i == j
  {
    var a, b := Rank(comps[i], loaded, appPaths, norm), Rank(comps[j], loaded, appPaths, norm);
    assert a <= b <= a;
  }

  /** The documented precedence, class by class: the elected store is in the first class that has a
      member: provided by a running app and marked as actor state store, provided, loaded and marked,
      loaded, marked, any. */
  lemma ElectedPrecedence(comps: seq<Component>, loaded: set<string>, appPaths: seq<string>, norm: string -> string, i: nat)
    requires IsElected(comps, loaded, appPaths, norm, i)
    ensures var w := comps[i];
            var marked := (c: Component) => "actorStateStore" in c.metadata && c.metadata["actorStateStore"] == "true";
            var provided := (c: Component) => c.name in loaded && PathUnder(c.path, appPaths, norm);
            if exists c <- comps :: provided(c) && marked(c) then provided(w) && marked(w)
            else if exists c <- comps :: provided(c) then provided(w)
            else if exists c <- comps :: c.name in loaded && marked(c) then w.name in loaded && marked(w)
            else if exists c <- comps :: c.name in loaded then w.name in loaded
            else (exists c <- comps :: marked(c)) ==> marked(w)
  {
    var r := Rank(comps[i], loaded, appPaths, norm);
    forall c <- comps ensures r <= Rank(c, loaded, appPaths, norm) {
      var j :| 0 <= j < |comps| && comps[j] == c;
    }
  }

  /** Within its class the elected store is the first. */
  lemma ElectedIsFirst(comps: seq<Component>, loaded: set<string>, appPaths: seq<string>, norm: string -> string, i: nat, j: nat)
    requires IsElected(comps, loaded, appPaths, norm, i) && j < |comps|
    requires IsAppProvided(comps[j], loaded, appPaths, norm) == IsAppProvided(comps[i], loaded, appPaths, norm)
    requires (comps[j].name in loaded <==> comps[i].name in loaded) && IsActor(comps[j]) == IsActor(comps[i])
    ensures i <= j
  {
    assert Rank(comps[i], loaded, appPaths, norm) == Rank(comps[j], loaded, appPaths, norm);
  }

  /** The election as one expression, for the models built on it. */
  function Winner(comps: seq<Component>, loaded: set<string>, appPaths: seq<string>, norm: string -> string): (r: Option<Component>)
    ensures r.None? <==> comps == []
    ensures r.Some? ==> exists i: nat :: IsElected(comps, loaded, appPaths, norm, i) && comps[i] == r.value
  {
    if comps == [] then None
    else
      var rest := Winner(comps[1..], loaded, appPaths, norm);
      WinnerOfCons(comps, loaded, appPaths, norm);
      if rest.None? || Rank(comps[0], loaded, appPaths, norm) <= Rank(rest.value, loaded, appPaths, norm) then Some(comps[0])
      else rest
  }

  lemma WinnerOfCons(comps: seq<Component>, loaded: set<string>, appPaths: seq<string>, norm: string -> string)
    requires comps != []
    ensures (forall j :: 1 <= j < |comps| ==> Rank(comps[0], loaded, appPaths, norm) <= Rank(comps[j], loaded, appPaths, norm)) ==>
              IsElected(comps, loaded, appPaths, norm, 0)
    ensures forall i: nat :: IsElected(comps[1..], loaded, appPaths, norm, i) ==>
              if Rank(comps[0], loaded, appPaths, norm) <= Rank(comps[1..][i], loaded, appPaths, norm)
              then IsElected(comps, loaded, appPaths, norm, 0)
              else IsElected(comps, loaded, appPaths, norm, i + 1) && comps[i + 1] == comps[1..][i]
  {
    forall i: nat | IsElected(comps[1..], loaded, appPaths, norm, i)
      ensures if Rank(comps[0], loaded, appPaths, norm) <= Rank(comps[1..][i], loaded, appPaths, norm)
              then IsElected(comps, loaded, appPaths, norm, 0)
              else IsElected(comps, loaded, appPaths, norm, i + 1) && comps[i + 1] == comps[1..][i]
    {
      forall j | 1 <= j < |comps| ensures Rank(comps[1..][i], loaded, appPaths, norm) <= Rank(comps[j], loaded, appPaths, norm) {
        assert comps[j] == comps[1..][j - 1];
      }
      forall j | 1 <= j < i + 1 ensures Rank(comps[1..][i], loaded, appPaths, norm) < Rank(comps[j], loaded, appPaths, norm) {
        assert comps[j] == comps[1..][j - 1];
      }
    }
  }

  /** Whatever the six passes elect is the winner. */
  lemma ElectedIsWinner(comps: seq<Component>, loaded: set<string>, appPaths: seq<string>, norm: string -> string, i: nat)
    requires IsElected(comps, loaded, appPaths, norm, i)
    ensures Winner(comps, loaded, appPaths, norm) == Some(comps[i])
  {
    var j: nat :| IsElected(comps, loaded, appPaths, norm, j) && comps[j] == Winner(comps, loaded, appPaths, norm).value;
    ElectedUnique(comps, loaded, appPaths, norm, i, j);
  }

  /** Only membership counts: the election does not depend on the order or number of the paths. */
  lemma ElectionNeedsOnlySets(comps: seq<Component>, loaded: set<string>, paths: seq<string>, paths': seq<string>, norm: string -> string, i: nat)
    requires forall p :: p in paths <==> p in paths'
    requires IsElected(comps, loaded, paths, norm, i)
    ensures IsElected(comps, loaded, paths', norm, i)
  {
    forall c ensures Rank(c, loaded, paths, norm) == Rank(c, loaded, paths', norm) {
      assert PathUnder(c.path, paths, norm) <==> PathUnder(c.path, paths', norm);
    }
  }
}
