/** Force removal of workflow instances by key deletion (pkg/workflow/remove.go). */
module ForceDelete {
  import opened Options
  import opened Text
  import opened Keys
  import opened Like

  /** A state store as the remover sees it; the backend refuses to delete the stuck keys. */
  class Store {
    var data: map<string, string>
    const stuck: set<string>

    constructor (data: map<string, string>, stuck: set<string>)
      ensures this.data == data && this.stuck == stuck
    {
      this.data := data;
      this.stuck := stuck;
    }

    /** Keys with page size 0: every key matching the pattern, in no particular order. */
    method KeysLike(pattern: string) returns (keys: seq<string>)
      ensures forall k :: k in keys <==> k in data && Matches(pattern, k)
    {
      keys := [];
      var todo := data.Keys;
      while todo != {}
        invariant todo <= data.Keys
        invariant forall k :: k in keys <==> k in data && k !in todo && Matches(pattern, k)
        decreases |todo|
      {
        var k :| k in todo;
        todo := todo - {k};
        if Matches(pattern, k) {
          keys := keys + [k];
        }
      }
    }

    /** Deleting an absent key is no error. */
    method Delete(key: string) returns (ok: bool)
      modifies this`data
      ensures ok <==> key !in stuck
      ensures data == if ok then old(data) - {key} else old(data)
    {
      ok := key !in stuck;
      if ok {
        data := data - {key};
      }
    }
  }

  datatype Target = Target(appID: string, id: string, ns: string)

  /** The store's namespace stands in for a target that names none. */
  function TargetPattern(ns: string, t: Target): string {
    InstanceKeyPattern(if t.ns != "" then t.ns else ns, t.appID, t.id)
  }

  /** The keys a pattern leaves alone. */
  function Unmatched(data: map<string, string>, pattern: string): map<string, string> {
    map k | k in data && !Matches(pattern, k) :: data[k]
  }

  /** Succeeds exactly when no matching key is stuck, and then every matching key and nothing else
      is gone; a failure stops at the first stuck key and has touched matching keys only. */
  method ForceDelete(store: Store, ns: string, t: Target) returns (ok: bool)
    modifies store`data
    ensures ok <==> forall k :: k in old(store.data) && Matches(TargetPattern(ns, t), k) ==> k !in store.stuck
    ensures ok ==> store.data == Unmatched(old(store.data), TargetPattern(ns, t))
    ensures forall k :: k in store.data ==> k in old(store.data) && store.data[k] == old(store.data)[k]
    ensures forall k :: k in old(store.data) && (k in store.stuck || !Matches(TargetPattern(ns, t), k)) ==> k in store.data
    ensures var prefix := InstancePrefix(if t.ns == "" then ns else t.ns, t.appID, t.id);
            MetaFree(prefix) && ok ==> store.data == map k | k in old(store.data) && !HasPrefix(k, prefix) :: old(store.data)[k]
  {
    var pattern := TargetPattern(ns, t);
    var keys := store.KeysLike(pattern);
    for i := 0 to |keys|
      invariant store.data == map k | k in old(store.data) && k !in keys[..i] :: old(store.data)[k]
      invariant forall k :: k in keys[..i] ==> k !in store.stuck
    {
      ok := store.Delete(keys[i]);
      if !ok {
        return;
      }
      assert keys[..i + 1] == keys[..i] + [keys[i]];
    }
    assert keys[..|keys|] == keys;
    ok := true;
    ghost var prefix := InstancePrefix(if t.ns == "" then ns else t.ns, t.appID, t.id);
    if MetaFree(prefix) {
      PrefixPatternExactIff(prefix);
      assert pattern == prefix + "%";
    }
  }

  /** No key that pattern matches refuses deletion. */
  predicate Removable(data: map<string, string>, stuck: set<string>, pattern: string) {
    forall k <- data :: Matches(pattern, k) ==> k !in stuck
  }

  /** RemoveMany with force: one result per target, in order.  Each says whether the target could be
      removed at the start, whatever became of the targets before it; stuck keys and keys no target's
      pattern matches are untouched. */
  method RemoveMany(store: Store, ns: string, targets: seq<Target>) returns (results: seq<bool>)
    modifies store`data
    ensures |results| == |targets|
    ensures forall i :: 0 <= i < |targets| ==> results[i] == Removable(old(store.data), store.stuck, TargetPattern(ns, targets[i]))
    ensures forall i, k :: 0 <= i < |targets| && results[i] && k in store.data ==> !Matches(TargetPattern(ns, targets[i]), k)
    ensures forall k :: k in store.data ==> k in old(store.data) && store.data[k] == old(store.data)[k]
    ensures forall k :: k in old(store.data) && k in store.stuck ==> k in store.data
    ensures forall k :: k in old(store.data) && (forall i :: 0 <= i < |targets| ==> !Matches(TargetPattern(ns, targets[i]), k)) ==>
              k in store.data
  {
    results := [];
    for n := 0 to |targets|
      invariant |results| == n
      invariant forall i :: 0 <= i < n ==> results[i] == Removable(old(store.data), store.stuck, TargetPattern(ns, targets[i]))
      invariant forall k :: k in old(store.data) && k in store.stuck ==> k in store.data
      invariant forall i, k :: 0 <= i < n && results[i] && k in store.data ==> !Matches(TargetPattern(ns, targets[i]), k)
      invariant forall k :: k in store.data ==> k in old(store.data) && store.data[k] == old(store.data)[k]
      invariant forall k :: k in old(store.data) && (forall i :: 0 <= i < n ==> !Matches(TargetPattern(ns, targets[i]), k)) ==>
                  k in store.data
    {
      var ok := ForceDelete(store, ns, targets[n]);
      results := results + [ok];
    }
  }

  /** For ids without LIKE metacharacters, force removal takes exactly the instance's own keys,
      and no key of any other instance. */
  lemma RemovesExactlyTheInstance(data: map<string, string>, ns: string, appID: string, id: string)
    requires MetaFree(InstancePrefix(ns, appID, id))
    requires BarFree(ns) && BarFree(appID) && Segment(id)
    ensures var left := Unmatched(data, InstanceKeyPattern(ns, appID, id));
            && (forall k :: k in left <==> k in data && !HasPrefix(k, InstancePrefix(ns, appID, id)))
            && forall ns', app', id', k |
                 && BarFree(ns') && BarFree(app') && Segment(id') && (ns', app', id') != (ns, appID, id)
                 && HasPrefix(k, InstancePrefix(ns', app', id')) && k in data :: k in left
  {
    PrefixPatternExactIff(InstancePrefix(ns, appID, id));
    forall ns', app', id', k |
      BarFree(ns') && BarFree(app') && Segment(id') && (ns', app', id') != (ns, appID, id)
      && HasPrefix(k, InstancePrefix(ns', app', id')) && k in data
      ensures !HasPrefix(k, InstancePrefix(ns, appID, id))
    {
      if HasPrefix(k, InstancePrefix(ns, appID, id)) {
        PrefixIdentifiesInstance(ns, appID, id, ns', app', id', k);
      }
    }
  }

  /** On all stores, force removal is confined to the instance's keys exactly when its prefix holds
      no metacharacter: otherwise some store loses a key that lies outside the prefix. */
  lemma ConfinedIff(prefix: string)
    ensures (forall data: map<string, string>, k :: k in data && !HasPrefix(k, prefix) ==> k in Unmatched(data, prefix + "%"))
            <==> MetaFree(prefix)
  {
    PrefixPatternExactIff(prefix);
    if !MetaFree(prefix) {
      var i := FirstMeta(prefix);
      var key := MetaPrefixOvermatches(prefix, i);
      var data: map<string, string> := map[key := ""];
      assert key in data && key !in Unmatched(data, prefix + "%");
    }
  }

  /** Removing an instance whose id holds an underscore also removes every key of the siblings
      whose id has any other character in its place. */
  lemma UnderscoreTakesSibling(data: map<string, string>, ns: string, appID: string, id: string, i: nat, c: char, suffix: string)
    requires i < |id| && id[i] == '_' && '\\' !in InstancePrefix(ns, appID, id)
    requires InstancePrefix(ns, appID, id[i := c]) + suffix in data
    ensures InstancePrefix(ns, appID, id[i := c]) + suffix !in Unmatched(data, InstanceKeyPattern(ns, appID, id))
  {
    var p, s := InstancePrefix(ns, appID, id), InstancePrefix(ns, appID, id[i := c]);
    var lead := appID + KeyDelimiter + WorkflowActorType(ns, appID) + KeyDelimiter;
    assert p == lead + id + KeyDelimiter && s == lead + id[i := c] + KeyDelimiter;
    PercentMatchesAll(suffix);
    FittingMatches(p, s, "%", suffix);
  }
}
