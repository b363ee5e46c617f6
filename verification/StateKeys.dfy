/** Composing and classifying state keys (pkg/state/classify.go). */
module StateKeys {
  import opened Text

  datatype Kind = App | Workflow | Actor

  datatype KeyParts = KeyParts(appID: string, logicalKey: string, kind: Kind)

  const InternalActorPrefix := "dapr.internal."

  function ComposeKey(appID: string, key: string): string { appID + KeyDelimiter + key }

  function Classify(key: string): KeyParts {
    var segs := Split(key);
    if |segs| < 2 then KeyParts("", key, App)
    else if |segs| == 2 then KeyParts(segs[0], segs[1], App)
    else KeyParts(segs[0], Join(segs[1..]), if HasPrefix(segs[1], InternalActorPrefix) then Workflow else Actor)
  }

  /** Classifying a composed key gives the two parts back, as an app record, exactly when neither
      part holds a delimiter and the app id does not run into the one put between them. */
  lemma ClassifyComposedIff(a: string, k: string)
    ensures Classify(ComposeKey(a, k)) == KeyParts(a, k, App) <==> NoDelim(a) && !EndsInBar(a) && NoDelim(k)
  {
    var key := ComposeKey(a, k);
    if NoDelim(a) && !EndsInBar(a) && NoDelim(k) {
      SplitHead(a, k);
      SplitTail(k);
    } else {
      SplitSegments(key);
      assert DelimAt(key, |a|);
    }
  }

  /** Recomposing a classified key gives the key back exactly when it has a delimiter at all. */
  lemma ComposeClassifiedIff(key: string)
    ensures ComposeKey(Classify(key).appID, Classify(key).logicalKey) == key <==> !NoDelim(key)
  {
    JoinSplit(key);
    SplitSegments(key);
    var segs := Split(key);
    if |segs| == 1 {
      assert |ComposeKey("", key)| == |key| + 2;
    }
  }

  /** Of a key split at its delimiters: the first segment is the app id and the rest the logical key, if
      there are two or more; more than two make it internal, a workflow's when the second starts with
      "dapr.internal.". */
  lemma ClassifyIs(key: string, segs: seq<string>)
    requires segs == Split(key)
    ensures |segs| == 1 ==> Classify(key) == KeyParts("", key, App)
    ensures |segs| == 2 ==> Classify(key) == KeyParts(segs[0], segs[1], App)
    ensures |segs| > 2 ==> Classify(key).appID == segs[0] && key == segs[0] + KeyDelimiter + Classify(key).logicalKey
    ensures |segs| > 2 ==> Classify(key).kind == if "dapr.internal." <= segs[1] then Workflow else Actor
  {
    JoinSplit(key);
    if |segs| == 1 {
      assert segs == [segs[0]];
    }
  }

  /** What the create route checks of its input (pkg/server/state.go). */
  ghost predicate ApiAccepts(a: string, k: string) { a != "" && k != "" && NoDelim(a) && NoDelim(k) }

  /** The route's check does not always keep a write out of the actor keys: it fails exactly when a
      bar at the app id's end meets one at the key's start. */
  lemma AcceptedWriteIsAppIff(a: string, k: string)
    requires ApiAccepts(a, k)
    ensures Classify(ComposeKey(a, k)).kind == App <==> !(EndsInBar(a) && k[0] == '|')
  {
    if !EndsInBar(a) {
      ClassifyComposedIff(a, k);
    } else {
      var b := a[..|a| - 1];
      assert forall i: nat :: DelimAt(b, i) ==> DelimAt(a, i);
      assert EndsInBar(b) ==> DelimAt(a, |a| - 2);
      assert ComposeKey(a, k) == b + KeyDelimiter + ("|" + k);
      SplitHead(b, "|" + k);
      if k[0] == '|' {
        assert "|" + k == "" + KeyDelimiter + k[1..];
        SplitHead("", k[1..]);
        assert forall i: nat :: DelimAt(k[1..], i) ==> DelimAt(k, i + 1);
        SplitTail(k[1..]);
      } else {
        assert forall i: nat :: DelimAt("|" + k, i) ==> i > 0 && DelimAt(k, i - 1);
        SplitTail("|" + k);
      }
    }
  }
}
