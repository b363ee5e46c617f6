/** SQL LIKE with backslash escapes, the patterns the dashboard builds for it (pkg/state/pattern.go,
    pkg/statestore/keys.go), and the deletion that relies on one (pkg/workflow/remove.go). */
module Like {
  import opened Options
  import opened Text
  import opened Keys

  /** p matches all of s.  A pattern that ends in a lone backslash matches nothing. */
  predicate Matches(p: string, s: string)
    decreases |p|, |s|
  {
    if p == "" then s == ""
    else if p[0] == '%' then Matches(p[1..], s) || (s != "" && Matches(p, s[1..]))
    else if p[0] == '_' then s != "" && Matches(p[1..], s[1..])
    else if p[0] == '\\' then |p| > 1 && s != "" && s[0] == p[1] && Matches(p[2..], s[1..])
    else s != "" && s[0] == p[0] && Matches(p[1..], s[1..])
  }

  predicate Meta(c: char) { c == '\\' || c == '%' || c == '_' }

  predicate MetaFree(s: string) { forall i :: 0 <= i < |s| ==> !Meta(s[i]) }

  function EscapeChar(c: char): string { if Meta(c) then "\\" + [c] else [c] }

  function Escaped(s: string): string {
    if s == "" then "" else EscapeChar(s[0]) + Escaped(s[1..])
  }

  lemma {:induction false} EscapedSnoc(s: string, c: char)
    ensures Escaped(s + [c]) == Escaped(s) + EscapeChar(c)
  {
    if s != "" {
      EscapedSnoc(s[1..], c);
      assert (s + [c])[1..] == s[1..] + [c];
      assert Escaped(s + [c]) == EscapeChar(s[0]) + (Escaped(s[1..]) + EscapeChar(c));
    }
  }

  /** escapeLike: the builder loop. */
  method EscapeLike(s: string) returns (b: string)
    ensures b == Escaped(s)
  {
    b := "";
    for i := 0 to |s|
      invariant b == Escaped(s[..i])
    {
      EscapedSnoc(s[..i], s[i]);
      assert s[..i + 1] == s[..i] + [s[i]];
      if s[i] == '\\' || s[i] == '%' || s[i] == '_' {
        b := b + "\\";
      }
      b := b + [s[i]];
    }
    assert s[..|s|] == s;
  }

  lemma EscapedCharIsLiteral(c: char, q: string, s: string)
    ensures Matches(EscapeChar(c) + q, s) <==> s != "" && s[0] == c && Matches(q, s[1..])
  {
    assert (EscapeChar(c) + q)[|EscapeChar(c)|..] == q;
  }

  /** An escaped fragment in front of a pattern matches exactly itself. */
  lemma {:induction false} EscapedIsLiteral(a: string, q: string, s: string)
    ensures Matches(Escaped(a) + q, s) <==> a <= s && Matches(q, s[|a|..])
    decreases |a|
  {
    if a == "" {
      assert Escaped(a) + q == q && s[|a|..] == s;
    } else {
      var rest := Escaped(a[1..]) + q;
      assert Escaped(a) + q == EscapeChar(a[0]) + rest;
      EscapedCharIsLiteral(a[0], rest, s);
      if s != "" && s[0] == a[0] {
        EscapedIsLiteral(a[1..], q, s[1..]);
        assert a == [a[0]] + a[1..] && s == [s[0]] + s[1..];
        if a <= s {
          assert s[1..][|a[1..]|..] == s[|a|..];
        }
      }
    }
  }

  /** '%' in front of a pattern skips any number of characters. */
  lemma {:induction false} PercentSkips(q: string, s: string)
    ensures Matches("%" + q, s) <==> exists k :: 0 <= k <= |s| && Matches(q, s[k..])
    decreases |s|
  {
    assert ("%" + q)[1..] == q && s[0..] == s;
    if s != "" {
      PercentSkips(q, s[1..]);
      forall k | 0 <= k < |s| ensures s[1..][k..] == s[k + 1..] {
      }
      if k :| 0 < k <= |s| && Matches(q, s[k..]) {
        assert s[1..][k - 1..] == s[k..];
      }
    }
  }

  lemma {:induction false} PercentMatchesAll(s: string)
    ensures Matches("%", s)
    decreases |s|
  {
    if s != "" {
      PercentMatchesAll(s[1..]);
    }
  }

  /** listPattern */
  method BuildListPattern(appID: string, search: string) returns (p: string)
    ensures p == ListPattern(appID, search)
  {
    var prefix := "%";
    if appID != "" {
      var e := EscapeLike(appID);
      prefix := e + KeyDelimiter + "%";
    }
    if search == "" {
      return prefix;
    }
    var e := EscapeLike(search);
    p := prefix + e + "%";
  }

  function ListPattern(appID: string, search: string): string {
    var prefix := if appID == "" then "%" else Escaped(appID) + KeyDelimiter + "%";
    if search == "" then prefix else prefix + Escaped(search) + "%"
  }

  /** What the two filters mean to a user: an exact key prefix, and a literal substring of the rest. */
  ghost predicate Selected(appID: string, search: string, key: string) {
    if appID == "" then Contains(key, search)
    else HasPrefix(key, appID + KeyDelimiter) && Contains(key[|appID| + 2..], search)
  }

  function SearchPattern(search: string): string {
    if search == "" then "%" else "%" + (Escaped(search) + "%")
  }

  lemma ListPatternParts(appID: string, search: string)
    ensures ListPattern(appID, search) ==
            if appID == "" then SearchPattern(search) else Escaped(appID) + (KeyDelimiter + SearchPattern(search))
  {
    if appID != "" {
      assert Escaped(appID) + KeyDelimiter + "%" == Escaped(appID) + (KeyDelimiter + "%");
    }
  }

  lemma SearchTail(search: string, s: string)
    ensures Matches(SearchPattern(search), s) <==> Contains(s, search)
  {
    if search == "" {
      PercentMatchesAll(s);
      assert 0 <= |s| && search <= s[|s|..];
    } else {
      PercentSkips(Escaped(search) + "%", s);
      forall k | 0 <= k <= |s| ensures Matches(Escaped(search) + "%", s[k..]) <==> search <= s[k..] {
        EscapedIsLiteral(search, "%", s[k..]);
        if search <= s[k..] {
          PercentMatchesAll(s[k..][|search|..]);
        }
      }
    }
  }

  lemma PrefixThenTail(appID: string, tail: string, key: string)
    ensures Matches(Escaped(appID) + (KeyDelimiter + tail), key) <==>
            HasPrefix(key, appID + KeyDelimiter) && Matches(tail, key[|appID| + 2..])
  {
    EscapedIsLiteral(appID, KeyDelimiter + tail, key);
    if appID <= key {
      var rest := key[|appID|..];
      EscapedCharIsLiteral('|', "|" + tail, rest);
      assert KeyDelimiter + tail == "|" + ("|" + tail);
      if rest != "" {
        EscapedCharIsLiteral('|', tail, rest[1..]);
      }
      if |rest| >= 2 {
        assert rest[1..][1..] == key[|appID| + 2..];
      }
    }
  }

  /** For all filters and keys, whatever %, _ and backslashes they hold, the pattern finds exactly
      the keys the user asked for. */
  lemma ListPatternIsLiteral(appID: string, search: string, key: string)
    ensures Matches(ListPattern(appID, search), key) <==> Selected(appID, search, key)
  {
    ListPatternParts(appID, search);
    if appID == "" {
      SearchTail(search, key);
    } else {
      PrefixThenTail(appID, SearchPattern(search), key);
      if HasPrefix(key, appID + KeyDelimiter) {
        SearchTail(search, key[|appID| + 2..]);
      }
    }
  }

  // ---------- Prefix patterns that are not escaped ----------

  function InstanceKeyPattern(ns: string, appID: string, id: string): string {
    InstancePrefix(ns, appID, id) + "%"
  }

  lemma {:induction false} MetaFreeIsEscaped(s: string)
    requires MetaFree(s)
    ensures Escaped(s) == s
  {
    if s != "" {
      MetaFreeIsEscaped(s[1..]);
    }
  }

  /** A string a pattern ending in '%' matches: every wildcard replaced by as little as it allows. */
  function Sample(q: string): (s: string)
    requires q != "" ==> q[|q| - 1] == '%'
    ensures Matches(q, s) && |s| <= |q| && (q != "" ==> |s| < |q|)
    decreases |q|
  {
    if q == "" then ""
    else if q[0] == '%' then Sample(q[1..])
    else if q[0] == '_' then assert ("x" + Sample(q[1..]))[1..] == Sample(q[1..]); "x" + Sample(q[1..])
    else if q[0] == '\\' then assert ([q[1]] + Sample(q[2..]))[1..] == Sample(q[2..]); [q[1]] + Sample(q[2..])
    else assert ([q[0]] + Sample(q[1..]))[1..] == Sample(q[1..]); [q[0]] + Sample(q[1..])
  }

  /** If the prefix holds a metacharacter, the pattern also matches a key outside the prefix. */
  lemma MetaPrefixOvermatches(prefix: string, i: nat) returns (key: string)
    requires i < |prefix| && Meta(prefix[i]) && MetaFree(prefix[..i])
    ensures Matches(prefix + "%", key) && !HasPrefix(key, prefix)
  {
    var a, q := prefix[..i], prefix[i..] + "%";
    MetaFreeIsEscaped(a);
    assert prefix + "%" == a + q;
    var tail: string;
    if prefix[i] == '\\' {
      tail := [q[1]] + Sample(q[2..]);
      assert tail[1..] == Sample(q[2..]);
    } else {
      tail := "x" + Sample(q[1..]);
      assert tail[1..] == Sample(q[1..]);
      if prefix[i] == '%' {
        PercentAbsorbs(q, tail);
      }
    }
    assert Matches(q, tail);
    key := a + tail;
    assert key[|a|..] == tail;
    EscapedIsLiteral(a, q, key);
    assert |key| < |prefix| || key[i] != prefix[i];
  }

  lemma PercentAbsorbs(q: string, s: string)
    requires q != "" && q[0] == '%' && s != "" && Matches(q[1..], s[1..])
    ensures Matches(q, s)
  {
    assert Matches(q, s[1..]);
  }

  /** The unescaped prefix pattern is exact precisely for prefixes without metacharacters. */
  lemma PrefixPatternExactIff(prefix: string)
    ensures (forall key :: Matches(prefix + "%", key) <==> HasPrefix(key, prefix)) <==> MetaFree(prefix)
  {
    if MetaFree(prefix) {
      MetaFreeIsEscaped(prefix);
      forall key ensures Matches(prefix + "%", key) <==> HasPrefix(key, prefix) {
        EscapedIsLiteral(prefix, "%", key);
        if HasPrefix(key, prefix) {
          PercentMatchesAll(key[|prefix|..]);
        }
      }
    } else {
      var i := FirstMeta(prefix);
      var key := MetaPrefixOvermatches(prefix, i);
    }
  }

  lemma FirstMeta(s: string) returns (i: nat)
    requires !MetaFree(s)
    ensures i < |s| && Meta(s[i]) && MetaFree(s[..i])
  {
    i := 0;
    while !Meta(s[i])
      invariant i < |s| && MetaFree(s[..i]) && exists j :: i <= j < |s| && Meta(s[j])
      decreases |s| - i
    {
      assert s[..i + 1] == s[..i] + [s[i]];
      i := i + 1;
    }
  }

  /** s is p with any character in place of each underscore; p has no escapes. */
  predicate Fits(p: string, s: string) {
    |p| == |s| && forall i :: 0 <= i < |p| ==> p[i] != '\\' && (p[i] == s[i] || p[i] == '_')
  }

  lemma {:induction false} FittingMatches(p: string, s: string, q: string, t: string)
    requires Fits(p, s) && Matches(q, t)
    ensures Matches(p + q, s + t)
  {
    if p == "" {
      assert p + q == q && s + t == t;
    } else {
      FittingMatches(p[1..], s[1..], q, t);
      assert (p + q)[1..] == p[1..] + q && (s + t)[1..] == s[1..] + t;
      if p[0] == '%' {
        assert Matches((p + q)[1..], (s + t)[1..]);
        PercentAbsorbs(p + q, s + t);
      }
    }
  }

  // ---------- What an unescaped backslash does to a prefix ----------

  /** A tail of the pattern that lags behind the text by x, a stretch of backslashes and underscores,
      never catches up. */
  lemma {:induction false} LaggingNeverMatches(q: string, x: string, rest: string)
    requires x != "" && forall i :: 0 <= i < |x| ==> x[i] == '\\' || x[i] == '_'
    requires q != "" && q[|q| - 1] == '|' && '%' !in q
    ensures !Matches(q + "%", x + q + rest)
    decreases |q|
  {
    var p, s := q + "%", x + q + rest;
    assert q[0] in q && s[0] == x[0] && p[0] == q[0];
    if q[0] == '_' {
      assert p[1..] == q[1..] + "%" && s[1..] == (x[1..] + [q[0]]) + q[1..] + rest;
      LaggingNeverMatches(q[1..], x[1..] + [q[0]], rest);
    } else if q[0] == '\\' {
      assert |q| > 1 && p[1] == q[1];
      if q[1] == x[0] {
        assert p[2..] == q[2..] + "%" && s[1..] == (x[1..] + q[..2]) + q[2..] + rest;
        LaggingNeverMatches(q[2..], x[1..] + q[..2], rest);
      }
    }
  }

  /** Unescaped, a prefix with a backslash (and no percent, ending in a bar) matches nothing that
      starts with it. */
  lemma {:induction false} EscapeMissesPrefix(prefix: string, rest: string)
    requires prefix != "" && prefix[|prefix| - 1] == '|' && '%' !in prefix && '\\' in prefix
    ensures !Matches(prefix + "%", prefix + rest)
    decreases |prefix|
  {
    var p, s := prefix + "%", prefix + rest;
    assert prefix[0] in prefix;
    if prefix[0] == '\\' {
      assert p[1] == prefix[1] && s[0] == '\\';
      if prefix[1] == '\\' {
        assert p[2..] == prefix[2..] + "%" && s[1..] == [prefix[1]] + prefix[2..] + rest;
        LaggingNeverMatches(prefix[2..], [prefix[1]], rest);
      }
    } else {
      assert p[1..] == prefix[1..] + "%" && s[1..] == prefix[1..] + rest;
      EscapeMissesPrefix(prefix[1..], rest);
    }
  }

  // ---------- Metadata patterns, not escaped either ----------

  function InstanceMetaPattern(ns: string, appID: string): string {
    appID + KeyDelimiter + WorkflowActorType(ns, appID) + KeyDelimiter + "%" + KeyDelimiter + SuffixMetadata
  }

  /** Listing an app whose id holds an underscore also lists every instance of the apps whose id has
      any other character in its place. */
  lemma MetaPatternTakesSibling(ns: string, appID: string, i: nat, c: char, id: string)
    requires i < |appID| && appID[i] == '_' && '\\' !in appID && '\\' !in ns
    ensures Matches(InstanceMetaPattern(ns, appID), InstancePrefix(ns, appID[i := c], id) + SuffixMetadata)
  {
    var sibling := appID[i := c];
    var tail := KeyDelimiter + SuffixMetadata;
    FitsInPlace(ns, appID, sibling);
    MatchesAround(Lead(ns, appID), Lead(ns, sibling), tail, id);
    MetaParts(ns, appID, sibling, id);
  }

  function Lead(ns: string, appID: string): string { appID + KeyDelimiter + WorkflowActorType(ns, appID) + KeyDelimiter }

  /** The text and the string differ somewhere. */
  predicate Apart(k: string, p: string) { exists j :: 0 <= j < |k| && j < |p| && k[j] != p[j] }

  lemma ApartAt(k: string, p: string, j: nat)
    requires j < |k| && j < |p| && k[j] != p[j]
    ensures Apart(k, p)
  {
  }

  lemma ApartAfter(a: string, k: string, p: string)
    requires Apart(k, p)
    ensures Apart(a + k, a + p)
  {
    var j :| 0 <= j < |k| && j < |p| && k[j] != p[j];
    ApartAt(a + k, a + p, |a| + j);
  }

  /** A pattern one or more backslashes behind the text it is compared with matches a text that
      differs from it. */
  lemma {:induction false} LaggingDiverges(p: string, x: string) returns (k: string)
    requires p != "" && p[|p| - 1] == '|' && x != "" && forall i :: 0 <= i < |x| ==> x[i] == '\\'
    ensures Matches(p + "%", k) && Apart(k, x + p)
    decreases |p|
  {
    var q := p + "%";
    if p[0] == '\\' && p[1] == '\\' {
      assert q[2..] == p[2..] + "%";
      var rest := LaggingDiverges(p[2..], x[1..] + p[..2]);
      k := "\\" + rest;
      assert k[1..] == rest;
      ApartAfter("\\", rest, x[1..] + p[..2] + p[2..]);
      assert "\\" + (x[1..] + p[..2] + p[2..]) == x + p;
    } else {
      k := FirstOther(p);
      ApartAt(k, x + p, 0);
    }
  }

  /** A text whose first character is no backslash. */
  lemma FirstOther(p: string) returns (k: string)
    requires p != "" && p[|p| - 1] == '|' && (p[0] == '\\' ==> p[1] != '\\')
    ensures Matches(p + "%", k) && k != "" && k[0] != '\\'
    ensures Meta(p[0]) ==> k[0] != p[0]
  {
    var q := p + "%";
    if p[0] == '\\' {
      k := [p[1]] + Sample(q[2..]);
      assert k[1..] == Sample(q[2..]);
    } else {
      k := (if Meta(p[0]) then "x" else [p[0]]) + Sample(q[1..]);
      assert k[1..] == Sample(q[1..]);
      if p[0] == '%' {
        PercentAbsorbs(q, k);
      }
    }
  }

  /** A pattern whose part in front of a percent holds a metacharacter matches a text that differs
      from that part. */
  lemma {:induction false} MetaPrefixDiverges(p: string) returns (k: string)
    requires !MetaFree(p) && p[|p| - 1] == '|'
    ensures Matches(p + "%", k) && Apart(k, p)
    decreases |p|
  {
    var q := p + "%";
    if !Meta(p[0]) {
      var rest := MetaPrefixDiverges(p[1..]);
      k := [p[0]] + rest;
      assert q[1..] == p[1..] + "%" && k[1..] == rest;
      ApartAfter([p[0]], rest, p[1..]);
      assert [p[0]] + p[1..] == p;
    } else if p[0] == '\\' && p[1] == '\\' {
      var rest := LaggingDiverges(p[2..], "\\");
      k := "\\" + rest;
      assert q[2..] == p[2..] + "%" && k[1..] == rest;
      ApartAfter("\\", rest, "\\" + p[2..]);
      assert "\\" + ("\\" + p[2..]) == p;
    } else {
      k := FirstOther(p);
      ApartAt(k, p, 0);
    }
  }

  lemma {:induction false} MatchesAppend(p: string, s: string, q: string, t: string)
    requires Matches(p, s) && Matches(q, t)
    ensures Matches(p + q, s + t)
    decreases |p|, |s|
  {
    if p == "" {
      assert p + q == q && s + t == t;
    } else if p[0] == '%' {
      assert (p + q)[1..] == p[1..] + q;
      if Matches(p[1..], s) {
        MatchesAppend(p[1..], s, q, t);
      } else {
        MatchesAppend(p, s[1..], q, t);
        assert (s + t)[1..] == s[1..] + t;
      }
    } else {
      var used := if p[0] == '\\' then 2 else 1;
      MatchesAppend(p[used..], s[1..], q, t);
      assert (p + q)[used..] == p[used..] + q && (s + t)[1..] == s[1..] + t;
    }
  }

  /** What listing the instances of one app should find. */
  ghost predicate MetaKeyOf(ns: string, appID: string, key: string) {
    exists id :: key == InstancePrefix(ns, appID, id) + SuffixMetadata
  }

  lemma MetaKeyParts(ns: string, appID: string, key: string)
    ensures MetaKeyOf(ns, appID, key) <==>
            exists id: string :: key == Lead(ns, appID) + (id + (KeyDelimiter + SuffixMetadata))
  {
    forall id: string
      ensures InstancePrefix(ns, appID, id) + SuffixMetadata == Lead(ns, appID) + (id + (KeyDelimiter + SuffixMetadata))
    {
      MetaParts(ns, appID, appID, id);
    }
    if id: string :| key == Lead(ns, appID) + (id + (KeyDelimiter + SuffixMetadata)) {
      assert key == InstancePrefix(ns, appID, id) + SuffixMetadata;
    }
  }

  lemma TailSkips(tail: string, s: string)
    requires MetaFree(tail)
    ensures Matches("%" + tail, s) <==> exists id: string :: s == id + tail
  {
    MetaFreeIsEscaped(tail);
    PercentSkips(tail, s);
    forall k | 0 <= k <= |s| ensures Matches(tail, s[k..]) <==> s[k..] == tail {
      EscapedIsLiteral(tail, "", s[k..]);
      assert tail + "" == tail;
    }
    if k :| 0 <= k <= |s| && Matches(tail, s[k..]) {
      assert s == s[..k] + tail;
    }
    if id: string :| s == id + tail {
      assert s[|id|..] == tail;
    }
  }

  /** Listing an app's instances finds exactly them, whatever is stored, if and only if neither its id
      nor its namespace holds a metacharacter. */
  lemma MetaPatternExactIff(ns: string, appID: string)
    ensures (forall key :: Matches(InstanceMetaPattern(ns, appID), key) <==> MetaKeyOf(ns, appID, key)) <==>
            MetaFree(Lead(ns, appID))
    ensures MetaFree(Lead(ns, appID)) <==> MetaFree(appID) && MetaFree(ns)
  {
    var lead, tail := Lead(ns, appID), KeyDelimiter + SuffixMetadata;
    assert MetaFree(tail);
    LeadMetaFree(ns, appID);
    MetaParts(ns, appID, appID, "");
    assert InstanceMetaPattern(ns, appID) == lead + ("%" + tail);
    if MetaFree(lead) {
      forall key ensures Matches(InstanceMetaPattern(ns, appID), key) <==> MetaKeyOf(ns, appID, key) {
        LeadIsLiteral(lead, tail, key);
        MetaKeyParts(ns, appID, key);
      }
    } else {
      var key := MetaPatternOvermatches(lead, tail);
      MetaKeyParts(ns, appID, key);
      assert Matches(InstanceMetaPattern(ns, appID), key) && !MetaKeyOf(ns, appID, key);
    }
  }

  lemma MetaPatternOvermatches(lead: string, tail: string) returns (key: string)
    requires !MetaFree(lead) && EndsInBar(lead) && MetaFree(tail)
    ensures Matches(lead + ("%" + tail), key) && forall id: string :: key != lead + (id + tail)
  {
    var k := MetaPrefixDiverges(lead);
    MatchesItself(tail);
    MatchesAppend(lead + "%", k, tail, tail);
    Assoc(lead, "%", tail);
    key := k + tail;
    StaysApart(k, tail, lead);
  }

  lemma MatchesItself(s: string)
    requires MetaFree(s)
    ensures Matches(s, s)
  {
    MetaFreeIsEscaped(s);
    EscapedIsLiteral(s, "", s);
    assert s + "" == s && s[|s|..] == "";
  }

  lemma StaysApart(k: string, tail: string, lead: string)
    requires Apart(k, lead)
    ensures forall rest: string :: k + tail != lead + rest
  {
    var j :| 0 <= j < |k| && j < |lead| && k[j] != lead[j];
    forall rest: string ensures k + tail != lead + rest {
      assert (k + tail)[j] == k[j] && (lead + rest)[j] == lead[j];
    }
  }

  lemma LeadIsLiteral(lead: string, tail: string, key: string)
    requires MetaFree(lead) && MetaFree(tail)
    ensures Matches(lead + ("%" + tail), key) <==> exists id: string :: key == lead + (id + tail)
  {
    MetaFreeIsEscaped(lead);
    EscapedIsLiteral(lead, "%" + tail, key);
    if lead <= key {
      TailSkips(tail, key[|lead|..]);
      if id: string :| key[|lead|..] == id + tail {
        assert key == lead + (id + tail);
      }
    }
    if id: string :| key == lead + (id + tail) {
      assert lead <= key && key[|lead|..] == id + tail;
    }
  }

  lemma LeadMetaFree(ns: string, appID: string)
    ensures MetaFree(Lead(ns, appID)) <==> MetaFree(appID) && MetaFree(ns)
    ensures EndsInBar(Lead(ns, appID))
  {
    var head, tail := KeyDelimiter + "dapr.internal.", ".workflow" + KeyDelimiter;
    assert MetaFree(head) && MetaFree(tail) && MetaFree(".");
    assert Lead(ns, appID) == appID + head + ns + "." + appID + tail;
    MetaFreeConcat(appID + head + ns + "." + appID, tail);
    MetaFreeConcat(appID + head + ns + ".", appID);
    MetaFreeConcat(appID + head + ns, ".");
    MetaFreeConcat(appID + head, ns);
    MetaFreeConcat(appID, head);
  }

  lemma MetaFreeConcat(a: string, b: string)
    ensures MetaFree(a + b) <==> MetaFree(a) && MetaFree(b)
  {
    var s := a + b;
    assert forall i :: 0 <= i < |a| ==> s[i] == a[i];
    assert forall i :: 0 <= i < |b| ==> s[|a| + i] == b[i];
  }

  lemma MetaParts(ns: string, appID: string, sibling: string, id: string)
    ensures InstanceMetaPattern(ns, appID) == Lead(ns, appID) + ("%" + (KeyDelimiter + SuffixMetadata))
    ensures InstancePrefix(ns, sibling, id) + SuffixMetadata == Lead(ns, sibling) + (id + (KeyDelimiter + SuffixMetadata))
  {
  }

  lemma MatchesAround(lead: string, lead': string, tail: string, middle: string)
    requires Fits(lead, lead') && MetaFree(tail)
    ensures Matches(lead + ("%" + tail), lead' + (middle + tail))
  {
    MetaFreeIsEscaped(tail);
    EscapedIsLiteral(tail, "", tail);
    assert tail + "" == tail && tail[|tail|..] == "";
    PercentSkips(tail, middle + tail);
    assert (middle + tail)[|middle|..] == tail;
    FittingMatches(lead, lead', "%" + tail, middle + tail);
  }

  lemma FitsInPlace(ns: string, appID: string, sibling: string)
    requires Fits(appID, sibling) && '\\' !in ns
    ensures Fits(Lead(ns, appID), Lead(ns, sibling))
  {
    var head, tail := KeyDelimiter + "dapr.internal." + ns + ".", ".workflow" + KeyDelimiter;
    FitsSelf(head);
    FitsSelf(tail);
    FitsConcat(appID, sibling, head, head);
    FitsConcat(appID + head, sibling + head, appID, sibling);
    FitsConcat(appID + head + appID, sibling + head + sibling, tail, tail);
    assert Lead(ns, appID) == appID + head + appID + tail && Lead(ns, sibling) == sibling + head + sibling + tail;
  }

  lemma FitsSelf(s: string)
    requires '\\' !in s
    ensures Fits(s, s)
  {
    assert forall i :: 0 <= i < |s| ==> s[i] in s;
  }

  lemma FitsConcat(p: string, s: string, q: string, t: string)
    requires Fits(p, s) && Fits(q, t)
    ensures Fits(p + q, s + t)
  {
  }
}
