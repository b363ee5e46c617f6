/** The string operations the models need: splitting at the key delimiter, substring search,
    byte order, and a stable sort. */
module Text {
  const KeyDelimiter: string := "||"

  predicate HasPrefix(s: string, p: string) { p <= s }

  predicate Contains(s: string, t: string) {
    exists i :: 0 <= i <= |s| && t <= s[i..]
  }

  lemma Assoc<T>(a: seq<T>, b: seq<T>, c: seq<T>)
    ensures (a + b) + c == a + (b + c)
  {
  }

  // ---------- strings.Split(s, "||") and strings.Join ----------

  predicate DelimAt(s: string, i: nat) { i + 1 < |s| && s[i] == '|' && s[i + 1] == '|' }

  ghost predicate NoDelim(s: string) { forall i: nat :: !DelimAt(s, i) }

  predicate EndsInBar(s: string) { s != "" && s[|s| - 1] == '|' }

  /** Index of the first delimiter at or after i; |s| when there is none. */
  function FirstDelim(s: string, i: nat): (r: nat)
    requires i <= |s|
    ensures i <= r <= |s|
    ensures r < |s| ==> DelimAt(s, r)
    ensures forall j: nat :: i <= j < r ==> !DelimAt(s, j)
    decreases |s| - i
  {
    if i == |s| || DelimAt(s, i) then i else FirstDelim(s, i + 1)
  }

  function Split(s: string): (r: seq<string>)
    ensures r != []
    decreases |s|
  {
    var i := FirstDelim(s, 0);
    if i < |s| then [s[..i]] + Split(s[i + 2..]) else [s]
  }

  function Join(parts: seq<string>): string {
    if parts == [] then "" else if |parts| == 1 then parts[0] else parts[0] + KeyDelimiter + Join(parts[1..])
  }

  lemma {:induction false} JoinSplit(s: string)
    ensures Join(Split(s)) == s
    decreases |s|
  {
    var i := FirstDelim(s, 0);
    if i < |s| {
      JoinSplit(s[i + 2..]);
      assert Split(s)[1..] == Split(s[i + 2..]);
      assert s == s[..i] + KeyDelimiter + s[i + 2..];
    }
  }

  /** The segments of a split hold no delimiter, and only the last one may end in a bar's worth of
      ambiguity: the cut is always at the leftmost delimiter. */
  lemma {:induction false} SplitSegments(s: string)
    ensures forall k :: 0 <= k < |Split(s)| ==> NoDelim(Split(s)[k])
    ensures forall k :: 0 <= k < |Split(s)| - 1 ==> !EndsInBar(Split(s)[k])
    ensures |Split(s)| == 1 <==> NoDelim(s)
    decreases |s|
  {
    var i := FirstDelim(s, 0);
    if i < |s| {
      SplitSegments(s[i + 2..]);
      forall j: nat ensures !DelimAt(s[..i], j) {
        assert DelimAt(s[..i], j) ==> DelimAt(s, j);
      }
      if EndsInBar(s[..i]) {
        assert DelimAt(s, i - 1);
      }
      assert Split(s) == [s[..i]] + Split(s[i + 2..]);
    }
  }

  /** A leading segment that neither holds a delimiter nor runs into one is split off whole. */
  lemma SplitHead(a: string, rest: string)
    requires NoDelim(a) && !EndsInBar(a)
    ensures Split(a + KeyDelimiter + rest) == [a] + Split(rest)
  {
    var s := a + KeyDelimiter + rest;
    forall j: nat | j < |a| ensures !DelimAt(s, j) {
      assert DelimAt(s, j) && j + 1 < |a| ==> DelimAt(a, j);
    }
    assert DelimAt(s, |a|);
    assert s[..|a|] == a && s[|a| + 2..] == rest;
  }

  lemma SplitTail(s: string)
    requires NoDelim(s)
    ensures Split(s) == [s]
  {
  }

  // ---------- Byte order ----------

  predicate Less(a: string, b: string)
    decreases |a|
  {
    b != "" && (a == "" || a[0] < b[0] || (a[0] == b[0] && Less(a[1..], b[1..])))
  }

  lemma {:induction false} LessTotal(a: string, b: string)
    ensures a == b || Less(a, b) || Less(b, a)
    decreases |a|
  {
    if a != "" && b != "" && a[0] == b[0] {
      LessTotal(a[1..], b[1..]);
      assert a == [a[0]] + a[1..] && b == [b[0]] + b[1..];
    }
  }

  lemma {:induction false} LessAsymmetric(a: string, b: string)
    requires Less(a, b)
    ensures !Less(b, a) && a != b
    decreases |a|
  {
    if a != "" && a[0] == b[0] {
      LessAsymmetric(a[1..], b[1..]);
    }
  }

  lemma {:induction false} LessTransitive(a: string, b: string, c: string)
    requires Less(a, b) && Less(b, c)
    ensures Less(a, c)
    decreases |a|
  {
    if a != "" && a[0] == b[0] == c[0] {
      LessTransitive(a[1..], b[1..], c[1..]);
    }
  }

  lemma {:induction false} LessUnderPrefix(p: string, a: string, b: string)
    ensures Less(p + a, p + b) <==> Less(a, b)
    decreases |p|
  {
    if p == "" {
      assert p + a == a && p + b == b;
    } else {
      LessUnderPrefix(p[1..], a, b);
      assert (p + a)[1..] == p[1..] + a && (p + b)[1..] == p[1..] + b;
    }
  }

  // ---------- sort.SliceStable ----------

  function Insert<T>(x: T, s: seq<T>, before: (T, T) -> bool): (r: seq<T>)
    ensures multiset(r) == multiset(s) + multiset{x}
  {
    if s != [] && before(s[0], x) then
      assert s == [s[0]] + s[1..];
      [s[0]] + Insert(x, s[1..], before)
    else [x] + s
  }

  function StableSort<T>(s: seq<T>, before: (T, T) -> bool): (r: seq<T>)
    ensures multiset(r) == multiset(s)
  {
    if s == [] then [] else
      assert s == [s[0]] + s[1..];
      Insert(s[0], StableSort(s[1..], before), before)
  }

  /** The orders Go's sort asks for: "not before" is transitive, and nothing is before itself. */
  ghost predicate StrictWeak<T(!new)>(before: (T, T) -> bool) {
    && (forall x :: !before(x, x))
    && (forall x, y, z :: before(x, y) && before(y, z) ==> before(x, z))
    && (forall x, y, z :: !before(x, y) && !before(y, z) ==> !before(x, z))
  }

  ghost predicate SortedBy<T(!new)>(s: seq<T>, before: (T, T) -> bool) {
    forall i, j :: 0 <= i < j < |s| ==> !before(s[j], s[i])
  }

  lemma {:induction false} InsertSorted<T(!new)>(x: T, s: seq<T>, before: (T, T) -> bool)
    requires StrictWeak(before) && SortedBy(s, before)
    ensures SortedBy(Insert(x, s, before), before)
  {
    var r := Insert(x, s, before);
    if s != [] && before(s[0], x) {
      InsertSorted(x, s[1..], before);
      forall j | 1 <= j < |r| ensures !before(r[j], r[0]) {
        assert r[j] in multiset(Insert(x, s[1..], before));
        assert r[j] == x || r[j] in s[1..];
      }
      assert r == [s[0]] + Insert(x, s[1..], before);
    } else if s != [] {
      forall j | 1 <= j < |r| ensures !before(r[j], r[0]) {
        assert r[j] == s[j - 1];
      }
    }
  }

  lemma {:induction false} SortSorted<T(!new)>(s: seq<T>, before: (T, T) -> bool)
    requires StrictWeak(before)
    ensures SortedBy(StableSort(s, before), before)
  {
    if s != [] {
      SortSorted(s[1..], before);
      InsertSorted(s[0], StableSort(s[1..], before), before);
    }
  }

  predicate KeyBefore(a: string, b: string) { Less(a, b) }

  lemma KeyOrderIsStrictWeak()
    ensures StrictWeak(KeyBefore)
  {
    forall x ensures !KeyBefore(x, x) {
      if Less(x, x) {
        LessAsymmetric(x, x);
      }
    }
    forall x, y, z | KeyBefore(x, y) && KeyBefore(y, z) ensures KeyBefore(x, z) {
      LessTransitive(x, y, z);
    }
    forall x, y, z | !KeyBefore(x, y) && !KeyBefore(y, z) ensures !KeyBefore(x, z) {
      LessTotal(x, y);
      LessTotal(y, z);
      if Less(x, z) {
        LessAsymmetric(x, z);
        if x != y && y != z {
          LessTransitive(z, y, x);
        }
      }
    }
  }

  ghost predicate Distinct(s: seq<string>) { forall i, j :: 0 <= i < j < |s| ==> s[i] != s[j] }

  lemma SameBagDistinct(a: seq<string>, b: seq<string>)
    requires multiset(a) == multiset(b) && Distinct(b)
    ensures Distinct(a)
  {
    forall i, j | 0 <= i < j < |a| ensures a[i] != a[j] {
      if a[i] == a[j] {
        assert a == a[..i] + [a[i]] + a[i + 1..j] + [a[j]] + a[j + 1..];
        assert multiset(a)[a[i]] >= 2;
        DistinctOnce(b, a[i]);
      }
    }
  }

  lemma {:induction false} DistinctOnce(s: seq<string>, k: string)
    requires Distinct(s)
    ensures multiset(s)[k] <= 1
  {
    if s != [] {
      assert s == [s[0]] + s[1..];
      DistinctOnce(s[1..], k);
    }
  }

  /** The sorted listing of a set of keys. */
  ghost predicate Listing(s: seq<string>, keys: set<string>) {
    && (forall k :: k in s <==> k in keys)
    && forall i, j :: 0 <= i < j < |s| ==> Less(s[i], s[j])
  }

  lemma SortLists(s: seq<string>, keys: set<string>)
    requires Distinct(s) && forall k :: k in s <==> k in keys
    ensures Listing(StableSort(s, KeyBefore), keys)
  {
    var r := StableSort(s, KeyBefore);
    KeyOrderIsStrictWeak();
    SortSorted(s, KeyBefore);
    SameBagDistinct(r, s);
    forall k ensures k in r <==> k in keys {
      assert k in r <==> k in multiset(r);
      assert k in s <==> k in multiset(s);
    }
    forall i, j | 0 <= i < j < |r| ensures Less(r[i], r[j]) {
      assert !KeyBefore(r[j], r[i]);
      LessTotal(r[i], r[j]);
    }
  }

  /** There is only one sorted listing. */
  lemma {:induction false} ListingUnique(a: seq<string>, b: seq<string>, keys: set<string>)
    requires Listing(a, keys) && Listing(b, keys)
    ensures a == b
    decreases |a|
  {
    HeadIn(a);
    HeadIn(b);
    if a != [] {
      if a[0] != b[0] {
        LessAsymmetric(a[0], b[0]);
      }
      TailLists(a, keys);
      TailLists(b, keys);
      ListingUnique(a[1..], b[1..], keys - {a[0]});
    }
  }

  lemma HeadIn(s: seq<string>)
    ensures s == [] || s[0] in s
  {
  }

  lemma TailLists(a: seq<string>, keys: set<string>)
    requires Listing(a, keys) && a != []
    ensures Listing(a[1..], keys - {a[0]})
  {
    forall i | 1 <= i < |a| ensures a[i] != a[0] {
      LessAsymmetric(a[0], a[i]);
    }
    assert a == [a[0]] + a[1..];
  }
}
