/** The workflow key layout (pkg/statestore/keys.go). */
module Keys {
  import opened Options
  import opened Text

  const SuffixMetadata := "metadata"
  const SuffixCustomStatus := "customStatus"
  const HistoryPrefix := "history-"

  function WorkflowActorType(ns: string, appID: string): string {
    "dapr.internal." + ns + "." + appID + ".workflow"
  }

  function InstancePrefix(ns: string, appID: string, id: string): string {
    appID + KeyDelimiter + WorkflowActorType(ns, appID) + KeyDelimiter + id + KeyDelimiter
  }

  function ParseInstanceID(key: string): Option<string> {
    var parts := Split(key);
    if |parts| < 3 || parts[2] == "" then None else Some(parts[2])
  }

  function ParseAppID(key: string): Option<string> {
    var parts := Split(key);
    if |parts| < 3 || parts[0] == "" then None else Some(parts[0])
  }

  /** No part of a key can be mistaken for a delimiter. */
  predicate BarFree(s: string) { '|' !in s }

  /** An id as a middle segment: it must not hold a delimiter nor run into the next one. */
  ghost predicate Segment(s: string) { NoDelim(s) && !EndsInBar(s) }

  lemma BarFreeSegment(s: string)
    requires BarFree(s)
    ensures Segment(s)
  {
  }

  lemma SplitInstanceKey(ns: string, appID: string, id: string, suffix: string)
    requires BarFree(ns) && BarFree(appID) && Segment(id)
    ensures Split(InstancePrefix(ns, appID, id) + suffix) == [appID, WorkflowActorType(ns, appID), id] + Split(suffix)
  {
    var actorType := WorkflowActorType(ns, appID);
    BarFreeSegment(appID);
    BarFreeSegment(actorType);
    SplitThree(appID, actorType, id, suffix);
  }

  lemma ThreeParts(a: string, b: string, c: string, suffix: string)
    ensures a + KeyDelimiter + b + KeyDelimiter + c + KeyDelimiter + suffix ==
            a + KeyDelimiter + (b + KeyDelimiter + (c + KeyDelimiter + suffix))
  {
  }

  lemma ThreeInFront(a: string, b: string, c: string, rest: seq<string>)
    ensures [a] + ([b] + ([c] + rest)) == [a, b, c] + rest
  {
  }

  lemma SplitThree(a: string, b: string, c: string, suffix: string)
    requires Segment(a) && Segment(b) && Segment(c)
    ensures Split(a + KeyDelimiter + b + KeyDelimiter + c + KeyDelimiter + suffix) == [a, b, c] + Split(suffix)
  {
    var last := c + KeyDelimiter + suffix;
    var middle := b + KeyDelimiter + last;
    ThreeParts(a, b, c, suffix);
    SplitHead(a, middle);
    SplitHead(b, last);
    SplitHead(c, suffix);
    ThreeInFront(a, b, c, Split(suffix));
  }

  /** Of a key with three segments or more, the first is its app id and the third its instance id, unless
      empty; a key with fewer has neither. */
  lemma ParsedFrom(key: string, parts: seq<string>)
    requires parts == Split(key)
    ensures |parts| < 3 ==> ParseAppID(key) == None && ParseInstanceID(key) == None
    ensures |parts| >= 3 ==> ParseAppID(key) == (if parts[0] == "" then None else Some(parts[0]))
    ensures |parts| >= 3 ==> ParseInstanceID(key) == (if parts[2] == "" then None else Some(parts[2]))
  {
  }

  /** Parsing gives back the ids the key was built from. */
  lemma ParseBack(ns: string, appID: string, id: string, suffix: string)
    requires BarFree(ns) && BarFree(appID) && Segment(id)
    ensures ParseAppID(InstancePrefix(ns, appID, id) + suffix) == (if appID == "" then None else Some(appID))
    ensures ParseInstanceID(InstancePrefix(ns, appID, id) + suffix) == (if id == "" then None else Some(id))
  {
    SplitInstanceKey(ns, appID, id, suffix);
  }

  /** A key lies under at most one instance's prefix. */
  lemma PrefixIdentifiesInstance(ns: string, appID: string, id: string, ns': string, appID': string, id': string, key: string)
    requires BarFree(ns) && BarFree(appID) && Segment(id)
    requires BarFree(ns') && BarFree(appID') && Segment(id')
    requires HasPrefix(key, InstancePrefix(ns, appID, id)) && HasPrefix(key, InstancePrefix(ns', appID', id'))
    ensures ns == ns' && appID == appID' && id == id'
  {
    var p, q := InstancePrefix(ns, appID, id), InstancePrefix(ns', appID', id');
    assert key == p + key[|p|..] && key == q + key[|q|..];
    SplitInstanceKey(ns, appID, id, key[|p|..]);
    SplitInstanceKey(ns', appID', id', key[|q|..]);
    var parts := Split(key);
    assert appID == parts[0] == appID' && id == parts[2] == id';
    assert parts[1] == WorkflowActorType(ns, appID) == WorkflowActorType(ns', appID);
    NamespaceInType(ns, ns', appID);
  }

  lemma TypeParts(ns: string, appID: string)
    ensures WorkflowActorType(ns, appID) == "dapr.internal." + ns + ("." + appID + ".workflow")
  {
  }

  lemma NamespaceInType(ns: string, ns': string, appID: string)
    requires WorkflowActorType(ns, appID) == WorkflowActorType(ns', appID)
    ensures ns == ns'
  {
    TypeParts(ns, appID);
    TypeParts(ns', appID);
    SameMiddle("dapr.internal.", ns, ns', "." + appID + ".workflow");
  }

  lemma SameMiddle(lead: string, x: string, y: string, tail: string)
    requires lead + x + tail == lead + y + tail
    ensures x == y
  {
    assert x == (lead + x + tail)[|lead|..|lead + x + tail| - |tail|];
    assert y == (lead + y + tail)[|lead|..|lead + y + tail| - |tail|];
  }

  // ---------- History keys ----------

  function Digit(d: nat): char
    requires d < 10
  {
    "0123456789"[d]
  }

  /** strconv.FormatUint(n, 10) */
  function FormatUint(n: nat): string {
    if n < 10 then [Digit(n)] else FormatUint(n / 10) + [Digit(n % 10)]
  }

  function Zeros(n: nat): string { if n == 0 then "" else "0" + Zeros(n - 1) }

  function PadTo(width: nat, s: string): string {
    if |s| < width then Zeros(width - |s|) + s else s
  }

  function HistoryKey(i: nat): string { HistoryPrefix + PadTo(6, FormatUint(i)) }

  /** The last width decimal digits of n. */
  function Digits(n: nat, width: nat): (r: string)
    ensures |r| == width
  {
    if width == 0 then "" else Digits(n / 10, width - 1) + [Digit(n % 10)]
  }

  function Pow10(k: nat): nat { if k == 0 then 1 else 10 * Pow10(k - 1) }

  lemma {:induction false} ZeroDigits(width: nat)
    ensures Digits(0, width) == Zeros(width)
    ensures width > 0 ==> Zeros(width) == Zeros(width - 1) + "0"
  {
    if width > 0 {
      ZeroDigits(width - 1);
      if width > 1 {
        assert Zeros(width) == "0" + (Zeros(width - 2) + "0");
      }
    }
  }

  lemma {:induction false} FormatLength(n: nat, width: nat)
    requires width > 0 && n < Pow10(width)
    ensures 0 < |FormatUint(n)| <= width
  {
    if n >= 10 {
      FormatLength(n / 10, width - 1);
    }
  }

  lemma {:induction false} PaddedIsDigits(n: nat, width: nat)
    requires width > 0 && n < Pow10(width)
    ensures PadTo(width, FormatUint(n)) == Digits(n, width)
  {
    FormatLength(n, width);
    if n < 10 {
      ZeroDigits(width - 1);
      PadDigit(n, width);
    } else {
      PaddedIsDigits(n / 10, width - 1);
      FormatLength(n / 10, width - 1);
      PadSnoc(width, FormatUint(n / 10), Digit(n % 10));
    }
  }

  lemma PadDigit(n: nat, width: nat)
    requires n < 10 && width > 0 && Digits(0, width - 1) == Zeros(width - 1)
    ensures PadTo(width, [Digit(n)]) == Digits(n, width)
  {
    assert n / 10 == 0 && n % 10 == n;
    ZeroLength(width - 1);
  }

  lemma PadSnoc(width: nat, s: string, c: char)
    requires 0 < width && |s| <= width - 1
    ensures PadTo(width, s + [c]) == PadTo(width - 1, s) + [c]
  {
    if |s| < width - 1 {
      assert Zeros(width - 1 - |s|) + (s + [c]) == Zeros(width - 1 - |s|) + s + [c];
    }
  }

  lemma {:induction false} ZeroLength(n: nat)
    ensures |Zeros(n)| == n
  {
    if n > 0 {
      ZeroLength(n - 1);
    }
  }

  lemma {:induction false} LessExtends(a: string, b: string, u: string, v: string)
    requires |a| == |b| && Less(a, b)
    ensures Less(a + u, b + v)
    decreases |a|
  {
    assert (a + u)[1..] == a[1..] + u && (b + v)[1..] == b[1..] + v;
    if a[0] == b[0] {
      LessExtends(a[1..], b[1..], u, v);
    }
  }

  lemma {:induction false} DigitsMonotone(n: nat, m: nat, width: nat)
    requires n < m < Pow10(width)
    ensures Less(Digits(n, width), Digits(m, width))
  {
    var a, b := Digits(n / 10, width - 1), Digits(m / 10, width - 1);
    if n / 10 < m / 10 {
      DigitsMonotone(n / 10, m / 10, width - 1);
      LessExtends(a, b, [Digit(n % 10)], [Digit(m % 10)]);
    } else {
      assert n / 10 == m / 10 && n % 10 < m % 10;
      LessUnderPrefix(a, [Digit(n % 10)], [Digit(m % 10)]);
    }
  }

  /** Byte order of history keys is numeric order, for all indices below the padding width. */
  lemma HistoryKeyMonotone(i: nat, j: nat)
    requires i < j < 1_000_000
    ensures Less(HistoryKey(i), HistoryKey(j))
  {
    assert Pow10(6) == 1_000_000 by {
      assert Pow10(3) == 1000;
    }
    PaddedIsDigits(i, 6);
    PaddedIsDigits(j, 6);
    DigitsMonotone(i, j, 6);
    LessUnderPrefix(HistoryPrefix, Digits(i, 6), Digits(j, 6));
  }

  lemma LeadBounds(n: nat, d: nat, p: nat)
    requires d > 0 && p > 0 && d * (10 * p) <= n < (d + 1) * (10 * p)
    ensures n >= 10 && d * p <= n / 10 < (d + 1) * p
  {
    assert d * (10 * p) == 10 * (d * p) && (d + 1) * (10 * p) == 10 * ((d + 1) * p);
    assert d * p >= 1;
  }

  lemma {:induction false} FormatLead(n: nat, d: nat, width: nat)
    requires 0 < d < 10 && d * Pow10(width) <= n < (d + 1) * Pow10(width)
    ensures FormatUint(n)[0] == Digit(d) && |FormatUint(n)| == width + 1
  {
    if width > 0 {
      LeadBounds(n, d, Pow10(width - 1));
      FormatLead(n / 10, d, width - 1);
    }
  }

  ghost predicate OrderedBelow(n: nat) {
    forall i, j :: 0 <= i < j < n ==> Less(HistoryKey(i), HistoryKey(j))
  }

  /** The bound is exact: it is the loader's maxHistoryEntries, and one key more breaks it. */
  lemma HistoryKeysOrderedIff(n: nat)
    ensures OrderedBelow(n) <==> n <= 1_000_000
  {
    if n <= 1_000_000 {
      forall i, j | 0 <= i < j < n ensures Less(HistoryKey(i), HistoryKey(j)) {
        HistoryKeyMonotone(i, j);
      }
    } else {
      var i, j := 999_999, 1_000_000;
      assert Pow10(5) == 100_000 && Pow10(6) == 1_000_000 by {
        assert Pow10(3) == 1000;
      }
      FormatLead(i, 9, 5);
      FormatLead(j, 1, 6);
      LessUnderPrefix(HistoryPrefix, PadTo(6, FormatUint(i)), PadTo(6, FormatUint(j)));
      assert !Less(HistoryKey(i), HistoryKey(j));
    }
  }

  // ---------- The texts themselves ----------

  predicate AllDigits(s: string) { forall c <- s :: '0' <= c <= '9' }

  /** The number a string of decimal digits stands for. */
  function NumberOf(s: string): nat { if s == "" then 0 else 10 * NumberOf(s[..|s| - 1]) + ValueOf(s[|s| - 1]) }

  function ValueOf(c: char): nat { if '0' <= c <= '9' then c as int - '0' as int else 0 }

  lemma {:induction false} FormatReadsBack(n: nat)
    ensures AllDigits(FormatUint(n)) && NumberOf(FormatUint(n)) == n && FormatUint(n) != ""
  {
    if n >= 10 {
      FormatReadsBack(n / 10);
      assert FormatUint(n)[..|FormatUint(n)| - 1] == FormatUint(n / 10);
    }
  }

  lemma DigitsSnoc(s: string, c: char)
    ensures NumberOf(s + [c]) == 10 * NumberOf(s) + ValueOf(c)
    ensures AllDigits(s + [c]) <==> AllDigits(s) && '0' <= c <= '9'
  {
    var t := s + [c];
    assert t != "" && t[|t| - 1] == c && t[..|t| - 1] == s;
    if AllDigits(t) {
      forall x <- s ensures '0' <= x <= '9' {
        assert x in t;
      }
      assert c in t;
    }
    if AllDigits(s) && '0' <= c <= '9' {
      forall x <- t ensures '0' <= x <= '9' {
        assert x in s || x == c;
      }
    }
  }

  lemma {:induction false} LeadingZeros(k: nat, s: string)
    requires AllDigits(s)
    ensures AllDigits(Zeros(k) + s) && NumberOf(Zeros(k) + s) == NumberOf(s)
    decreases |s|
  {
    if s == "" {
      OnlyZeros(k);
      assert Zeros(k) + s == Zeros(k);
    } else {
      var most, c := s[..|s| - 1], s[|s| - 1];
      assert s == most + [c];
      DigitsSnoc(most, c);
      LeadingZeros(k, most);
      DigitsSnoc(Zeros(k) + most, c);
      assert Zeros(k) + s == Zeros(k) + most + [c];
    }
  }

  lemma {:induction false} OnlyZeros(k: nat)
    ensures AllDigits(Zeros(k)) && NumberOf(Zeros(k)) == 0
  {
    if k > 0 {
      var most := Zeros(k - 1);
      OnlyZeros(k - 1);
      ZeroDigits(k);
      DigitsSnoc(most, '0');
      assert Zeros(k) == most + ['0'];
    }
  }

  lemma {:induction false} ZerosLength(k: nat)
    ensures |Zeros(k)| == k
  {
    if k > 0 {
      ZerosLength(k - 1);
    }
  }

  /** A history key is "history-" and its number in at least six digits. */
  lemma HistoryKeyReads(i: nat)
    ensures var k := HistoryKey(i);
            && |k| >= 14 && k[..8] == "history-" && AllDigits(k[8..]) && NumberOf(k[8..]) == i
            && (|k| > 14 ==> k[8] != '0')
  {
    PaddedReads(i);
    assert HistoryKey(i)[..8] == "history-" && HistoryKey(i)[8..] == PadTo(6, FormatUint(i));
  }

  lemma PaddedReads(i: nat)
    ensures var s := PadTo(6, FormatUint(i));
            |s| >= 6 && AllDigits(s) && NumberOf(s) == i && (|s| > 6 ==> s[0] != '0')
  {
    FormatReadsBack(i);
    FormatHasNoZeros(i);
    PaddingReads(FormatUint(i));
  }

  lemma PaddingReads(digits: string)
    requires AllDigits(digits)
    ensures var s := PadTo(6, digits);
            |s| >= 6 && AllDigits(s) && NumberOf(s) == NumberOf(digits) && (|s| > 6 ==> s == digits)
  {
    if |digits| < 6 {
      LeadingZeros(6 - |digits|, digits);
      ZerosLength(6 - |digits|);
    }
  }

  lemma {:induction false} FormatHasNoZeros(n: nat)
    ensures FormatUint(n) != "" && (n > 0 ==> FormatUint(n)[0] != '0') && (n == 0 ==> |FormatUint(n)| == 1)
  {
    if n >= 10 {
      FormatHasNoZeros(n / 10);
    }
  }

  /** The prefix of an instance, part by part. */
  lemma PrefixReads(ns: string, appID: string, id: string)
    requires BarFree(ns) && BarFree(appID) && Segment(id)
    ensures Split(InstancePrefix(ns, appID, id)) == [appID, "dapr.internal." + ns + "." + appID + ".workflow", id, ""]
    ensures Split(InstancePrefix(ns, appID, id) + SuffixMetadata) == [appID, "dapr.internal." + ns + "." + appID + ".workflow", id, "metadata"]
  {
    SplitInstanceKey(ns, appID, id, "");
    SplitInstanceKey(ns, appID, id, SuffixMetadata);
    SplitTail("");
    SplitTail(SuffixMetadata);
    assert InstancePrefix(ns, appID, id) + "" == InstancePrefix(ns, appID, id);
  }
}
