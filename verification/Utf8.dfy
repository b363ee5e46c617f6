/** Truncation of state values on UTF-8 boundaries (pkg/state/value.go). */
module Utf8 {
  type Byte = x: int | 0 <= x < 256

  predicate Tail(x: Byte) { 0x80 <= x <= 0xBF }

  /** Length of the well-formed sequence s starts with (section 4 of RFC 3629); 0 when there is none. */
  function FirstLength(s: seq<Byte>): (n: nat)
    ensures n <= 4 && n <= |s|
  {
    if |s| == 0 then 0
    else if s[0] <= 0x7F then 1
    else if |s| == 1 then 0
    else if 0xC2 <= s[0] <= 0xDF then (if Tail(s[1]) then 2 else 0)
    else if |s| == 2 then 0
    else if 0xE0 <= s[0] <= 0xEF then (if SecondFits(s[0], s[1]) && Tail(s[2]) then 3 else 0)
    else if |s| == 3 then 0
    else if 0xF0 <= s[0] <= 0xF4 then (if SecondFits(s[0], s[1]) && Tail(s[2]) && Tail(s[3]) then 4 else 0)
    else 0
  }

  /** The second byte of a three- or four-byte sequence: no overlong form, surrogate, or code point
      past U+10FFFF. */
  predicate SecondFits(first: Byte, second: Byte) {
    && Tail(second)
    && (first == 0xE0 ==> second >= 0xA0)
    && (first == 0xED ==> second <= 0x9F)
    && (first == 0xF0 ==> second >= 0x90)
    && (first == 0xF4 ==> second <= 0x8F)
  }

  predicate Valid(s: seq<Byte>) {
    s == [] || (FirstLength(s) > 0 && Valid(s[FirstLength(s)..]))
  }

  predicate Scalar(c: nat) { c <= 0x10_FFFF && !(0xD800 <= c <= 0xDFFF) }

  /** The UTF-8 form of a Unicode scalar value (section 3 of RFC 3629). */
  function Encoded(c: nat): (s: seq<Byte>)
    requires Scalar(c)
    ensures 1 <= |s| <= 4
  {
    if c <= 0x7F then [c]
    else if c <= 0x7FF then [Lead(0xC0, c / 64), Continued(c)]
    else if c <= 0xFFFF then [Lead(0xE0, c / 4096), Continued(c / 64), Continued(c)]
    else [Lead(0xF0, c / 262144), Continued(c / 4096), Continued(c / 64), Continued(c)]
  }

  function Lead(mark: int, high: int): Byte
    requires 0 <= mark + high < 256
  {
    mark + high
  }

  function Continued(bits: int): Byte { 0x80 + bits % 64 }

  function EncodedAll(cs: seq<nat>): seq<Byte>
    requires forall c <- cs :: Scalar(c)
  {
    if cs == [] then [] else Encoded(cs[0]) + EncodedAll(cs[1..])
  }

  lemma EncodedIsFirst(c: nat, rest: seq<Byte>)
    requires Scalar(c)
    ensures FirstLength(Encoded(c) + rest) == |Encoded(c)|
  {
    var s := Encoded(c) + rest;
    if c <= 0x7F {
      assert s[0] == c;
    } else if c <= 0x7FF {
      assert s[0] == Lead(0xC0, c / 64) && s[1] == Continued(c);
    } else if c <= 0xFFFF {
      ThreeFit(c);
      assert s[0] == Lead(0xE0, c / 4096) && s[1] == Continued(c / 64) && s[2] == Continued(c);
    } else {
      FourFit(c);
      assert s[0] == Lead(0xF0, c / 262144) && s[1] == Continued(c / 4096) && s[2] == Continued(c / 64) && s[3] == Continued(c);
    }
  }

  lemma ThreeFit(c: nat)
    requires Scalar(c) && 0x7FF < c <= 0xFFFF
    ensures 0xE0 <= Lead(0xE0, c / 4096) <= 0xEF && SecondFits(Lead(0xE0, c / 4096), Continued(c / 64)) && Tail(Continued(c))
  {
    assert c / 64 == c / 4096 * 64 + c / 64 % 64;
  }

  lemma FourFit(c: nat)
    requires 0xFFFF < c <= 0x10_FFFF
    ensures 0xF0 <= Lead(0xF0, c / 262144) <= 0xF4 && SecondFits(Lead(0xF0, c / 262144), Continued(c / 4096))
    ensures Tail(Continued(c / 64)) && Tail(Continued(c))
  {
    assert c / 4096 == c / 262144 * 64 + c / 4096 % 64;
  }

  /** A number put together from a high part and six bits comes apart again. */
  lemma SixBits(high: nat, low: nat)
    requires low < 64
    ensures (high * 64 + low) / 64 == high && (high * 64 + low) % 64 == low
  {
  }

  lemma SixBitsTwice(high: nat, middle: nat, low: nat)
    requires middle < 64 && low < 64
    ensures var c := (high * 64 + middle) * 64 + low;
            c / 4096 == high && c / 64 == high * 64 + middle && c / 64 % 64 == middle && c % 64 == low
  {
    SixBits(high * 64 + middle, low);
    SixBits(high, middle);
  }

  lemma SixBitsThrice(high: nat, second: nat, third: nat, low: nat)
    requires second < 64 && third < 64 && low < 64
    ensures var c := ((high * 64 + second) * 64 + third) * 64 + low;
            c / 262144 == high && c / 4096 % 64 == second && c / 64 % 64 == third && c % 64 == low
  {
    SixBitsTwice(high * 64 + second, third, low);
    SixBits(high, second);
  }

  lemma FirstIsEncoded(s: seq<Byte>) returns (c: nat)
    requires FirstLength(s) > 0
    ensures Scalar(c) && s[..FirstLength(s)] == Encoded(c)
  {
    var n := FirstLength(s);
    if n == 1 {
      c := s[0];
    } else if n == 2 {
      c := TwoBytes(s[0], s[1]);
    } else if n == 3 {
      c := ThreeBytes(s[0], s[1], s[2]);
    } else {
      c := FourBytes(s[0], s[1], s[2], s[3]);
    }
  }

  lemma TwoBytes(x: Byte, y: Byte) returns (c: nat)
    requires 0xC2 <= x <= 0xDF && Tail(y)
    ensures Scalar(c) && Encoded(c) == [x, y]
  {
    var high: nat, low: nat := x - 0xC0, y - 0x80;
    SixBits(high, low);
    c := high * 64 + low;
  }

  lemma ThreeBytes(x: Byte, y: Byte, z: Byte) returns (c: nat)
    requires 0xE0 <= x <= 0xEF && SecondFits(x, y) && Tail(z)
    ensures Scalar(c) && Encoded(c) == [x, y, z]
  {
    var high: nat, middle: nat, low: nat := x - 0xE0, y - 0x80, z - 0x80;
    SixBitsTwice(high, middle, low);
    c := (high * 64 + middle) * 64 + low;
  }

  lemma FourBytes(x: Byte, y: Byte, z: Byte, u: Byte) returns (c: nat)
    requires 0xF0 <= x <= 0xF4 && SecondFits(x, y) && Tail(z) && Tail(u)
    ensures Scalar(c) && Encoded(c) == [x, y, z, u]
  {
    var high: nat, second: nat, third: nat, low: nat := x - 0xF0, y - 0x80, z - 0x80, u - 0x80;
    SixBitsThrice(high, second, third, low);
    c := ((high * 64 + second) * 64 + third) * 64 + low;
  }

  lemma {:induction false} EncodedAllValid(cs: seq<nat>)
    requires forall c <- cs :: Scalar(c)
    ensures Valid(EncodedAll(cs))
  {
    if cs != [] {
      EncodedAllValid(cs[1..]);
      EncodedIsFirst(cs[0], EncodedAll(cs[1..]));
      assert EncodedAll(cs)[|Encoded(cs[0])|..] == EncodedAll(cs[1..]);
    }
  }

  lemma OneMore(c: nat, rest: seq<nat>)
    requires Scalar(c) && forall d <- rest :: Scalar(d)
    ensures (forall d <- [c] + rest :: Scalar(d)) && EncodedAll([c] + rest) == Encoded(c) + EncodedAll(rest)
  {
    assert ([c] + rest)[1..] == rest;
  }

  lemma {:induction false} ValidIsEncoded(s: seq<Byte>) returns (cs: seq<nat>)
    requires Valid(s)
    ensures (forall c <- cs :: Scalar(c)) && EncodedAll(cs) == s
    decreases |s|
  {
    if s == [] {
      cs := [];
    } else {
      var n := FirstLength(s);
      var c := FirstIsEncoded(s);
      var rest := ValidIsEncoded(s[n..]);
      cs := [c] + rest;
      OneMore(c, rest);
      assert s == s[..n] + s[n..];
    }
  }

  /** Valid text is exactly the encodings of sequences of scalar values. */
  lemma ValidIff(s: seq<Byte>)
    ensures Valid(s) <==> exists cs: seq<nat> :: (forall c <- cs :: Scalar(c)) && EncodedAll(cs) == s
  {
    if Valid(s) {
      var cs := ValidIsEncoded(s);
    }
    if cs: seq<nat> :| (forall c <- cs :: Scalar(c)) && EncodedAll(cs) == s {
      EncodedAllValid(cs);
    }
  }

  lemma FirstLengthOfPrefix(s: seq<Byte>, n: nat)
    requires 0 < FirstLength(s) <= n <= |s|
    ensures FirstLength(s[..n]) == FirstLength(s)
  {
  }

  /** Any cut of a valid text is at most three bytes past the end of a valid prefix. */
  lemma {:induction false} CutNearBoundary(s: seq<Byte>, n: nat) returns (m: nat)
    requires Valid(s) && n <= |s|
    ensures m <= n <= m + 3 && Valid(s[..m])
    decreases |s|
  {
    if s == [] || n < FirstLength(s) {
      m := 0;
    } else {
      var k := FirstLength(s);
      var rest := CutNearBoundary(s[k..], n - k);
      m := k + rest;
      FirstLengthOfPrefix(s, m);
      assert s[..m][k..] == s[k..][..rest];
    }
  }

  const MaxValueBytes: nat := 0x10_0000

  /** truncateValue: the longest valid prefix within max bytes, which for valid text is at most
      three bytes short. */
  method TruncateValue(s: seq<Byte>, max: nat) returns (r: seq<Byte>, cut: bool)
    ensures r <= s && (cut <==> |s| > max)
    ensures !cut ==> r == s
    ensures cut ==> |r| <= max && Valid(r) && forall m :: |r| < m <= max ==> !Valid(s[..m])
    ensures Valid(s) ==> Valid(r) && (cut ==> max <= |r| + 3)
  {
    if |s| <= max {
      return s, false;
    }
    r := s[..max];
    while |r| > 0 && !Valid(r)
      invariant |r| <= max && r == s[..|r|]
      invariant forall m :: |r| < m <= max ==> !Valid(s[..m])
    {
      r := r[..|r| - 1];
    }
    cut := true;
    if Valid(s) {
      ghost var m := CutNearBoundary(s, max);
    }
  }
}
