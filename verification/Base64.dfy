/** Rendering of binary state values as base64 with padding (section 4 of RFC 4648), their previews
    (pkg/state/value.go), and the page's decoding of previews (web/src/lib/base64.ts). */
module Base64 {
  import opened Options
  import opened Utf8

  type Sextet = x: int | 0 <= x < 64

  function CharOf(x: Sextet): char {
    if x < 26 then ('A' as int + x) as char
    else if x < 52 then ('a' as int + x - 26) as char
    else if x < 62 then ('0' as int + x - 52) as char
    else if x == 62 then '+'
    else '/'
  }

  function ValueOf(c: char): Option<Sextet> {
    if 'A' <= c <= 'Z' then Some(c as int - 'A' as int)
    else if 'a' <= c <= 'z' then Some(c as int - 'a' as int + 26)
    else if '0' <= c <= '9' then Some(c as int - '0' as int + 52)
    else if c == '+' then Some(62)
    else if c == '/' then Some(63)
    else None
  }

  lemma ValueOfCharOf(x: Sextet)
    ensures ValueOf(CharOf(x)) == Some(x)
  {
  }

  const Pad: char := '='

  function Group(x: Byte, y: Byte, z: Byte): string {
    [CharOf(x / 4), CharOf(x % 4 * 16 + y / 16), CharOf(y % 16 * 4 + z / 64), CharOf(z % 64)]
  }

  /** One to three bytes as four characters. */
  function EncodeGroup(b: seq<Byte>): string {
    if |b| == 0 then ""
    else if |b| == 1 then Group(b[0], 0, 0)[..2] + [Pad, Pad]
    else if |b| == 2 then Group(b[0], b[1], 0)[..3] + [Pad]
    else Group(b[0], b[1], b[2])
  }

  function Bytes(p: Sextet, q: Sextet, r: Sextet, s: Sextet): seq<Byte> {
    [p * 4 + q / 16, q % 16 * 16 + r / 4, r % 4 * 64 + s]
  }

  function FromValues(p: Option<Sextet>, q: Option<Sextet>, r: Option<Sextet>, s: Option<Sextet>,
                      padThird: bool, padFourth: bool): Option<seq<Byte>> {
    if p.None? || q.None? then None
    else if r.Some? && s.Some? then Some(Bytes(p.value, q.value, r.value, s.value))
    else if r.Some? && padFourth then Some(Bytes(p.value, q.value, r.value, 0)[..2])
    else if padThird && padFourth then Some(Bytes(p.value, q.value, 0, 0)[..1])
    else None
  }

  /** One group of four characters; only the last may be padded. */
  function DecodeGroup(g: string, last: bool): Option<seq<Byte>> {
    if |g| != 4 then None
    else FromValues(ValueOf(g[0]), ValueOf(g[1]), ValueOf(g[2]), ValueOf(g[3]), last && g[2] == Pad, last && g[3] == Pad)
  }

  /** Regrouping 24 bits as four sextets and back. */
  lemma Regroup(x: Byte, y: Byte, z: Byte)
    ensures Bytes(x / 4, x % 4 * 16 + y / 16, y % 16 * 4 + z / 64, z % 64) == [x, y, z]
  {
    assert (x % 4 * 16 + y / 16) / 16 == x % 4 && (x % 4 * 16 + y / 16) % 16 == y / 16;
    assert (y % 16 * 4 + z / 64) / 4 == y % 16 && (y % 16 * 4 + z / 64) % 4 == z / 64;
  }

  lemma GroupValues(x: Byte, y: Byte, z: Byte)
    ensures var g := Group(x, y, z);
            && ValueOf(g[0]) == Some(x / 4) && ValueOf(g[1]) == Some(x % 4 * 16 + y / 16)
            && ValueOf(g[2]) == Some(y % 16 * 4 + z / 64) && ValueOf(g[3]) == Some(z % 64)
  {
    ValueOfCharOf(x / 4);
    ValueOfCharOf(x % 4 * 16 + y / 16);
    ValueOfCharOf(y % 16 * 4 + z / 64);
    ValueOfCharOf(z % 64);
  }

  lemma GroupDecodes(x: Byte, y: Byte, z: Byte, last: bool)
    ensures DecodeGroup(Group(x, y, z), last) == Some([x, y, z])
  {
    GroupValues(x, y, z);
    Regroup(x, y, z);
  }

  lemma PadHasNoValue()
    ensures ValueOf(Pad) == None
  {
  }

  lemma OneByteDecodes(x: Byte)
    ensures DecodeGroup(Group(x, 0, 0)[..2] + [Pad, Pad], true) == Some([x])
  {
    var g := Group(x, 0, 0);
    var h := g[..2] + [Pad, Pad];
    assert h[0] == g[0] && h[1] == g[1] && h[2] == Pad && h[3] == Pad;
    PadHasNoValue();
    GroupValues(x, 0, 0);
    Regroup(x, 0, 0);
    FromOne(x);
  }

  lemma FromOne(x: Byte)
    ensures FromValues(Some(x / 4), Some(x % 4 * 16), None, None, true, true) == Some([x])
  {
    var s := Bytes(x / 4, x % 4 * 16, 0, 0);
    assert s[..1] == [s[0]];
  }

  lemma TwoBytesDecode(x: Byte, y: Byte)
    ensures DecodeGroup(Group(x, y, 0)[..3] + [Pad], true) == Some([x, y])
  {
    var g := Group(x, y, 0);
    var h := g[..3] + [Pad];
    assert h[0] == g[0] && h[1] == g[1] && h[2] == g[2] && h[3] == Pad;
    PadHasNoValue();
    GroupValues(x, y, 0);
    FromTwo(x, y, h[2] == Pad);
  }

  lemma FromTwo(x: Byte, y: Byte, padThird: bool)
    ensures FromValues(Some(x / 4), Some(x % 4 * 16 + y / 16), Some(y % 16 * 4), None, padThird, true) == Some([x, y])
  {
    Regroup(x, y, 0);
    var s := Bytes(x / 4, x % 4 * 16 + y / 16, y % 16 * 4, 0);
    assert s[..2] == [s[0], s[1]];
  }

  lemma GroupInverse(b: seq<Byte>, last: bool)
    requires 1 <= |b| <= 3 && (last || |b| == 3)
    ensures |EncodeGroup(b)| == 4 && DecodeGroup(EncodeGroup(b), last) == Some(b)
  {
    if |b| == 1 {
      OneByteDecodes(b[0]);
      assert b == [b[0]];
    } else if |b| == 2 {
      TwoBytesDecode(b[0], b[1]);
      assert b == [b[0], b[1]];
    } else {
      GroupDecodes(b[0], b[1], b[2], last);
      assert b == [b[0], b[1], b[2]];
    }
  }

  /** What decodes: four characters of the alphabet, or at the end two or three of them and padding. */
  lemma DecodesIff(g: string, last: bool)
    ensures DecodeGroup(g, last).Some? <==>
            && |g| == 4 && ValueOf(g[0]).Some? && ValueOf(g[1]).Some?
            && (|| (ValueOf(g[2]).Some? && ValueOf(g[3]).Some?)
                || (last && g[3] == '=' && (ValueOf(g[2]).Some? || g[2] == '=')))
  {
    PadHasNoValue();
  }

  // ---------- Whole values ----------

  type Encoder = seq<Byte> -> string
  type Decoder = (string, bool) -> Option<seq<Byte>>

  function EncodeWith(b: seq<Byte>, enc: Encoder): string {
    if |b| == 0 then "" else if |b| <= 3 then enc(b) else enc(b[..3]) + EncodeWith(b[3..], enc)
  }

  function DecodeWith(s: string, dec: Decoder): Option<seq<Byte>> {
    if |s| == 0 then Some([])
    else if |s| < 4 then None
    else
      var first, rest := dec(s[..4], |s| == 4), DecodeWith(s[4..], dec);
      if first.Some? && rest.Some? then Some(first.value + rest.value) else None
  }

  ghost predicate Inverse(enc: Encoder, dec: Decoder) {
    forall b: seq<Byte>, last: bool :: 1 <= |b| <= 3 && (last || |b| == 3) ==> |enc(b)| == 4 && dec(enc(b), last) == Some(b)
  }

  lemma {:induction false} LengthWith(b: seq<Byte>, enc: Encoder, dec: Decoder)
    requires Inverse(enc, dec)
    ensures |EncodeWith(b, enc)| == 4 * ((|b| + 2) / 3)
  {
    if 1 <= |b| <= 3 {
      assert dec(enc(b), true) == Some(b);
    } else if |b| > 3 {
      assert dec(enc(b[..3]), true) == Some(b[..3]);
      LengthWith(b[3..], enc, dec);
    }
  }

  lemma {:induction false} RoundTripWith(b: seq<Byte>, enc: Encoder, dec: Decoder)
    requires Inverse(enc, dec)
    ensures DecodeWith(EncodeWith(b, enc), dec) == Some(b)
  {
    if 1 <= |b| <= 3 {
      assert dec(enc(b), true) == Some(b);
      assert enc(b)[..4] == enc(b) && b + [] == b;
    } else if |b| > 3 {
      var g, rest := enc(b[..3]), EncodeWith(b[3..], enc);
      LengthWith(b[3..], enc, dec);
      RoundTripWith(b[3..], enc, dec);
      assert dec(g, false) == Some(b[..3]);
      assert (g + rest)[..4] == g && (g + rest)[4..] == rest;
      assert b[..3] + b[3..] == b;
    }
  }

  /** The first k groups encode the first 3k bytes. */
  lemma {:induction false} PrefixWith(b: seq<Byte>, k: nat, enc: Encoder, dec: Decoder)
    requires Inverse(enc, dec) && 3 * k <= |b|
    ensures 4 * k <= |EncodeWith(b, enc)| && EncodeWith(b, enc)[..4 * k] == EncodeWith(b[..3 * k], enc)
  {
    LengthWith(b, enc, dec);
    if k > 0 {
      var p := b[..3 * k];
      assert dec(enc(b[..3]), true) == Some(b[..3]);
      assert p[..3] == b[..3];
      if |b| == 3 {
        assert p == b && b[..3] == b;
      } else {
        PrefixWith(b[3..], k - 1, enc, dec);
        assert p[3..] == b[3..][..3 * (k - 1)];
        if k == 1 {
          assert p == b[..3];
        }
      }
    }
  }

  function Encode(b: seq<Byte>): string { EncodeWith(b, EncodeGroup) }

  /** atob on a whole number of groups. */
  function Decode(s: string): Option<seq<Byte>> { DecodeWith(s, DecodeGroup) }

  lemma StandardInverse()
    ensures Inverse(EncodeGroup, DecodeGroup)
  {
    var enc: Encoder, dec: Decoder := EncodeGroup, DecodeGroup;
    forall b: seq<Byte>, last: bool | 1 <= |b| <= 3 && (last || |b| == 3)
      ensures |enc(b)| == 4 && dec(enc(b), last) == Some(b)
    {
      GroupInverse(b, last);
      assert enc(b) == EncodeGroup(b);
      assert dec(enc(b), last) == DecodeGroup(EncodeGroup(b), last);
    }
    assert Inverse(enc, dec);
  }

  // ---------- Previews ----------

  /** unicode.IsSpace */
  predicate IsSpace(c: char) {
    var x := c as int;
    9 <= x <= 13 || x in {0x20, 0x85, 0xA0, 0x1680, 0x2028, 0x2029, 0x202F, 0x205F, 0x3000} || 0x2000 <= x <= 0x200A
  }

  /** \s of JavaScript */
  predicate IsJsSpace(c: char) { (IsSpace(c) && c as int != 0x85) || c as int == 0xFEFF }

  /** White space in the sense of Unicode, code point by code point, and in that of JavaScript. */
  lemma SpacesAre(c: char)
    ensures IsSpace(c) <==>
            c as int in {9, 10, 11, 12, 13, 32, 133, 160, 0x1680, 0x2000, 0x2001, 0x2002, 0x2003, 0x2004, 0x2005, 0x2006, 0x2007,
                         0x2008, 0x2009, 0x200A, 0x2028, 0x2029, 0x202F, 0x205F, 0x3000}
    ensures IsJsSpace(c) <==>
            c as int in {9, 10, 11, 12, 13, 32, 160, 0x1680, 0x2000, 0x2001, 0x2002, 0x2003, 0x2004, 0x2005, 0x2006, 0x2007,
                         0x2008, 0x2009, 0x200A, 0x2028, 0x2029, 0x202F, 0x205F, 0x3000, 0xFEFF}
  {
  }

  const Ellipsis: char := '\U{2026}'
  const PreviewChars: nat := 200

  /** Whitespace runs collapse to one space each, at the ends to none; started is whether text has
      been kept before s. */
  function Collapse(s: string, started: bool): string
    decreases |s|
  {
    if s == "" then ""
    else if !IsSpace(s[0]) then [s[0]] + Collapse(s[1..], true)
    else
      var rest := Collapse(s[1..], false);
      if started && rest != "" then " " + rest else rest
  }

  function Preview(s: string): string {
    var t := Collapse(s, false);
    if |t| <= PreviewChars then t else t[..PreviewChars] + [Ellipsis]
  }

  function WithoutEllipsis(s: string): string {
    if s != "" && s[|s| - 1] == Ellipsis then WithoutEllipsis(s[..|s| - 1]) else s
  }

  function WithoutSpace(s: string): string {
    if s == "" then "" else (if IsJsSpace(s[0]) then "" else [s[0]]) + WithoutSpace(s[1..])
  }

  /** The whole groups decodeBase64Preview decodes. */
  function WholeGroups(s: string): (r: string)
    ensures |r| % 4 == 0
  {
    var cleaned := WithoutSpace(WithoutEllipsis(s));
    cleaned[..|cleaned| - |cleaned| % 4]
  }

  predicate Plain(s: string) { forall c <- s :: !IsSpace(c) && !IsJsSpace(c) && c != Ellipsis }

  lemma PlainChars(x: Sextet)
    ensures !IsSpace(CharOf(x)) && !IsJsSpace(CharOf(x)) && CharOf(x) != Ellipsis
  {
  }

  lemma GroupPlain(b: seq<Byte>)
    ensures Plain(EncodeGroup(b))
  {
    if |b| > 0 {
      var x, y, z := b[0], if |b| > 1 then b[1] else 0, if |b| > 2 then b[2] else 0;
      PlainChars(x / 4);
      PlainChars(x % 4 * 16 + y / 16);
      PlainChars(y % 16 * 4 + z / 64);
      PlainChars(z % 64);
    }
  }

  /** The standard alphabet. */
  const Capitals := "ABCDEFGHIJKLMNOPQRSTUVWXYZ"
  const Letters := "abcdefghijklmnopqrstuvwxyz"
  const Numerals := "0123456789"
  const Alphabet := Capitals + Letters + Numerals + "+/"

  lemma CapitalAt(x: nat)
    requires x < 26
    ensures |Capitals| == 26 && Capitals[x] as int == 'A' as int + x
  {
  }

  lemma LetterAt(x: nat)
    requires x < 26
    ensures |Letters| == 26 && Letters[x] as int == 'a' as int + x
  {
  }

  lemma NumeralAt(x: nat)
    requires x < 10
    ensures |Numerals| == 10 && Numerals[x] as int == '0' as int + x
  {
  }

  lemma AlphabetIsStandard(x: Sextet)
    ensures |Alphabet| == 64 && CharOf(x) == Alphabet[x]
  {
    CapitalAt(if x < 26 then x else 0);
    LetterAt(if 26 <= x < 52 then x - 26 else 0);
    NumeralAt(if 52 <= x < 62 then x - 52 else 0);
  }

  /** Four characters of the alphabet are the group of three bytes exactly when their values hold the
      same 24 bits, high bits first; ... */
  lemma ThreeByteBits(x: Byte, y: Byte, z: Byte, p: Sextet, q: Sextet, r: Sextet, s: Sextet)
    ensures |Alphabet| == 64
    ensures EncodeGroup([x, y, z]) == [Alphabet[p], Alphabet[q], Alphabet[r], Alphabet[s]] <==> Bits4(p, q, r, s) == Bits3(x, y, z)
  {
    SameBits(x / 4, x % 4 * 16 + y / 16, y % 16 * 4 + z / 64, z % 64, p, q, r, s);
    BitsOf(x, y, z);
    SameCharIff(x / 4, p);
    SameCharIff(x % 4 * 16 + y / 16, q);
    SameCharIff(y % 16 * 4 + z / 64, r);
    SameCharIff(z % 64, s);
    var g := Group(x, y, z);
    assert EncodeGroup([x, y, z]) == [g[0], g[1], g[2], g[3]];
  }

  /** ... fewer bytes are filled up with zero bits, and the group is padded. */
  lemma TwoByteBits(x: Byte, y: Byte, p: Sextet, q: Sextet, r: Sextet)
    ensures |Alphabet| == 64
    ensures EncodeGroup([x, y]) == [Alphabet[p], Alphabet[q], Alphabet[r], '='] <==> Bits4(p, q, r, 0) == Bits3(x, y, 0)
  {
    SameBits(x / 4, x % 4 * 16 + y / 16, y % 16 * 4, 0, p, q, r, 0);
    BitsOf(x, y, 0);
    SameCharIff(x / 4, p);
    SameCharIff(x % 4 * 16 + y / 16, q);
    SameCharIff(y % 16 * 4, r);
    var g := Group(x, y, 0);
    assert EncodeGroup([x, y]) == [g[0], g[1], g[2], '='];
  }

  lemma OneByteBits(x: Byte, p: Sextet, q: Sextet)
    ensures |Alphabet| == 64
    ensures EncodeGroup([x]) == [Alphabet[p], Alphabet[q], '=', '='] <==> Bits4(p, q, 0, 0) == Bits3(x, 0, 0)
  {
    SameBits(x / 4, x % 4 * 16, 0, 0, p, q, 0, 0);
    BitsOf(x, 0, 0);
    SameCharIff(x / 4, p);
    SameCharIff(x % 4 * 16, q);
    var g := Group(x, 0, 0);
    assert EncodeGroup([x]) == [g[0], g[1], '=', '='];
  }

  function Bits4(p: int, q: int, r: int, s: int): int { p * 262144 + q * 4096 + r * 64 + s }

  function Bits3(x: int, y: int, z: int): int { x * 65536 + y * 256 + z }

  lemma SameSix(high: int, low: int, high': int, low': int)
    requires 0 <= low < 64 && 0 <= low' < 64
    ensures high * 64 + low == high' * 64 + low' <==> high == high' && low == low'
  {
  }

  lemma SameBits(p: int, q: int, r: int, s: int, p': int, q': int, r': int, s': int)
    requires 0 <= p < 64 && 0 <= q < 64 && 0 <= r < 64 && 0 <= s < 64
    requires 0 <= p' < 64 && 0 <= q' < 64 && 0 <= r' < 64 && 0 <= s' < 64
    ensures Bits4(p, q, r, s) == Bits4(p', q', r', s') <==> p == p' && q == q' && r == r' && s == s'
  {
    var pq, pq' := p * 64 + q, p' * 64 + q';
    SameSix(p, q, p', q');
    SameSix(pq, r, pq', r');
    SameSix(pq * 64 + r, s, pq' * 64 + r', s');
  }

  lemma BitsOf(x: Byte, y: Byte, z: Byte)
    ensures Bits4(x / 4, x % 4 * 16 + y / 16, y % 16 * 4 + z / 64, z % 64) == Bits3(x, y, z)
  {
    var a, b, c := x as int, y as int, z as int;
    assert a == a / 4 * 4 + a % 4 && b == b / 16 * 16 + b % 16 && c == c / 64 * 64 + c % 64;
  }

  lemma SameCharIff(x: Sextet, y: Sextet)
    ensures |Alphabet| == 64 && (CharOf(x) == Alphabet[y] <==> x == y)
  {
    AlphabetIsStandard(y);
    ValueOfCharOf(x);
    ValueOfCharOf(y);
  }

  lemma {:induction false} EncodePlain(b: seq<Byte>, enc: Encoder)
    requires forall c: seq<Byte> :: Plain(enc(c))
    ensures Plain(EncodeWith(b, enc))
  {
    if |b| > 3 {
      EncodePlain(b[3..], enc);
      assert Plain(enc(b[..3]));
    }
  }

  lemma {:induction false} PlainKept(s: string, started: bool)
    requires Plain(s)
    ensures Collapse(s, started) == s && WithoutSpace(s) == s && WithoutEllipsis(s) == s
  {
    if s != "" {
      assert s[0] in s && s[|s| - 1] in s;
      PlainKept(s[1..], true);
    }
  }

  predicate AllSpace(s: string) { forall c <- s :: IsSpace(c) }

  predicate IsWord(s: string) { s != "" && forall c <- s :: !IsSpace(c) }

  /** Words with separators around and between them. */
  function Weave(seps: seq<string>, words: seq<string>): string
    requires |seps| == |words| + 1
  {
    if words == [] then seps[0] else seps[0] + words[0] + Weave(seps[1..], words[1..])
  }

  function JoinWords(words: seq<string>): string {
    if words == [] then "" else if |words| == 1 then words[0] else words[0] + " " + JoinWords(words[1..])
  }

  lemma {:induction false} CollapseWord(word: string, rest: string, started: bool)
    requires word != "" && forall c <- word :: !IsSpace(c)
    ensures Collapse(word + rest, started) == word + Collapse(rest, true)
  {
    assert word[0] in word && (word + rest)[1..] == word[1..] + rest;
    if |word| > 1 {
      assert forall c <- word[1..] :: c in word;
      CollapseWord(word[1..], rest, true);
      assert [word[0]] + (word[1..] + Collapse(rest, true)) == word + Collapse(rest, true);
    } else {
      assert word[1..] + rest == rest;
    }
  }

  lemma {:induction false} CollapseSpace(sep: string, rest: string, started: bool)
    requires AllSpace(sep)
    ensures var r := Collapse(rest, false);
            Collapse(sep + rest, started) ==
              if sep == "" then Collapse(rest, started) else if started && r != "" then " " + r else r
  {
    if sep == "" {
      assert sep + rest == rest;
    } else {
      assert sep[0] in sep && (sep + rest)[1..] == sep[1..] + rest;
      assert forall c <- sep[1..] :: c in sep;
      CollapseSpace(sep[1..], rest, false);
      assert sep[1..] + rest == if |sep| == 1 then rest else sep[1..] + rest;
    }
  }

  /** However a text is written as words between whitespace, its preview line is the words with one
      space between them. */
  lemma {:induction false} CollapseIsJoin(seps: seq<string>, words: seq<string>, started: bool)
    requires |seps| == |words| + 1 && (forall s <- seps :: AllSpace(s)) && (forall w <- words :: IsWord(w))
    requires forall i :: 0 < i < |words| ==> seps[i] != ""
    requires started ==> seps[0] != ""
    ensures Collapse(Weave(seps, words), started) == (if started && words != [] then " " else "") + JoinWords(words)
    decreases |words|
  {
    assert seps[0] in seps;
    if words == [] {
      CollapseSpace(seps[0], "", started);
      assert seps[0] + "" == seps[0];
    } else {
      var rest := Weave(seps[1..], words[1..]);
      assert words[0] in words;
      assert Weave(seps, words) == seps[0] + (words[0] + rest);
      CollapseSpace(seps[0], words[0] + rest, started);
      CollapseWord(words[0], rest, false);
      CollapseTail(seps, words);
    }
  }

  lemma {:induction false} CollapseTail(seps: seq<string>, words: seq<string>)
    requires words != [] && |seps| == |words| + 1 && (forall s <- seps :: AllSpace(s)) && (forall w <- words :: IsWord(w))
    requires forall i :: 0 < i < |words| ==> seps[i] != ""
    ensures words[0] + Collapse(Weave(seps[1..], words[1..]), true) == JoinWords(words)
    decreases |words|, 0
  {
    assert (forall s <- seps[1..] :: s in seps) && forall w <- words[1..] :: w in words;
    if |words| == 1 {
      assert seps[1] in seps;
      CollapseSpace(seps[1], "", true);
      assert seps[1] + "" == seps[1] && seps[1..][0] == seps[1];
      assert Collapse("", false) == "" && Collapse("", true) == "";
    } else {
      CollapseIsJoin(seps[1..], words[1..], true);
      assert words[0] + (" " + JoinWords(words[1..])) == words[0] + " " + JoinWords(words[1..]);
    }
  }

  /** A preview is that line, cut to 200 characters and an ellipsis when it is longer. */
  lemma PreviewIs(seps: seq<string>, words: seq<string>)
    requires |seps| == |words| + 1 && (forall s <- seps :: AllSpace(s)) && (forall w <- words :: IsWord(w))
    requires forall i :: 0 < i < |words| ==> seps[i] != ""
    ensures var line := JoinWords(words);
            Preview(Weave(seps, words)) == if |line| <= 200 then line else line[..200] + ['\U{2026}']
  {
    CollapseIsJoin(seps, words, false);
    assert "" + JoinWords(words) == JoinWords(words);
  }

  lemma TrailingEllipsis(s: string)
    requires Plain(s)
    ensures WithoutEllipsis(s + [Ellipsis]) == s
  {
    assert (s + [Ellipsis])[..|s|] == s;
    PlainKept(s, true);
  }

  lemma ShortPreview(s: string)
    requires Plain(s) && |s| <= PreviewChars && |s| % 4 == 0
    ensures WholeGroups(Preview(s)) == s
  {
    PlainKept(s, false);
    assert s[..|s|] == s;
  }

  lemma CutGroups(t: string)
    requires Plain(t) && |t| % 4 == 0 && WithoutEllipsis(t + [Ellipsis]) == t
    ensures WholeGroups(t + [Ellipsis]) == t
  {
    PlainKept(t, false);
    assert t[..|t|] == t;
  }

  lemma LongPreview(s: string)
    requires Plain(s) && |s| > PreviewChars
    ensures WholeGroups(Preview(s)) == s[..PreviewChars]
  {
    var t := s[..PreviewChars];
    PlainKept(s, false);
    TrailingEllipsis(t);
    CutGroups(t);
  }

  lemma GroupCount(n: nat, k: nat)
    requires n <= 3 * k
    ensures 4 * ((n + 2) / 3) <= 4 * k && 4 * ((n + 2) / 3) % 4 == 0
  {
  }

  lemma FitsPreview(b: seq<Byte>, enc: Encoder, dec: Decoder, k: nat)
    requires Inverse(enc, dec) && (forall c: seq<Byte> :: Plain(enc(c))) && 4 * k == PreviewChars && |b| <= 3 * k
    ensures var s := EncodeWith(b, enc); Plain(s) && |s| <= PreviewChars && |s| % 4 == 0
  {
    LengthWith(b, enc, dec);
    EncodePlain(b, enc);
    GroupCount(|b|, k);
  }

  lemma WholePreview(b: seq<Byte>, enc: Encoder, dec: Decoder, k: nat)
    requires Inverse(enc, dec) && (forall c: seq<Byte> :: Plain(enc(c))) && 4 * k == PreviewChars && |b| <= 3 * k
    ensures WholeGroups(Preview(EncodeWith(b, enc))) == EncodeWith(b, enc)
  {
    FitsPreview(b, enc, dec, k);
    ShortPreview(EncodeWith(b, enc));
  }

  lemma CutPreview(b: seq<Byte>, enc: Encoder, dec: Decoder, k: nat)
    requires Inverse(enc, dec) && (forall c: seq<Byte> :: Plain(enc(c))) && 4 * k == PreviewChars && |b| > 3 * k
    ensures WholeGroups(Preview(EncodeWith(b, enc))) == EncodeWith(b[..3 * k], enc)
  {
    LengthWith(b, enc, dec);
    EncodePlain(b, enc);
    LongPreview(EncodeWith(b, enc));
    PrefixWith(b, k, enc, dec);
  }

  /** Cutting to a preview and decoding the preview's whole groups keeps the first k groups. */
  lemma PreviewWith(b: seq<Byte>, enc: Encoder, dec: Decoder, k: nat)
    requires Inverse(enc, dec) && (forall c: seq<Byte> :: Plain(enc(c))) && 4 * k == PreviewChars
    ensures DecodeWith(WholeGroups(Preview(EncodeWith(b, enc))), dec) == Some(if |b| <= 3 * k then b else b[..3 * k])
  {
    if |b| <= 3 * k {
      WholePreview(b, enc, dec, k);
      RoundTripWith(b, enc, dec);
    } else {
      CutPreview(b, enc, dec, k);
      RoundTripWith(b[..3 * k], enc, dec);
    }
  }

  /** Rendering, cutting to a preview and decoding give back exactly the first 150 bytes of any value. */
  lemma PreviewKeepsPrefix(b: seq<Byte>)
    ensures Decode(WholeGroups(Preview(Encode(b)))) == Some(if |b| <= 150 then b else b[..150])
  {
    StandardInverse();
    forall c: seq<Byte> ensures Plain(EncodeGroup(c)) {
      GroupPlain(c);
    }
    PreviewWith(b, EncodeGroup, DecodeGroup, 50);
  }

  // ---------- renderValue ----------

  datatype Rendered = Text(bytes: seq<Byte>) | Base64(chars: string)

  function Render(b: seq<Byte>): Rendered { if Valid(b) then Text(b) else Base64(Encode(b)) }

  /** Nothing is lost or confused: text is exactly the valid UTF-8, and every rendering reads back. */
  lemma RenderLossless(a: seq<Byte>, b: seq<Byte>)
    ensures Render(b).Text? <==> Valid(b)
    ensures Render(b).Base64? ==> Decode(Render(b).chars) == Some(b)
    ensures Render(a) == Render(b) ==> a == b
  {
    StandardInverse();
    RoundTripWith(a, EncodeGroup, DecodeGroup);
    RoundTripWith(b, EncodeGroup, DecodeGroup);
  }
}
