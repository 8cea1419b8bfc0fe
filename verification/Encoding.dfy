/**
 The three key encodings of the trie: key bytes, hex (one nibble per element,
 with an optional terminator 16) and compact, the hex-prefix encoding of
 Appendix C of the Ethereum Yellow Paper.
 */
module Encoding {
  import opened Rlp

  type Nibble = x: int | 0 <= x <= 16
  type Hex = seq<Nibble>

  const TERMINATOR: Nibble := 16

  predicate HasTerm(h: Hex) {
    |h| > 0 && h[|h| - 1] == TERMINATOR
  }

  /** No terminator anywhere. */
  predicate Plain(h: Hex) {
    forall i | 0 <= i < |h| :: h[i] < 16
  }

  /** The nibbles without the terminator. */
  function Body(h: Hex): Hex {
    if HasTerm(h) then h[..|h| - 1] else h
  }

  /** A terminator may stand at the end only. */
  predicate WellFormed(h: Hex) {
    Plain(Body(h))
  }

  /** A whole key: terminated, with an even number of nibbles before the terminator. */
  predicate IsKey(h: Hex) {
    WellFormed(h) && HasTerm(h) && |h| % 2 == 1
  }

  function Join(high: int, low: int): (b: Byte)
    requires 0 <= high < 16 && 0 <= low < 16
    ensures b / 16 == high && b % 16 == low
  {
    high * 16 + low
  }

  function Pack(h: Hex): (b: Bytes)
    requires |h| % 2 == 0 && Plain(h)
    ensures |b| == |h| / 2
  {
    if h == [] then [] else [Join(h[0], h[1])] + Pack(h[2..])
  }

  function Unpack(b: Bytes): (h: Hex)
    ensures |h| == 2 * |b| && Plain(h)
  {
    if b == [] then [] else [b[0] / 16, b[0] % 16] + Unpack(b[1..])
  }

  lemma {:induction false} PackAt(h: Hex, k: nat)
    requires |h| % 2 == 0 && Plain(h) && 2 * k < |h|
    ensures Pack(h)[k] == Join(h[2 * k], h[2 * k + 1])
  {
    if k > 0 { PackAt(h[2..], k - 1); }
  }

  lemma {:induction false} UnpackAt(b: Bytes, k: nat)
    requires k < 2 * |b|
    ensures Unpack(b)[k] == if k % 2 == 0 then b[k / 2] / 16 else b[k / 2] % 16
  {
    if k >= 2 { UnpackAt(b[1..], k - 2); }
  }

  function KeyHex(key: Bytes): Hex {
    Unpack(key) + [TERMINATOR]
  }

  function KeyBytes(h: Hex): Bytes
    requires WellFormed(h) && |Body(h)| % 2 == 0
  {
    Pack(Body(h))
  }

  function Compact(h: Hex): (c: Bytes)
    requires WellFormed(h)
    ensures |c| > 0
  {
    var body := Body(h);
    var flag := if HasTerm(h) then 2 else 0;
    if |body| % 2 == 1 then [Join(flag + 1, body[0])] + Pack(body[1..])
    else [Join(flag, 0)] + Pack(body)
  }

  function Uncompact(c: Bytes): (h: Hex)
    requires |c| > 0
  {
    var base := KeyHex(c);
    var kept := if base[0] < 2 then base[..|base| - 1] else base;
    kept[2 - base[0] % 2..]
  }

  /** A compact key that some hex key has: flag nibble below 4, zero padding when even. */
  predicate WellFormedCompact(c: Bytes) {
    |c| > 0 && c[0] < 64 && (c[0] / 16 % 2 == 0 ==> c[0] % 16 == 0)
  }

  // ---------- the code ----------

  method KeybytesToHex(str: Bytes) returns (nibbles: array<Nibble>)
    ensures fresh(nibbles)
    ensures nibbles[..] == KeyHex(str)
  {
    var l := |str| * 2 + 1;
    nibbles := new Nibble[l](_ => 0);
    for i := 0 to |str|
      invariant forall j | 0 <= j < i :: nibbles[2 * j] == str[j] / 16 && nibbles[2 * j + 1] == str[j] % 16
    {
      nibbles[i * 2] := str[i] / 16;
      nibbles[i * 2 + 1] := str[i] % 16;
    }
    nibbles[l - 1] := 16;
    forall k | 0 <= k < l ensures nibbles[k] == KeyHex(str)[k] {
      if k < l - 1 { UnpackAt(str, k); }
    }
  }

  /** Writes pairs of nibbles into out from index from on. */
  method DecodeNibbles(nibbles: Hex, out: array<Byte>, from: nat)
    requires |nibbles| % 2 == 0 && Plain(nibbles)
    requires from + |nibbles| / 2 == out.Length
    modifies out
    ensures out[..] == old(out[..from]) + Pack(nibbles)
  {
    var bi, ni := 0, 0;
    while ni < |nibbles|
      invariant 0 <= ni <= |nibbles| && ni == 2 * bi
      invariant out[..from] == old(out[..from])
      invariant out[from..from + bi] == Pack(nibbles)[..bi]
    {
      out[from + bi] := Join(nibbles[ni], nibbles[ni + 1]);
      PackAt(nibbles, bi);
      bi, ni := bi + 1, ni + 2;
    }
    assert out[..] == out[..from] + out[from..from + bi];
  }

  method HexToCompact(hex: Hex) returns (buf: array<Byte>)
    requires WellFormed(hex)
    ensures fresh(buf)
    ensures buf[..] == Compact(hex)
  {
    var terminator, rest := 0, hex;
    if HasTerm(hex) {
      terminator := 1;
      rest := hex[..|hex| - 1];
    }
    buf := new Byte[|rest| / 2 + 1](_ => 0);
    buf[0] := terminator * 32;
    if |rest| % 2 == 1 {
      buf[0] := Join(terminator * 2 + 1, rest[0]);
      rest := rest[1..];
    }
    DecodeNibbles(rest, buf, 1);
  }

  method CompactToHex(compact: Bytes) returns (hex: Hex)
    requires |compact| > 0
    ensures hex == Uncompact(compact)
  {
    var nibbles := KeybytesToHex(compact);
    var base := nibbles[..];
    if base[0] < 2 {
      base := base[..|base| - 1];
    }
    var chop := 2 - base[0] % 2;
    hex := base[chop..];
  }

  method HexToKeybytes(hex: Hex) returns (key: array<Byte>)
    requires WellFormed(hex) && |Body(hex)| % 2 == 0
    ensures fresh(key)
    ensures key[..] == KeyBytes(hex)
  {
    var body := hex;
    if HasTerm(hex) {
      body := hex[..|hex| - 1];
    }
    key := new Byte[|body| / 2](_ => 0);
    DecodeNibbles(body, key, 0);
  }

  // ---------- round trips ----------

  lemma {:induction false} UnpackPack(h: Hex)
    requires |h| % 2 == 0 && Plain(h)
    ensures Unpack(Pack(h)) == h
  {
    if h != [] {
      UnpackPack(h[2..]);
      assert Pack(h)[1..] == Pack(h[2..]);
    }
  }

  /** The nibbles of a compact key: terminator and parity, a zero when even, and the key. */
  lemma CompactNibbles(h: Hex)
    requires WellFormed(h)
    ensures var odd := |Body(h)| % 2;
      Unpack(Compact(h)) == [(if HasTerm(h) then 2 else 0) + odd] + (if odd == 1 then [] else [0]) + Body(h)
  {
    hide Pack, Unpack, Join;
    var body, c := Body(h), Compact(h);
    UnpackFirst(c);
    if |body| % 2 == 1 {
      assert c[1..] == Pack(body[1..]);
      UnpackPack(body[1..]);
      assert body == [body[0]] + body[1..];
    } else {
      assert c[1..] == Pack(body);
      UnpackPack(body);
    }
  }

  lemma UnpackFirst(b: Bytes)
    requires b != []
    ensures Unpack(b) == [b[0] / 16, b[0] % 16] + Unpack(b[1..])
  {
  }

  lemma {:induction false} PackUnpack(b: Bytes)
    ensures Pack(Unpack(b)) == b
  {
    if b != [] {
      PackUnpack(b[1..]);
      assert Unpack(b)[2..] == Unpack(b[1..]);
    }
  }

  lemma KeyRoundTrip(key: Bytes)
    ensures IsKey(KeyHex(key)) && KeyBytes(KeyHex(key)) == key
  {
    assert Body(KeyHex(key)) == Unpack(key);
    PackUnpack(key);
  }

  lemma HexRoundTrip(h: Hex)
    requires IsKey(h)
    ensures KeyHex(KeyBytes(h)) == h
  {
    UnpackPack(Body(h));
  }

  lemma KeyHexInjective(k1: Bytes, k2: Bytes)
    requires KeyHex(k1) == KeyHex(k2)
    ensures k1 == k2
  {
    KeyRoundTrip(k1);
    KeyRoundTrip(k2);
  }

  function WithTerm(body: Hex, term: bool): (h: Hex)
    requires Plain(body)
    ensures WellFormed(h) && Body(h) == body && HasTerm(h) == term
  {
    if term then body + [TERMINATOR] else body
  }

  /** The nibbles a compact key holds: an odd key has its first one beside the flag. */
  function Nibbles(odd: bool, low: Nibble, rest: Bytes): (h: Hex)
    requires low < 16
    ensures Plain(h)
  {
    if odd then [low] + Unpack(rest) else Unpack(rest)
  }

  lemma Chopped(high: Nibble, low: Nibble, u: Hex)
    ensures var base := [high, low] + u + [TERMINATOR];
            && base[..|base| - 1][2..] == u && base[..|base| - 1][1..] == [low] + u
            && base[2..] == u + [TERMINATOR] && base[1..] == [low] + u + [TERMINATOR]
  {
  }

  lemma UncompactParts(flag: int, low: Nibble, rest: Bytes)
    requires 0 <= flag < 16 && low < 16
    ensures Uncompact([Join(flag, low)] + rest) == WithTerm(Nibbles(flag % 2 == 1, low, rest), flag >= 2)
  {
    hide Pack, Plain, HasTerm, Body, WellFormed;
    var c := [Join(flag, low)] + rest;
    assert c[0] == Join(flag, low) && c[1..] == rest;
    assert Unpack(c) == [c[0] / 16, c[0] % 16] + Unpack(rest);
    Chopped(flag, low, Unpack(rest));
  }

  lemma CompactParts(term: bool, odd: bool, low: Nibble, rest: Bytes)
    requires low < 16
    ensures Compact(WithTerm(Nibbles(odd, low, rest), term))
         == [Join((if term then 2 else 0) + (if odd then 1 else 0), if odd then low else 0)] + rest
  {
    hide Pack, Unpack, HasTerm, Body, Join, WithTerm;
    PackUnpack(rest);
    var body := Nibbles(odd, low, rest);
    assert |body| % 2 == if odd then 1 else 0;
    if odd { assert body[0] == low && body[1..] == Unpack(rest); }
  }

  lemma PartsRoundTrip(term: bool, odd: bool, low: Nibble, rest: Bytes)
    requires low < 16 && (!odd ==> low == 0)
    ensures var h := WithTerm(Nibbles(odd, low, rest), term);
            WellFormedCompact(Compact(h)) && Uncompact(Compact(h)) == h
  {
    hide Compact, Uncompact, WithTerm, Nibbles;
    var flag := (if term then 2 else 0) + (if odd then 1 else 0);
    CompactParts(term, odd, low, rest);
    UncompactParts(flag, low, rest);
  }

  lemma OddBody(body: Hex)
    requires Plain(body) && |body| % 2 == 1
    ensures Plain(body[1..]) && |body[1..]| % 2 == 0 && Nibbles(true, body[0], Pack(body[1..])) == body
  {
    hide Pack, Unpack;
    UnpackPack(body[1..]);
  }

  lemma BodyRoundTrip(body: Hex, term: bool)
    requires Plain(body)
    ensures var h := WithTerm(body, term);
            WellFormedCompact(Compact(h)) && Uncompact(Compact(h)) == h
  {
    hide Compact, Uncompact, WithTerm, Pack, Unpack, WellFormedCompact;
    if |body| % 2 == 1 {
      OddBody(body);
      PartsRoundTrip(term, true, body[0], Pack(body[1..]));
    } else {
      UnpackPack(body);
      PartsRoundTrip(term, false, 0, Pack(body));
    }
  }

  /** compactToHex undoes hexToCompact, with or without terminator, either parity. */
  lemma CompactRoundTrip(h: Hex)
    requires WellFormed(h)
    ensures WellFormedCompact(Compact(h)) && Uncompact(Compact(h)) == h
  {
    hide Compact, Uncompact, WellFormedCompact;
    assert h == WithTerm(Body(h), HasTerm(h));
    BodyRoundTrip(Body(h), HasTerm(h));
  }

  lemma FlagKept(b: Byte)
    ensures var flag := b / 16;
            Join((if flag >= 2 then 2 else 0) + flag % 2, if flag % 2 == 1 then b % 16 else 0) == b
            <==> b < 64 && (flag % 2 == 0 ==> b % 16 == 0)
  {
  }

  /** hexToCompact undoes compactToHex exactly on the well-formed compact keys. */
  lemma UncompactRoundTrip(c: Bytes)
    requires |c| > 0
    ensures WellFormed(Uncompact(c))
    ensures Compact(Uncompact(c)) == c <==> WellFormedCompact(c)
  {
    var flag, low, rest := c[0] / 16, c[0] % 16, c[1..];
    assert c == [Join(flag, low)] + rest;
    UncompactParts(flag, low, rest);
    CompactParts(flag >= 2, flag % 2 == 1, low, rest);
    FlagKept(c[0]);
    var head := Compact(Uncompact(c))[0];
    assert [head] + rest == c <==> head == c[0];
  }

  /** Length of the longest common prefix. */
  method PrefixLen(a: Hex, b: Hex) returns (i: nat)
    ensures i == Common(a, b)
  {
    i := 0;
    var length := |a|;
    if |b| < length { length := |b|; }
    while i < length
      invariant i <= length && a[..i] == b[..i]
    {
      if a[i] != b[i] { break; }
      i := i + 1;
    }
    CommonIs(a, b, i);
  }

  function Common(a: Hex, b: Hex): (n: nat)
    ensures n <= |a| && n <= |b| && a[..n] == b[..n]
    ensures n < |a| && n < |b| ==> a[n] != b[n]
  {
    if |a| > 0 && |b| > 0 && a[0] == b[0] then 1 + Common(a[1..], b[1..]) else 0
  }

  lemma {:induction false} CommonIs(a: Hex, b: Hex, i: nat)
    requires i <= |a| && i <= |b| && a[..i] == b[..i]
    requires i < |a| && i < |b| ==> a[i] != b[i]
    ensures i == Common(a, b)
  {
    if i > 0 {
      assert a[0] == a[..i][0] && b[0] == b[..i][0];
      assert a[1..][..i - 1] == a[..i][1..] && b[1..][..i - 1] == b[..i][1..];
      CommonIs(a[1..], b[1..], i - 1);
    }
  }

  lemma CommonPrefix(a: Hex, b: Hex)
    ensures Common(a, b) == |b| <==> b <= a
  {
    var n := Common(a, b);
    if n == |b| { assert b[..n] == b; }
  }

  /** Comparing from index m on is comparing at m and then from m + 1 on. */
  lemma SuffixStep(k: Hex, m: nat, y: Hex)
    requires m < |k|
    ensures k[m..] <= y <==> y != [] && y[0] == k[m] && k[m + 1..] <= y[1..]
    ensures k[m..] == y <==> y != [] && y[0] == k[m] && k[m + 1..] == y[1..]
    ensures k[m..] <= y ==> y[|k| - m..] == y[1..][|k[m + 1..]|..]
  {
    assert k[m..] == [k[m]] + k[m + 1..];
    if y != [] { assert y == [y[0]] + y[1..]; }
  }

  /** Comparing whole keys is comparing their first m elements and then the rest. */
  lemma PrefixStep(a: Hex, m: nat, k: Hex)
    requires m <= |a|
    ensures a <= k <==> a[..m] <= k && a[m..] <= k[m..]
    ensures a == k <==> a[..m] <= k && a[m..] == k[m..]
    ensures a <= k ==> k[|a|..] == k[m..][|a| - m..]
  {
    assert a == a[..m] + a[m..];
    if a[..m] <= k { assert k == a[..m] + k[m..]; }
  }
}
