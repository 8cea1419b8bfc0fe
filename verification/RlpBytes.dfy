/**
 RLP as bytes, over any assignment of 32 bytes to every hash: what the encoder
 writes, and what the splitter that decodes trie nodes reads. The splitter accepts
 exactly what the encoder writes, so an item is read back as it was written.
 */
module RlpBytes {
  import opened Rlp

  /** 32 bytes for every hash. */
  ghost predicate Naming(name: Hash -> Bytes) {
    forall h :: |name(h)| == HASH_SIZE
  }

  // ---------- numbers ----------

  /** Big-endian form without leading zeros. */
  function BigEndian(n: nat): (b: Bytes)
    ensures |b| == ByteCount(n) && (n > 0 ==> |b| > 0 && b[0] != 0)
  {
    if n == 0 then [] else
      var b: Bytes := BigEndian(n / 256);
      b + [n % 256]
  }

  function Value(b: Bytes): nat {
    if b == [] then 0 else Value(b[..|b| - 1]) * 256 + b[|b| - 1]
  }

  lemma {:induction false} ValueBigEndian(n: nat)
    ensures Value(BigEndian(n)) == n
  {
    if n > 0 {
      ValueBigEndian(n / 256);
      var b := BigEndian(n);
      assert b[..|b| - 1] == BigEndian(n / 256);
    }
  }

  lemma {:induction false} BigEndianValue(b: Bytes)
    requires b != [] ==> b[0] != 0
    ensures BigEndian(Value(b)) == b
  {
    if b != [] {
      var a := b[..|b| - 1];
      BigEndianValue(a);
      assert BigEndian(Value(a)) == a;
      assert Value(b) > 0 && Value(b) / 256 == Value(a) && Value(b) % 256 == b[|b| - 1] by {
        if a == [] { assert b[|b| - 1] == b[0]; } else { assert Value(a) != 0; }
      }
      assert b == a + [b[|b| - 1]];
    }
  }

  /** 256 to the power k; Word(8) bounds the 64-bit sizes. */
  function Word(k: nat): nat {
    if k == 0 then 1 else 256 * Word(k - 1)
  }

  lemma {:induction false} CountBelow(n: nat, k: nat)
    ensures n < Word(k) <==> ByteCount(n) <= k
  {
    if k == 0 {
    } else if n > 0 {
      CountBelow(n / 256, k - 1);
      assert n < 256 * Word(k - 1) <==> n / 256 < Word(k - 1);
    } else {
      CountBelow(0, k - 1);
    }
  }

  lemma {:induction false} ValueBelow(b: Bytes)
    ensures Value(b) < Word(|b|)
  {
    if b != [] { ValueBelow(b[..|b| - 1]); }
  }

  // ---------- encoding ----------

  /** A header: one byte for a payload below 56 bytes, otherwise the length of the length and the length. */
  function Head(small: Byte, large: Byte, size: nat): (b: Bytes)
    requires small < 200
    ensures |b| + size == Framed(size)
  {
    if size < 56 then [small + size] else [(large + ByteCount(size)) % 256] + BigEndian(size)
  }

  function EncodedString(s: Bytes): Bytes {
    if |s| == 1 && s[0] < 128 then s else Head(0x80, 0xB7, |s|) + s
  }

  function EncodedList(payload: Bytes): Bytes {
    Head(0xC0, 0xF7, |payload|) + payload
  }

  function Encoded(i: Item, name: Hash -> Bytes): Bytes
    decreases i, 1
  {
    match i
    case Str(s) => EncodedString(s)
    case Ref(h) => EncodedString(name(h))
    case List(items) => EncodedList(EncodedAll(items, name))
  }

  function EncodedAll(items: seq<Item>, name: Hash -> Bytes): Bytes
    decreases items, 0
  {
    if items == [] then [] else Encoded(items[0], name) + EncodedAll(items[1..], name)
  }

  /** The length by which the trie decides what is embedded is the length of the bytes. */
  lemma {:induction false} EncodedLength(i: Item, name: Hash -> Bytes)
    requires Naming(name)
    ensures |Encoded(i, name)| == Size(i)
    decreases i, 1
  {
    match i
    case Str(_) =>
    case Ref(h) => assert |name(h)| == HASH_SIZE;
    case List(items) => AllLength(items, name);
  }

  lemma {:induction false} AllLength(items: seq<Item>, name: Hash -> Bytes)
    requires Naming(name)
    ensures |EncodedAll(items, name)| == Sizes(items)
    decreases items, 0
  {
    if items != [] {
      EncodedLength(items[0], name);
      AllLength(items[1..], name);
    }
  }

  // ---------- splitting ----------

  datatype Kind = OneByte | StringKind | ListKind

  datatype Header = NoHeader | Header(kind: Kind, tag: nat, size: nat)

  datatype Piece = NoPiece | Piece(kind: Kind, content: Bytes, rest: Bytes)

  datatype Length = NoLength | Length(size: nat)

  /** Lengths below 56 or with leading zeros are refused. */
  function ReadSize(b: Bytes, count: nat): Length
    requires 0 < count
  {
    if count > |b| then NoLength else
      var size := Value(b[..count]);
      if size < 56 || b[0] == 0 then NoLength else Length(size)
  }

  function Long(kind: Kind, buf: Bytes, count: nat): (h: Header)
    requires buf != [] && 0 < count
    ensures h.Header? ==> h.tag <= |buf| && 0 < h.tag
  {
    var n := ReadSize(buf[1..], count);
    if n.NoLength? then NoHeader else Header(kind, 1 + count, n.size)
  }

  /** The header by its first byte, before its size is compared with the input. */
  function Announced(buf: Bytes): (h: Header)
    requires buf != []
    ensures h.Header? ==> h.tag <= |buf| && 0 < h.tag + h.size
  {
    var b := buf[0];
    if b < 0x80 then Header(OneByte, 0, 1)
    else if b < 0xB8 then
      if b == 0x81 && |buf| > 1 && buf[1] < 128 then NoHeader else Header(StringKind, 1, b - 0x80)
    else if b < 0xC0 then Long(StringKind, buf, b - 0xB7)
    else if b < 0xF8 then Header(ListKind, 1, b - 0xC0)
    else Long(ListKind, buf, b - 0xF7)
  }

  function ReadKind(buf: Bytes): (h: Header)
    ensures h.Header? ==> h.tag + h.size <= |buf| && 0 < h.tag + h.size
  {
    if buf == [] then NoHeader else
      var h := Announced(buf);
      if h.NoHeader? || h.size > |buf| - h.tag then NoHeader else h
  }

  /** The first value of buf and the bytes after it. */
  function Split(buf: Bytes): Piece {
    var h := ReadKind(buf);
    if h.NoHeader? then NoPiece
    else Piece(h.kind, buf[h.tag..h.tag + h.size], buf[h.tag + h.size..])
  }

  /** The canonical bytes of a piece. */
  function Written(kind: Kind, content: Bytes): Bytes {
    if kind == ListKind then EncodedList(content) else EncodedString(content)
  }

  /** One byte below 128 is its own kind. */
  predicate Kinded(kind: Kind, content: Bytes) {
    kind != ListKind ==> (kind == OneByte <==> |content| == 1 && content[0] < 128)
  }

  /** A header and what follows it, as the splitter meets them. */
  lemma HeadRead(small: Byte, large: Byte, size: nat, tail: Bytes)
    requires small < 200 && large < 248 && size < Word(8)
    ensures size < 56 ==> (Head(small, large, size) + tail)[0] == small + size && |Head(small, large, size)| == 1
    ensures size >= 56 ==>
      var buf := Head(small, large, size) + tail;
      && 0 < ByteCount(size) <= 8 && buf[0] == large + ByteCount(size)
      && ReadSize(buf[1..], ByteCount(size)) == Length(size) && |Head(small, large, size)| == 1 + ByteCount(size)
  {
    hide Word, Value, BigEndian, ByteCount;
    if size >= 56 {
      CountBelow(size, 8);
      ValueBigEndian(size);
      var buf := Head(small, large, size) + tail;
      assert buf[1..] == BigEndian(size) + tail;
      assert buf[1..][..ByteCount(size)] == BigEndian(size);
    }
  }

  lemma ListSplit(content: Bytes, rest: Bytes)
    requires |content| < Word(8)
    ensures Split(EncodedList(content) + rest) == Piece(ListKind, content, rest)
  {
    hide ReadSize, Word, Head, Value, BigEndian, ByteCount;
    var head := Head(0xC0, 0xF7, |content|);
    var buf := EncodedList(content) + rest;
    HeadRead(0xC0, 0xF7, |content|, content + rest);
    assert buf == head + (content + rest);
    assert ReadKind(buf) == Header(ListKind, |head|, |content|);
    assert buf[|head|..|head| + |content|] == content && buf[|head| + |content|..] == rest;
  }

  lemma StringSplit(content: Bytes, rest: Bytes)
    requires |content| < Word(8)
    ensures var kind := if |content| == 1 && content[0] < 128 then OneByte else StringKind;
      Split(EncodedString(content) + rest) == Piece(kind, content, rest)
  {
    hide ReadSize, Word, Head, Value, BigEndian, ByteCount;
    var buf := EncodedString(content) + rest;
    if |content| == 1 && content[0] < 128 {
      assert buf[0..1] == content && buf[1..] == rest;
    } else {
      var head := Head(0x80, 0xB7, |content|);
      HeadRead(0x80, 0xB7, |content|, content + rest);
      assert buf == head + (content + rest);
      assert |content| == 1 ==> buf[1] == content[0];
      assert ReadKind(buf) == Header(StringKind, |head|, |content|);
      assert buf[|head|..|head| + |content|] == content && buf[|head| + |content|..] == rest;
    }
  }

  /** A header the splitter accepts is the one the encoder writes for that size. */
  lemma LongWritten(small: Byte, large: Byte, buf: Bytes, count: nat)
    requires small < 200 && large < 248 && buf != [] && 0 < count <= 8 && buf[0] == large + count
    requires ReadSize(buf[1..], count).Length?
    ensures var size := ReadSize(buf[1..], count).size;
      56 <= size < Word(8) && Head(small, large, size) == buf[..1 + count]
  {
    var b := buf[1..][..count];
    BigEndianValue(b);
    ValueBelow(b);
    CountBelow(Value(b), 8);
    CountBelow(Value(b), count);
    assert buf[..1 + count] == [buf[0]] + b;
  }

  /** What is split off is the canonical form of its content: the splitter accepts nothing else. */
  lemma SplitWritten(buf: Bytes)
    requires Split(buf).Piece?
    ensures var p := Split(buf);
      buf == Written(p.kind, p.content) + p.rest && Kinded(p.kind, p.content) && |p.content| < Word(8)
  {
    hide ReadSize, Word, Value, BigEndian, ByteCount;
    var h, p, b := ReadKind(buf), Split(buf), buf[0];
    assert buf == buf[..h.tag] + p.content + p.rest;
    assert 256 < Word(8) by { CountBelow(256, 8); Counted(); }
    if 0xB8 <= b < 0xC0 {
      LongWritten(0x80, 0xB7, buf, b - 0xB7);
    } else if 0xF8 <= b {
      LongWritten(0xC0, 0xF7, buf, b - 0xF7);
    } else if 0x80 <= b {
      assert buf[..1] == [b];
    }
  }

  lemma Counted()
    ensures ByteCount(256) == 2
  {
    assert ByteCount(1) == 1;
  }

  /** Split succeeds exactly on what starts with a canonical value, and then returns that value. */
  lemma SplitExactly(buf: Bytes, kind: Kind, content: Bytes, rest: Bytes)
    ensures Split(buf) == Piece(kind, content, rest) <==>
      buf == Written(kind, content) + rest && Kinded(kind, content) && |content| < Word(8)
  {
    if Split(buf) == Piece(kind, content, rest) {
      SplitWritten(buf);
    }
    if buf == Written(kind, content) + rest && Kinded(kind, content) && |content| < Word(8) {
      if kind == ListKind { ListSplit(content, rest); } else { StringSplit(content, rest); }
    }
  }

  // ---------- a payload of several values ----------

  datatype Values = NoValues | Values(pieces: seq<Piece>)

  /** All the values of a payload, in order; none when one of them is malformed. */
  function AllValues(buf: Bytes): Values
    decreases |buf|
  {
    if buf == [] then Values([]) else
      var p := Split(buf);
      if p.NoPiece? then NoValues else
        var more := AllValues(p.rest);
        if more.NoValues? then NoValues else Values([p] + more.pieces)
  }

  method CountValues(b: Bytes) returns (ok: bool, n: nat)
    ensures ok <==> AllValues(b).Values?
    ensures n == if ok then |AllValues(b).pieces| else 0
  {
    hide ReadKind;
    var buf := b;
    ok, n := true, 0;
    while buf != []
      invariant ok && (AllValues(b).Values? <==> AllValues(buf).Values?)
      invariant AllValues(b).Values? ==> |AllValues(b).pieces| == n + |AllValues(buf).pieces|
      decreases |buf|
    {
      var h := ReadKind(buf);
      if h.NoHeader? {
        return false, 0;
      }
      buf := buf[h.tag + h.size..];
      n := n + 1;
    }
  }

  /** What the splitter reports of an item. */
  function KindOf(i: Item, name: Hash -> Bytes): Kind {
    if i.List? then ListKind else
      var s := Content(i, name);
      if |s| == 1 && s[0] < 128 then OneByte else StringKind
  }

  function Content(i: Item, name: Hash -> Bytes): Bytes {
    match i
    case Str(s) => s
    case Ref(h) => name(h)
    case List(items) => EncodedAll(items, name)
  }

  /** An encoded item is split off whole, whatever follows it. */
  lemma SplitEncoded(i: Item, name: Hash -> Bytes, rest: Bytes)
    requires Naming(name) && Size(i) < Word(8)
    ensures Split(Encoded(i, name) + rest) == Piece(KindOf(i, name), Content(i, name), rest)
  {
    EncodedLength(i, name);
    var s := Content(i, name);
    assert Encoded(i, name) == Written(KindOf(i, name), s) && |s| <= Size(i);
    SplitExactly(Encoded(i, name) + rest, KindOf(i, name), s, rest);
  }

  /** A list of items is read back item by item. */
  lemma {:induction false} ValuesEncoded(items: seq<Item>, name: Hash -> Bytes)
    requires Naming(name) && Sizes(items) < Word(8)
    ensures var v := AllValues(EncodedAll(items, name));
      && v.Values? && |v.pieces| == |items|
      && forall k | 0 <= k < |items| ::
           v.pieces[k].Piece? && v.pieces[k].kind == KindOf(items[k], name) && v.pieces[k].content == Content(items[k], name)
  {
    hide Split, Word, Size;
    if items != [] {
      SplitEncoded(items[0], name, EncodedAll(items[1..], name));
      ValuesEncoded(items[1..], name);
    }
  }

  // ---------- bytes determine the item ----------

  /** The item with every hash as its 32 bytes. */
  function Spelled(i: Item, name: Hash -> Bytes): Item {
    match i
    case Str(_) => i
    case Ref(h) => Str(name(h))
    case List(items) => List(seq(|items|, k requires 0 <= k < |items| => Spelled(items[k], name)))
  }

  /** No encoding is a prefix of another: bytes determine the item and where it ends. */
  lemma {:induction false} EncodedOnce(i: Item, j: Item, name: Hash -> Bytes, r: Bytes, s: Bytes)
    requires Naming(name) && Size(i) < Word(8) && Size(j) < Word(8)
    requires Encoded(i, name) + r == Encoded(j, name) + s
    ensures Spelled(i, name) == Spelled(j, name) && r == s
    decreases i, 1
  {
    hide Split, Word, Size, Encoded;
    SplitEncoded(i, name, r);
    SplitEncoded(j, name, s);
    if i.List? {
      Inner(i);
      Inner(j);
      AllOnce(i.items, j.items, name);
    }
  }

  lemma {:induction false} AllOnce(items: seq<Item>, others: seq<Item>, name: Hash -> Bytes)
    requires Naming(name) && Sizes(items) < Word(8) && Sizes(others) < Word(8)
    requires EncodedAll(items, name) == EncodedAll(others, name)
    ensures |items| == |others|
    ensures forall k | 0 <= k < |items| :: Spelled(items[k], name) == Spelled(others[k], name)
    decreases items, 0
  {
    hide Word, Spelled;
    if items == [] || others == [] {
      if items != [] { NotEmpty(items[0], name); }
      if others != [] { NotEmpty(others[0], name); }
    } else {
      EncodedOnce(items[0], others[0], name, EncodedAll(items[1..], name), EncodedAll(others[1..], name));
      AllOnce(items[1..], others[1..], name);
    }
  }

  lemma Inner(i: Item)
    requires i.List?
    ensures Sizes(i.items) <= Size(i)
  {
  }

  lemma NotEmpty(i: Item, name: Hash -> Bytes)
    ensures Encoded(i, name) != []
  {
  }
}
