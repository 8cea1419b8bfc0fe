/**
 The buffer of the RLP encoder. A list header comes before its payload but its size is
 known only after it, so headers are kept apart from the string data, with their places
 in it, and the two are merged in the end. The result is the encoding as defined.
 */
module RlpBuffers {
  import opened Rlp
  import opened RlpBytes

  /** The place of a header in the string data. While its list is open, size is that of the headers before it. */
  datatype ListHead = ListHead(offset: nat, size: nat)

  predicate InOrder(str: Bytes, heads: seq<ListHead>) {
    && (forall i | 0 <= i < |heads| :: heads[i].offset <= |str|)
    && forall i, j | 0 <= i < j < |heads| :: heads[i].offset <= heads[j].offset
  }

  /** All heads from k on are at position s or later. */
  predicate From(heads: seq<ListHead>, k: nat, s: nat) {
    forall i | k <= i < |heads| :: s <= heads[i].offset
  }

  function Mark(h: ListHead): Bytes {
    Head(0xC0, 0xF7, h.size)
  }

  /** String data from position s on, merged with the heads from index k on. */
  function Render(str: Bytes, heads: seq<ListHead>, s: nat, k: nat): Bytes
    requires InOrder(str, heads) && s <= |str| && k <= |heads| && From(heads, k, s)
    decreases |heads| - k
  {
    if k == |heads| then str[s..]
    else str[s..heads[k].offset] + Mark(heads[k]) + Render(str, heads, heads[k].offset, k + 1)
  }

  lemma {:induction false} RenderMore(str: Bytes, heads: seq<ListHead>, s: nat, k: nat, more: Bytes)
    requires InOrder(str, heads) && s <= |str| && k <= |heads| && From(heads, k, s)
    ensures Render(str + more, heads, s, k) == Render(str, heads, s, k) + more
    decreases |heads| - k
  {
    hide Mark;
    if k < |heads| {
      RenderMore(str, heads, heads[k].offset, k + 1, more);
      assert (str + more)[s..heads[k].offset] == str[s..heads[k].offset];
    }
  }

  lemma Slices(str: Bytes, a: nat, b: nat, c: nat)
    requires a <= b <= c <= |str|
    ensures str[a..c] == str[a..b] + str[b..c]
  {
  }

  lemma RenderLater(str: Bytes, heads: seq<ListHead>, s: nat, s': nat, k: nat)
    requires InOrder(str, heads) && s <= s' <= |str| && k <= |heads| && From(heads, k, s')
    ensures From(heads, k, s) && Render(str, heads, s, k) == str[s..s'] + Render(str, heads, s', k)
  {
    hide Mark;
    if k < |heads| {
      var o := heads[k].offset;
      Slices(str, s, s', o);
      Regroup(str[s..s'], str[s'..o], Mark(heads[k]));
      Regroup(str[s..s'], str[s'..o] + Mark(heads[k]), Render(str, heads, o, k + 1));
    } else {
      Slices(str, s, s', |str|);
    }
  }

  /** Merging up to a place and from there on. */
  lemma {:induction false} RenderJoin(str: Bytes, heads: seq<ListHead>, s: nat, k: nat, s': nat, k': nat)
    requires InOrder(str, heads) && s <= s' <= |str| && k <= k' <= |heads| && From(heads, k, s)
    requires InOrder(str[..s'], heads[..k']) && From(heads, k', s')
    ensures Render(str, heads, s, k) == Render(str[..s'], heads[..k'], s, k) + Render(str, heads, s', k')
    decreases k' - k
  {
    hide Mark;
    if k == k' {
      RenderLater(str, heads, s, s', k);
      assert str[..s'][s..] == str[s..s'];
    } else {
      var o := heads[k].offset;
      assert heads[..k'][k] == heads[k];
      RenderJoin(str, heads, o, k + 1, s', k');
      assert str[..s'][s..o] == str[s..o];
      Regroup(str[s..o] + Mark(heads[k]), Render(str[..s'], heads[..k'], o, k + 1), Render(str, heads, s', k'));
    }
  }

  lemma Regroup(a: Bytes, b: Bytes, c: Bytes)
    ensures a + (b + c) == a + b + c
  {
  }

  lemma {:induction false} RenderSame(str: Bytes, a: seq<ListHead>, b: seq<ListHead>, s: nat, k: nat)
    requires InOrder(str, a) && InOrder(str, b) && s <= |str| && k <= |a| == |b| && From(a, k, s)
    requires forall i | k <= i < |a| :: a[i] == b[i]
    ensures From(b, k, s) && Render(str, a, s, k) == Render(str, b, s, k)
    decreases |a| - k
  {
    hide Mark;
    if k < |a| { RenderSame(str, a, b, a[k].offset, k + 1); }
  }

  /** From one buffer to another: exactly these bytes were added, and their number to the size. */
  ghost predicate Wrote(s0: Bytes, h0: seq<ListHead>, l0: nat, str: Bytes, heads: seq<ListHead>, lhsize: nat, bytes: Bytes) {
    && InOrder(str, heads) && s0 <= str && h0 <= heads && l0 <= lhsize && From(heads, |h0|, |s0|)
    && Render(str, heads, |s0|, |h0|) == bytes && |str| + lhsize == |s0| + l0 + |bytes|
  }

  lemma WroteNone(str: Bytes, heads: seq<ListHead>, lhsize: nat)
    requires InOrder(str, heads)
    ensures Wrote(str, heads, lhsize, str, heads, lhsize, [])
  {
  }

  lemma WroteString(str: Bytes, heads: seq<ListHead>, lhsize: nat, bytes: Bytes)
    requires InOrder(str, heads)
    ensures Wrote(str, heads, lhsize, str + bytes, heads, lhsize, bytes)
  {
  }

  lemma WroteMore(s0: Bytes, h0: seq<ListHead>, l0: nat, s1: Bytes, h1: seq<ListHead>, l1: nat, a: Bytes,
                  s2: Bytes, h2: seq<ListHead>, l2: nat, b: Bytes)
    requires Wrote(s0, h0, l0, s1, h1, l1, a) && Wrote(s1, h1, l1, s2, h2, l2, b)
    ensures Wrote(s0, h0, l0, s2, h2, l2, a + b)
  {
    assert s2[..|s1|] == s1 && h2[..|h1|] == h1;
    forall i | |h0| <= i < |h2| ensures |s0| <= h2[i].offset { if i < |h1| { assert h2[i] == h1[i]; } }
    RenderJoin(s2, h2, |s0|, |h0|, |s1|, |h1|);
  }

  /** Closing a list: its payload was written after its head. */
  lemma WroteList(s0: Bytes, h0: seq<ListHead>, l0: nat, str: Bytes, heads: seq<ListHead>, lhsize: nat, payload: Bytes)
    requires InOrder(s0, h0) && Wrote(s0, h0 + [ListHead(|s0|, l0)], l0, str, heads, lhsize, payload)
    ensures |str| + lhsize - |s0| - l0 == |payload|
    ensures Wrote(s0, h0, l0, str, heads[|h0| := ListHead(|s0|, |payload|)], lhsize + Framed(|payload|) - |payload|,
                  EncodedList(payload))
  {
    hide Head, Framed, Render;
    var k, closed := |h0|, heads[|h0| := ListHead(|s0|, |payload|)];
    assert heads[k] == (h0 + [ListHead(|s0|, l0)])[k] == ListHead(|s0|, l0);
    Closed(str, heads, k, |payload|, h0);
    RenderSame(str, heads, closed, |s0|, k + 1);
    RenderHead(str, closed, k);
  }

  /** Only the size of a head changes. */
  lemma Closed(str: Bytes, heads: seq<ListHead>, k: nat, size: nat, h0: seq<ListHead>)
    requires InOrder(str, heads) && k < |heads| && k == |h0| && h0 <= heads[..k]
    ensures var closed := heads[k := ListHead(heads[k].offset, size)];
      InOrder(str, closed) && h0 <= closed && From(closed, k, heads[k].offset)
  {
    var closed := heads[k := ListHead(heads[k].offset, size)];
    assert forall i | 0 <= i < |heads| :: closed[i].offset == heads[i].offset;
    assert closed[..k] == heads[..k];
  }

  lemma RenderHead(str: Bytes, heads: seq<ListHead>, k: nat)
    requires InOrder(str, heads) && k < |heads|
    ensures From(heads, k, heads[k].offset)
    ensures Render(str, heads, heads[k].offset, k) == Mark(heads[k]) + Render(str, heads, heads[k].offset, k + 1)
  {
    hide Mark;
    var o := heads[k].offset;
    assert str[o..o] == [];
    assert [] + Mark(heads[k]) == Mark(heads[k]);
  }

  lemma {:induction false} EncodedLast(items: seq<Item>, i: Item, name: Hash -> Bytes)
    ensures EncodedAll(items + [i], name) == EncodedAll(items, name) + Encoded(i, name)
  {
    hide Encoded;
    if items == [] {
      assert EncodedAll([i], name) == Encoded(i, name) + EncodedAll([], name);
    } else {
      EncodedLast(items[1..], i, name);
      assert (items + [i])[1..] == items[1..] + [i];
    }
  }

  class EncBuf {
    var str: Bytes
    var heads: seq<ListHead>
    /** The size of all headers of lists that are closed. */
    var lhsize: nat

    ghost predicate Valid()
      reads this
    {
      InOrder(str, heads)
    }

    constructor ()
      ensures Valid() && str == [] && heads == [] && lhsize == 0
    {
      str, heads, lhsize := [], [], 0;
    }

    function Size(): nat
      reads this
    {
      |str| + lhsize
    }

    method EncodeStringHeader(size: nat)
      modifies `str
      ensures str == old(str) + Head(0x80, 0xB7, size)
    {
      if size < 56 {
        str := str + [0x80 + size];
      } else {
        str := str + [(0xB7 + ByteCount(size)) % 256] + BigEndian(size);
        assert str == old(str) + Head(0x80, 0xB7, size);
      }
    }

    method EncodeString(b: Bytes)
      requires Valid()
      modifies `str
      ensures Wrote(old(str), heads, lhsize, str, heads, lhsize, EncodedString(b))
    {
      hide Head;
      WroteString(str, heads, lhsize, EncodedString(b));
      if |b| == 1 && b[0] <= 0x7F {
        str := str + [b[0]];
        assert str == old(str) + b;
      } else {
        EncodeStringHeader(|b|);
        str := str + b;
        assert str == old(str) + (Head(0x80, 0xB7, |b|) + b);
      }
    }

    /** Opens a list; returns the index of its head. */
    method List() returns (lh: nat)
      requires Valid()
      modifies `heads
      ensures Valid() && lh == |old(heads)| && heads == old(heads) + [ListHead(|str|, lhsize)]
    {
      lh := |heads|;
      heads := heads + [ListHead(|str|, lhsize)];
    }

    /** Closes a list, whose head then has the size of all that was written since. */
    method ListEnd(lh: nat)
      requires lh < |heads| && heads[lh].offset + heads[lh].size <= Size()
      modifies `heads, `lhsize
      ensures var size := old(Size()) - old(heads)[lh].offset - old(heads)[lh].size;
        && heads == old(heads)[lh := ListHead(old(heads)[lh].offset, size)]
        && lhsize == old(lhsize) + Framed(size) - size
    {
      var size := Size() - heads[lh].offset - heads[lh].size;
      heads := heads[lh := ListHead(heads[lh].offset, size)];
      if size < 56 {
        lhsize := lhsize + 1;
      } else {
        lhsize := lhsize + 1 + ByteCount(size);
      }
    }

    /** Writes an item: a string, or a list with its items in between. */
    method Write(i: Item, name: Hash -> Bytes)
      requires Valid()
      modifies this
      ensures Valid() && Wrote(old(str), old(heads), old(lhsize), str, heads, lhsize, Encoded(i, name))
      decreases i
    {
      hide Wrote, EncodedString, EncodedList, Framed;
      match i
      case Str(s) => EncodeString(s); InOrderOf(old(str), old(heads), old(lhsize), str, heads, lhsize, EncodedString(s));
      case Ref(h) =>
        EncodeString(name(h));
        InOrderOf(old(str), old(heads), old(lhsize), str, heads, lhsize, EncodedString(name(h)));
      case List(items) =>
        var lh := List();
        ghost var s0, h0, l0 := str, heads, lhsize;
        WroteNone(str, heads, lhsize);
        for j := 0 to |items|
          invariant Valid() && Wrote(s0, h0, l0, str, heads, lhsize, EncodedAll(items[..j], name))
        {
          ghost var s1, h1, l1 := str, heads, lhsize;
          Write(items[j], name);
          WroteMore(s0, h0, l0, s1, h1, l1, EncodedAll(items[..j], name), str, heads, lhsize, Encoded(items[j], name));
          EncodedLast(items[..j], items[j], name);
          assert items[..j + 1] == items[..j] + [items[j]];
        }
        assert items[..|items|] == items;
        ghost var payload := EncodedAll(items, name);
        WroteList(old(str), old(heads), old(lhsize), str, heads, lhsize, payload);
        HeadHere(s0, h0, l0, str, heads, lhsize, payload, lh);
        ListEnd(lh);
        InOrderOf(old(str), old(heads), old(lhsize), str, heads, lhsize, EncodedList(payload));
    }

    /** Merges headers and string data. */
    method ToBytes() returns (out: array<Byte>)
      requires Valid() && Size() == |Render(str, heads, 0, 0)|
      ensures fresh(out) && out[..] == Render(str, heads, 0, 0)
    {
      ghost var all := Render(str, heads, 0, 0);
      hide Head, Merged, InOrder, From, Render;
      out := new Byte[Size()](_ => 0);
      var strpos: nat, pos: nat := 0, 0;
      MergedStart(str, heads);
      assert out[..0] == [];
      for k := 0 to |heads|
        invariant out.Length == |all| && pos <= out.Length && Merged(out[..pos], str, heads, strpos, k, all)
      {
        var head := heads[k];
        var enc := Head(0xC0, 0xF7, head.size);
        MergedNext(out[..pos], str, heads, strpos, k, all);
        pos := Copy(out, pos, str[strpos..head.offset]);
        strpos := head.offset;
        pos := Copy(out, pos, enc);
      }
      MergedEnd(out[..pos], str, heads, strpos, all);
      pos := Copy(out, pos, str[strpos..]);
      assert out[..pos] == out[..];
    }
  }

  /** What is in the output, and what is still to be merged after it. */
  ghost predicate Merged(done: Bytes, str: Bytes, heads: seq<ListHead>, s: nat, k: nat, all: Bytes) {
    && InOrder(str, heads) && s <= |str| && k <= |heads| && From(heads, k, s)
    && done + Render(str, heads, s, k) == all
  }

  lemma MergedStart(str: Bytes, heads: seq<ListHead>)
    requires InOrder(str, heads)
    ensures From(heads, 0, 0) && Merged([], str, heads, 0, 0, Render(str, heads, 0, 0))
  {
    hide Render;
    assert [] + Render(str, heads, 0, 0) == Render(str, heads, 0, 0);
  }

  lemma MergedNext(done: Bytes, str: Bytes, heads: seq<ListHead>, s: nat, k: nat, all: Bytes)
    requires Merged(done, str, heads, s, k, all) && k < |heads|
    ensures s <= heads[k].offset <= |str|
    ensures var more := done + str[s..heads[k].offset] + Mark(heads[k]);
      |more| <= |all| && Merged(more, str, heads, heads[k].offset, k + 1, all)
  {
    hide Mark;
    var a, b, c := str[s..heads[k].offset], Mark(heads[k]), Render(str, heads, heads[k].offset, k + 1);
    assert done + (a + b + c) == done + a + b + c;
  }

  lemma MergedEnd(done: Bytes, str: Bytes, heads: seq<ListHead>, s: nat, all: Bytes)
    requires Merged(done, str, heads, s, |heads|, all)
    ensures s <= |str| && done + str[s..] == all
  {
  }

  /** What was written after an open head makes room for its size. */
  lemma HeadHere(s0: Bytes, h0: seq<ListHead>, l0: nat, str: Bytes, heads: seq<ListHead>, lhsize: nat, bytes: Bytes, lh: nat)
    requires Wrote(s0, h0, l0, str, heads, lhsize, bytes) && lh < |h0| && h0[lh] == ListHead(|s0|, l0)
    ensures lh < |heads| && heads[lh] == h0[lh] && |s0| + l0 <= |str| + lhsize
  {
  }

  lemma InOrderOf(s0: Bytes, h0: seq<ListHead>, l0: nat, str: Bytes, heads: seq<ListHead>, lhsize: nat, bytes: Bytes)
    requires Wrote(s0, h0, l0, str, heads, lhsize, bytes)
    ensures InOrder(str, heads)
  {
  }

  /** Copies into the output; returns where that ends. */
  method Copy(out: array<Byte>, pos: nat, b: Bytes) returns (end: nat)
    requires pos + |b| <= out.Length
    modifies out
    ensures end == pos + |b| && out[..end] == old(out[..pos]) + b
  {
    end := pos + |b|;
    forall j | 0 <= j < |b| { out[pos + j] := b[j]; }
  }

  /** The whole encoder: its bytes are the encoding, and as many as its length. */
  method EncodeToBytes(i: Item, name: Hash -> Bytes) returns (out: array<Byte>)
    requires Naming(name)
    ensures fresh(out) && out[..] == Encoded(i, name) && out.Length == Size(i)
  {
    var buf := new EncBuf();
    buf.Write(i, name);
    EncodedLength(i, name);
    out := buf.ToBytes();
  }
}
