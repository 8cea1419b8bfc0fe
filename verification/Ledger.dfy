/**
 Genesis payouts: amounts are sliced, the slices shuffled by a seed, and the ones that
 lock themselves packed into unlock heights, a fixed quota for each.

 Amounts are whole atoms. The conversion of coins to atoms in floating point is not
 modelled, nor are addresses and scripts.
 */
module Ledgers {
  import opened Rlp

  const STANDARD := 0
  const AUTO_LOCK := 1
  const LOCK_WITH_HEIGHT := 2

  datatype Payout = Payout(coin: int, address: string, amount: int, kind: int, lockHeight: int)

  /** How long an amount is locked: not at all, until a given height, or until one the packing chose. */
  datatype Lock = Free | Until(height: int) | Scheduled(height: int)

  datatype Grant = Grant(coin: int, address: string, amount: int, lock: Lock)

  // ---------- totals ----------

  /** The total of one address in one coin. */
  function Total(list: seq<Payout>, address: string, coin: int): int {
    if list == [] then 0
    else (if list[0].address == address && list[0].coin == coin then list[0].amount else 0) + Total(list[1..], address, coin)
  }

  lemma {:induction false} TotalJoin(a: seq<Payout>, b: seq<Payout>, address: string, coin: int)
    ensures Total(a + b, address, coin) == Total(a, address, coin) + Total(b, address, coin)
  {
    if a == [] {
      assert a + b == b;
    } else {
      TotalJoin(a[1..], b, address, coin);
      assert (a + b)[1..] == a[1..] + b;
    }
  }

  function Range(n: nat): seq<int> {
    seq(n, i => i)
  }

  // ---------- slicing ----------

  predicate Whole(v: Payout) {
    v.kind == STANDARD || v.kind == LOCK_WITH_HEIGHT
  }

  /** A slice of a payout: a whole payout as it is, of any other at most one unit. */
  ghost predicate SliceOf(s: Payout, v: Payout, unit: int) {
    if Whole(v) || v.amount <= unit then s == v else s == v.(amount := s.amount) && 0 < s.amount <= unit
  }

  /** Every slice comes from one of the payouts. */
  ghost predicate Slices(list: seq<Payout>, data: seq<Payout>, unit: int) {
    forall s | s in list :: exists v :: v in data && SliceOf(s, v, unit)
  }

  /** Slices one payout. */
  method Slice(v: Payout, unit: int) returns (slices: seq<Payout>)
    requires unit > 0
    ensures slices != [] && (forall s | s in slices :: SliceOf(s, v, unit)) && (Whole(v) ==> v in slices)
    ensures forall i | 0 <= i < |slices| - 1 :: slices[i].amount == unit
    ensures forall address, coin :: Total(slices, address, coin) == Total([v], address, coin)
  {
    slices := [];
    var rest := v;
    while true
      invariant rest == v.(amount := rest.amount) && (slices == [] ==> rest == v)
      invariant slices != [] ==> !Whole(v) && v.amount > unit && rest.amount > 0
      invariant forall s | s in slices :: SliceOf(s, v, unit) && s.amount == unit
      invariant forall address, coin :: Total(slices, address, coin) + Total([rest], address, coin) == Total([v], address, coin)
      decreases rest.amount
    {
      TotalOne(v);
      TotalOne(rest);
      TotalOne(rest.(amount := unit));
      TotalOne(rest.(amount := rest.amount - unit));
      if Whole(rest) || rest.amount <= unit {
        TotalAll(slices, rest);
        slices := slices + [rest];
        return;
      }
      TotalAll(slices, rest.(amount := unit));
      slices := slices + [rest.(amount := unit)];
      rest := rest.(amount := rest.amount - unit);
    }
  }

  lemma TotalOne(v: Payout)
    ensures forall address, coin :: Total([v], address, coin) == if v.address == address && v.coin == coin then v.amount else 0
  {
  }

  lemma TotalAll(a: seq<Payout>, v: Payout)
    ensures forall address, coin :: Total(a + [v], address, coin) == Total(a, address, coin) + Total([v], address, coin)
  {
    forall address, coin { TotalJoin(a, [v], address, coin); }
  }

  /**
   Slices all payouts and shuffles the keys: every address keeps its total in every coin, and
   the keys are those of the slices, each once.
   */
  method SliceAndShuffle(data: seq<Payout>, seed: Bytes, unit: int) returns (list: seq<Payout>, keys: seq<int>)
    requires unit > 0 && |seed| >= 32
    ensures Slices(list, data, unit) && forall v | v in data && Whole(v) :: v in list
    ensures forall address, coin :: Total(list, address, coin) == Total(data, address, coin)
    ensures multiset(keys) == multiset(Range(|list|))
  {
    list := [];
    for i := 0 to |data|
      invariant Slices(list, data, unit) && forall v | v in data[..i] && Whole(v) :: v in list
      invariant forall address, coin :: Total(list, address, coin) == Total(data[..i], address, coin)
    {
      var slices := Slice(data[i], unit);
      assert data[..i + 1] == data[..i] + [data[i]];
      forall address, coin ensures Total(list + slices, address, coin) == Total(data[..i + 1], address, coin) {
        TotalJoin(list, slices, address, coin);
        TotalJoin(data[..i], [data[i]], address, coin);
      }
      forall s | s in list + slices ensures exists v :: v in data && SliceOf(s, v, unit) {
        if s in slices { assert data[i] in data && SliceOf(s, data[i], unit); }
      }
      list := list + slices;
    }
    assert data[..|data|] == data;
    var a := new int[|list|](k => k);
    assert a[..] == Range(|list|);
    GenesisShuffle(a, seed);
    ShufflePermutes(Range(|list|), |list| - 1, seed);
    keys := a[..];
  }

  // ---------- shuffling ----------

  /** Eight bytes, least significant first. */
  function Uint64(b: Bytes): nat {
    if b == [] then 0 else b[0] + 256 * Uint64(b[1..])
  }

  function Power(n: nat): nat {
    if n == 0 then 1 else 256 * Power(n - 1)
  }

  /** Byte i of a number is its digit of weight 256 to the i. */
  lemma {:induction false} LittleEndian(b: Bytes, i: nat)
    requires i < |b|
    ensures Power(i) > 0 && Uint64(b) / Power(i) % 256 == b[i]
  {
    if i == 0 {
      assert Uint64(b) == b[0] + 256 * Uint64(b[1..]);
    } else {
      LittleEndian(b[1..], i - 1);
      DivStep(b[0], Uint64(b[1..]), Power(i - 1));
    }
  }

  lemma DivStep(x: nat, n: nat, p: nat)
    requires x < 256 && p > 0
    ensures 256 * p > 0 && (x + 256 * n) / (256 * p) == n / p
  {
    var q, r := n / p, n % p;
    assert n == q * p + r;
    assert x + 256 * n == q * (256 * p) + (x + 256 * r);
    DivUnique(x + 256 * n, 256 * p, q, x + 256 * r);
  }

  lemma DivUnique(a: nat, b: nat, q: nat, r: nat)
    requires a == q * b + r && r < b
    ensures a / b == q
  {
    var d := a / b - q;
    assert d * b == r - a % b;
    if d > 0 { MulAtLeast(d, b); }
    if d < 0 { MulAtLeast(-d, b); }
  }

  /** The position to exchange with. It depends on the eight bytes of the seed at max, which is first reduced to at most 24. */
  function RandShuffle(max: int, seed: Bytes): (r: int)
    requires |seed| >= 32
    ensures max > 0 ==> 0 <= r < max
    ensures 0 < max <= 24 ==> r == Uint64(seed[max..max + 8]) % max
    ensures max > 24 && max % 24 > 0 ==> r == Uint64(seed[max % 24..max % 24 + 8]) % (max % 24)
    ensures max <= 0 || (max > 24 && max % 24 == 0) ==> r == 0
  {
    var m := if max > 24 then max % 24 else max;
    var n := if m <= 0 then 1 else m;
    Uint64(seed[n..n + 8]) % n
  }

  function Swap(s: seq<int>, i: nat, j: nat): seq<int>
    requires i < |s| && j < |s|
  {
    s[i := s[j]][j := s[i]]
  }

  /** The exchanges from position i down. */
  function Shuffled(s: seq<int>, i: int, seed: Bytes): seq<int>
    requires i < |s| && |seed| >= 32
    decreases i
  {
    if i <= 0 then s else Shuffled(Swap(s, i, RandShuffle(i, seed)), i - 1, seed)
  }

  lemma SwapPermutes(s: seq<int>, i: nat, j: nat)
    requires i < |s| && j < |s|
    ensures multiset(Swap(s, i, j)) == multiset(s)
  {
  }

  /** Whatever the seed, the shuffle is a permutation. */
  lemma {:induction false} ShufflePermutes(s: seq<int>, i: int, seed: Bytes)
    requires i < |s| && |seed| >= 32
    ensures multiset(Shuffled(s, i, seed)) == multiset(s)
    decreases i
  {
    if i > 0 {
      SwapPermutes(s, i, RandShuffle(i, seed));
      ShufflePermutes(Swap(s, i, RandShuffle(i, seed)), i - 1, seed);
    }
  }

  method GenesisShuffle(a: array<int>, seed: Bytes)
    requires |seed| >= 32
    modifies a
    ensures a[..] == Shuffled(old(a[..]), a.Length - 1, seed)
  {
    var i := a.Length - 1;
    while i > 0
      invariant i < a.Length
      invariant Shuffled(a[..], i, seed) == Shuffled(old(a[..]), a.Length - 1, seed)
    {
      var p := RandShuffle(i, seed);
      ghost var s := a[..];
      var x := a[i];
      a[i] := a[p];
      a[p] := x;
      assert a[..] == Swap(s, i, p);
      i := i - 1;
    }
  }

  // ---------- packing ----------

  /** What is granted to one address in one coin. */
  function Granted(gs: seq<Grant>, address: string, coin: int): int {
    if gs == [] then 0
    else (if gs[0].address == address && gs[0].coin == coin then gs[0].amount else 0) + Granted(gs[1..], address, coin)
  }

  lemma {:induction false} GrantedNext(gs: seq<Grant>, g: Grant, address: string, coin: int)
    ensures Granted(gs + [g], address, coin) ==
            Granted(gs, address, coin) + if g.address == address && g.coin == coin then g.amount else 0
  {
    if gs == [] {
      assert gs + [g] == [g];
    } else {
      GrantedNext(gs[1..], g, address, coin);
      assert (gs + [g])[1..] == gs[1..] + [g];
    }
  }

  /** What a payout makes due: an amount that locks itself only if it is positive, and nothing for an unknown kind. */
  function Due(v: Payout): int {
    if Whole(v) then v.amount else if v.kind == AUTO_LOCK && v.amount > 0 then v.amount else 0
  }

  function DueAt(list: seq<Payout>, k: int, address: string, coin: int): int {
    if 0 <= k < |list| && list[k].address == address && list[k].coin == coin then Due(list[k]) else 0
  }

  /** What the payouts at the given keys make due to one address in one coin. */
  function DueTotal(list: seq<Payout>, keys: seq<int>, address: string, coin: int): int {
    if keys == [] then 0 else DueAt(list, keys[0], address, coin) + DueTotal(list, keys[1..], address, coin)
  }

  lemma {:induction false} DueNext(list: seq<Payout>, keys: seq<int>, k: int, address: string, coin: int)
    ensures DueTotal(list, keys + [k], address, coin) == DueTotal(list, keys, address, coin) + DueAt(list, k, address, coin)
  {
    if keys == [] {
      assert keys + [k] == [k];
    } else {
      DueNext(list, keys[1..], k, address, coin);
      assert (keys + [k])[1..] == keys[1..] + [k];
    }
  }

  lemma {:induction false} DueWithout(list: seq<Payout>, keys: seq<int>, i: nat, address: string, coin: int)
    requires i < |keys|
    ensures DueTotal(list, keys, address, coin) ==
            DueAt(list, keys[i], address, coin) + DueTotal(list, keys[..i] + keys[i + 1..], address, coin)
  {
    if i == 0 {
      assert keys[..0] + keys[1..] == keys[1..];
    } else {
      DueWithout(list, keys[1..], i - 1, address, coin);
      assert keys[..i] + keys[i + 1..] == [keys[0]] + (keys[1..][..i - 1] + keys[1..][i..]);
    }
  }

  lemma MultisetWithout(s: seq<int>, i: nat)
    requires i < |s|
    ensures multiset(s[..i] + s[i + 1..]) == multiset(s) - multiset{s[i]}
  {
    assert s == s[..i] + [s[i]] + s[i + 1..];
  }

  /** The order of the keys does not matter. */
  lemma {:induction false} DuePermutes(list: seq<Payout>, a: seq<int>, b: seq<int>, address: string, coin: int)
    requires multiset(a) == multiset(b)
    ensures DueTotal(list, a, address, coin) == DueTotal(list, b, address, coin)
  {
    hide DueAt;
    if a == [] {
      assert |multiset(b)| == 0;
    } else {
      var i, c := Position(a, b);
      DueWithout(list, b, i, address, coin);
      DuePermutes(list, a[1..], c, address, coin);
    }
  }

  lemma Position(a: seq<int>, b: seq<int>) returns (i: nat, c: seq<int>)
    requires multiset(a) == multiset(b) && a != []
    ensures i < |b| && b[i] == a[0] && c == b[..i] + b[i + 1..] && multiset(a[1..]) == multiset(c)
  {
    i := Found(a, b);
    c := b[..i] + b[i + 1..];
    MultisetTail(a);
    MultisetWithout(b, i);
  }

  lemma Found(a: seq<int>, b: seq<int>) returns (i: nat)
    requires multiset(a) == multiset(b) && a != []
    ensures i < |b| && b[i] == a[0]
  {
    assert a[0] in multiset(a);
    assert a[0] in b;
    i :| 0 <= i < |b| && b[i] == a[0];
  }

  lemma MultisetTail(s: seq<int>)
    requires s != []
    ensures multiset(s[1..]) == multiset(s) - multiset{s[0]}
  {
    assert s == [s[0]] + s[1..];
  }

  /** All payouts are of a known kind and none that locks itself is negative. */
  ghost predicate Sensible(list: seq<Payout>) {
    forall v | v in list :: Whole(v) || (v.kind == AUTO_LOCK && v.amount >= 0)
  }

  lemma {:induction false} DueAll(list: seq<Payout>, n: nat, address: string, coin: int)
    requires Sensible(list) && n <= |list|
    ensures DueTotal(list, Range(n), address, coin) == Total(list[..n], address, coin)
  {
    if n > 0 {
      DueAll(list, n - 1, address, coin);
      assert Range(n) == Range(n - 1) + [n - 1];
      DueNext(list, Range(n - 1), n - 1, address, coin);
      assert list[..n] == list[..n - 1] + [list[n - 1]];
      TotalJoin(list[..n - 1], [list[n - 1]], address, coin);
    }
  }

  /** The grants that packing has not scheduled. */
  function Fixed(gs: seq<Grant>): seq<Grant> {
    if gs == [] then [] else (if gs[0].lock.Scheduled? then [] else [gs[0]]) + Fixed(gs[1..])
  }

  lemma {:induction false} FixedNext(gs: seq<Grant>, g: Grant)
    ensures Fixed(gs + [g]) == Fixed(gs) + if g.lock.Scheduled? then [] else [g]
  {
    if gs == [] {
      assert gs + [g] == [g];
    } else {
      FixedNext(gs[1..], g);
      assert (gs + [g])[1..] == gs[1..] + [g] && (gs + [g])[0] == gs[0];
    }
  }

  /** The grant of a payout that does not lock itself. */
  function WholeGrant(v: Payout): Grant {
    Grant(v.coin, v.address, v.amount, if v.kind == STANDARD then Free else Until(v.lockHeight))
  }

  /** Those of the payouts at the given keys, in order. */
  function WholeGrants(list: seq<Payout>, keys: seq<int>): seq<Grant> {
    if keys == [] then []
    else
      var k := keys[0];
      (if 0 <= k < |list| && Whole(list[k]) then [WholeGrant(list[k])] else []) + WholeGrants(list, keys[1..])
  }

  lemma {:induction false} WholeGrantsNext(list: seq<Payout>, keys: seq<int>, k: int)
    requires 0 <= k < |list|
    ensures WholeGrants(list, keys + [k]) == WholeGrants(list, keys) + if Whole(list[k]) then [WholeGrant(list[k])] else []
  {
    hide Whole, WholeGrant;
    if keys == [] {
      assert keys + [k] == [k] && [k][1..] == [];
      assert WholeGrants(list, [k][1..]) == [];
    } else {
      WholeGrantsNext(list, keys[1..], k);
      assert (keys + [k])[1..] == keys[1..] + [k] && (keys + [k])[0] == keys[0];
      var head := if 0 <= keys[0] < |list| && Whole(list[keys[0]]) then [WholeGrant(list[keys[0]])] else [];
      var last := if Whole(list[k]) then [WholeGrant(list[k])] else [];
      assert head + (WholeGrants(list, keys[1..]) + last) == head + WholeGrants(list, keys[1..]) + last;
    }
  }

  lemma {:induction false} FixedIn(gs: seq<Grant>, g: Grant)
    ensures g in Fixed(gs) <==> g in gs && !g.lock.Scheduled?
  {
    if gs != [] {
      FixedIn(gs[1..], g);
      assert gs == [gs[0]] + gs[1..];
    }
  }

  lemma {:induction false} WholeGrantsIn(list: seq<Payout>, keys: seq<int>, g: Grant)
    requires forall k | k in keys :: 0 <= k < |list|
    ensures g in WholeGrants(list, keys) <==> exists k :: k in keys && Whole(list[k]) && g == WholeGrant(list[k])
  {
    hide Whole, WholeGrant;
    if keys != [] {
      assert keys[0] in keys;
      forall k | k in keys[1..] ensures k in keys { }
      WholeGrantsIn(list, keys[1..], g);
      assert keys == [keys[0]] + keys[1..];
      if g in WholeGrants(list, keys[1..]) {
        var k :| k in keys[1..] && Whole(list[k]) && g == WholeGrant(list[k]);
        assert k in keys;
      }
    }
  }

  /** Exactly the standard payouts are free, exactly those with a height are locked until it, and no other is fixed. */
  ghost predicate ByKind(grants: seq<Grant>, list: seq<Payout>, keys: seq<int>) {
    && (forall k | k in keys && 0 <= k < |list| && list[k].kind == STANDARD ::
          Grant(list[k].coin, list[k].address, list[k].amount, Free) in grants)
    && (forall k | k in keys && 0 <= k < |list| && list[k].kind == LOCK_WITH_HEIGHT ::
          Grant(list[k].coin, list[k].address, list[k].amount, Until(list[k].lockHeight)) in grants)
    && (forall g | g in grants && g.lock.Free? :: exists k ::
          k in keys && 0 <= k < |list| && list[k].kind == STANDARD
          && g == Grant(list[k].coin, list[k].address, list[k].amount, Free))
    && (forall g | g in grants && g.lock.Until? :: exists k ::
          k in keys && 0 <= k < |list| && list[k].kind == LOCK_WITH_HEIGHT
          && g == Grant(list[k].coin, list[k].address, list[k].amount, Until(list[k].lockHeight)))
  }

  lemma FixedByKind(grants: seq<Grant>, list: seq<Payout>, keys: seq<int>)
    requires Fixed(grants) == WholeGrants(list, keys) && forall k | k in keys :: 0 <= k < |list|
    ensures ByKind(grants, list, keys)
  {
    hide Fixed, WholeGrants;
    forall g ensures g in grants && !g.lock.Scheduled? <==> exists k :: k in keys && Whole(list[k]) && g == WholeGrant(list[k]) {
      FixedIn(grants, g);
      WholeGrantsIn(list, keys, g);
    }
  }

  /** The amount scheduled for heights up to h. */
  function By(gs: seq<Grant>, h: int): int {
    if gs == [] then 0
    else (if gs[0].lock.Scheduled? && gs[0].lock.height <= h then gs[0].amount else 0) + By(gs[1..], h)
  }

  lemma {:induction false} ByNext(gs: seq<Grant>, g: Grant, h: int)
    ensures By(gs + [g], h) == By(gs, h) + if g.lock.Scheduled? && g.lock.height <= h then g.amount else 0
  {
    if gs == [] {
      assert gs + [g] == [g];
    } else {
      ByNext(gs[1..], g, h);
      assert (gs + [g])[1..] == gs[1..] + [g];
    }
  }

  /** Heights never go down, and no scheduled amount is empty or higher than the current height. */
  ghost predicate Rising(gs: seq<Grant>, height: int) {
    && (forall i | 0 <= i < |gs| && gs[i].lock.Scheduled? :: 0 <= gs[i].lock.height <= height && gs[i].amount > 0)
    && (forall i, j | 0 <= i < j < |gs| && gs[i].lock.Scheduled? && gs[j].lock.Scheduled? ::
          gs[i].lock.height <= gs[j].lock.height)
  }

  /** Bucket k, with what came before, is at its quota but does not reach the next. */
  ghost predicate Filled(gs: seq<Grant>, k: int, quota: int, step: int) {
    k * quota <= By(gs, k * step) < (k + 1) * quota
  }

  /** full buckets are filled, and locked atoms are in the current one. */
  ghost predicate Packed(gs: seq<Grant>, full: int, locked: int, quota: int, step: int) {
    && full >= 0 && 0 <= locked < quota && step > 0
    && Rising(gs, full * step)
    && (forall h | h >= full * step :: By(gs, h) == full * quota + locked)
    && (forall k | 0 <= k < full :: Filled(gs, k, quota, step))
  }

  lemma StepLess(k: int, full: int, step: int)
    requires 0 <= k < full && step > 0
    ensures k * step + step <= full * step
  {
    assert (full - k) * step >= step by { assert full - k >= 1; MulAtLeast(full - k, step); }
  }

  lemma MulAtLeast(n: int, step: int)
    requires n >= 1 && step > 0
    ensures n * step >= step
  {
  }

  lemma PackOther(gs: seq<Grant>, g: Grant, full: int, locked: int, quota: int, step: int)
    requires Packed(gs, full, locked, quota, step) && !g.lock.Scheduled?
    ensures Packed(gs + [g], full, locked, quota, step)
  {
    forall h ensures By(gs + [g], h) == By(gs, h) { ByNext(gs, g, h); }
    forall k | 0 <= k < full ensures Filled(gs + [g], k, quota, step) { assert Filled(gs, k, quota, step); }
  }

  /** An amount that does not fill the current bucket is scheduled at its height. */
  lemma PackPart(gs: seq<Grant>, g: Grant, full: int, locked: int, quota: int, step: int)
    requires Packed(gs, full, locked, quota, step)
    requires g.lock == Scheduled(full * step) && 0 < g.amount < quota - locked
    ensures Packed(gs + [g], full, locked + g.amount, quota, step)
  {
    hide By;
    assert full * step >= 0 by { MulNonneg(full, step); }
    forall h ensures By(gs + [g], h) == By(gs, h) + if full * step <= h then g.amount else 0 { ByNext(gs, g, h); }
    forall k | 0 <= k < full ensures Filled(gs + [g], k, quota, step) {
      assert Filled(gs, k, quota, step);
      StepLess(k, full, step);
    }
  }

  lemma MulNonneg(a: int, b: int)
    requires a >= 0 && b >= 0
    ensures a * b >= 0
  {
  }

  /** The amount that fills it is scheduled at the next height. */
  lemma PackFull(gs: seq<Grant>, g: Grant, full: int, locked: int, quota: int, step: int)
    requires Packed(gs, full, locked, quota, step)
    requires g.lock == Scheduled(full * step + step) && g.amount == quota - locked
    ensures Packed(gs + [g], full + 1, 0, quota, step)
  {
    hide By;
    assert (full + 1) * step == full * step + step && (full + 1) * quota == full * quota + quota;
    assert full * step >= 0 by { MulNonneg(full, step); }
    forall h ensures By(gs + [g], h) == By(gs, h) + if full * step + step <= h then g.amount else 0 { ByNext(gs, g, h); }
    forall k | 0 <= k < full + 1 ensures Filled(gs + [g], k, quota, step) {
      if k < full {
        assert Filled(gs, k, quota, step);
        StepLess(k, full, step);
      }
    }
  }

  /** Adds the slices of one amount that locks itself. */
  method LockAmount(v: Payout, height: int, locked: int, quota: int, step: int, grants: seq<Grant>, ghost full: int)
    returns (height': int, locked': int, grants': seq<Grant>, ghost full': int)
    requires height == full * step && Packed(grants, full, locked, quota, step)
    ensures height' == full' * step && Packed(grants', full', locked', quota, step) && Fixed(grants') == Fixed(grants)
    ensures forall address, coin :: Granted(grants', address, coin) == Granted(grants, address, coin) +
              if v.address == address && v.coin == coin && v.amount > 0 then v.amount else 0
  {
    hide Packed;
    height', locked', grants', full' := height, locked, grants, full;
    var left := v.amount;
    PackedRange(grants', full', locked', quota, step);
    while left > 0
      invariant height' == full' * step && Packed(grants', full', locked', quota, step) && locked' < quota
      invariant Fixed(grants') == Fixed(grants)
      invariant v.amount > 0 ==> left >= 0
      invariant v.amount <= 0 ==> left == v.amount
      invariant forall address, coin :: Granted(grants', address, coin) == Granted(grants, address, coin) +
                  if v.address == address && v.coin == coin && v.amount > 0 then v.amount - left else 0
      decreases left
    {
      var need := quota - locked';
      var amount := 0;
      ghost var was := grants';
      if left >= need {
        left, amount := left - need, need;
        height' := height' + step;
        PackFull(grants', Grant(v.coin, v.address, amount, Scheduled(height')), full', locked', quota, step);
        locked', full' := 0, full' + 1;
      } else {
        amount := left;
        PackPart(grants', Grant(v.coin, v.address, amount, Scheduled(height')), full', locked', quota, step);
        locked', left := locked' + amount, 0;
      }
      var g := Grant(v.coin, v.address, amount, Scheduled(height'));
      forall address, coin
        ensures Granted(was + [g], address, coin) ==
                Granted(was, address, coin) + if v.address == address && v.coin == coin then amount else 0
      {
        GrantedNext(was, g, address, coin);
      }
      FixedNext(was, g);
      grants' := grants' + [g];
      PackedRange(grants', full', locked', quota, step);
    }
  }

  lemma PackedRange(gs: seq<Grant>, full: int, locked: int, quota: int, step: int)
    requires Packed(gs, full, locked, quota, step)
    ensures 0 <= locked < quota
  {
  }

  /** The release schedule that packing promises. */
  ghost predicate Schedule(gs: seq<Grant>, quota: int, step: int) {
    && (forall i | 0 <= i < |gs| && gs[i].lock.Scheduled? :: gs[i].amount > 0)
    && (forall i, j | 0 <= i < j < |gs| && gs[i].lock.Scheduled? && gs[j].lock.Scheduled? ::
          gs[i].lock.height <= gs[j].lock.height)
    && (forall k: nat :: By(gs, k * step) < (k + 1) * quota)
    && (forall k: nat, g | g in gs && g.lock.Scheduled? && g.lock.height >= k * step :: By(gs, k * step) >= k * quota)
  }

  lemma PackedSchedule(gs: seq<Grant>, full: int, locked: int, quota: int, step: int)
    requires Packed(gs, full, locked, quota, step)
    ensures Schedule(gs, quota, step)
  {
    hide By;
    forall k: nat ensures By(gs, k * step) < (k + 1) * quota {
      if k < full {
        assert Filled(gs, k, quota, step);
      } else {
        MulGrows(full, k, step);
        MulGrows(full + 1, k + 1, quota);
        assert (full + 1) * quota == full * quota + quota;
      }
    }
    forall k: nat, g | g in gs && g.lock.Scheduled? && g.lock.height >= k * step ensures By(gs, k * step) >= k * quota {
      var i :| 0 <= i < |gs| && gs[i] == g;
      if k > full { StepLess(full, k, step); }
      assert k <= full;
      if k < full { assert Filled(gs, k, quota, step); }
    }
  }

  lemma MulGrows(a: int, b: int, c: int)
    requires 0 <= a <= b && c > 0
    ensures a * c <= b * c
  {
    assert (b - a) * c >= 0 by { MulNonneg(b - a, c); }
  }

  lemma PackedStart(quota: int, step: int)
    requires quota > 0 && step > 0
    ensures Packed([], 0, 0, quota, step)
  {
  }

  /**
   Goes through the payouts in the order of the keys and packs what locks itself. What is
   granted is exactly what is due, and the schedule releases at least k quotas by the k-th
   height once that is reached, and never k + 1 of them.
   */
  method ProcessLocking(list: seq<Payout>, keys: seq<int>, quota: int, step: int) returns (grants: seq<Grant>)
    requires quota > 0 && step > 0 && forall k | k in keys :: 0 <= k < |list|
    ensures forall address, coin :: Granted(grants, address, coin) == DueTotal(list, keys, address, coin)
    ensures Schedule(grants, quota, step) && Fixed(grants) == WholeGrants(list, keys) && ByKind(grants, list, keys)
  {
    hide Packed, Schedule, Due, WholeGrants, Fixed, ByKind;
    grants := [];
    NoGrants(list);
    var height, locked := 0, 0;
    ghost var full := 0;
    PackedStart(quota, step);
    for i := 0 to |keys|
      invariant height == full * step && Packed(grants, full, locked, quota, step)
      invariant Fixed(grants) == WholeGrants(list, keys[..i])
      invariant forall address, coin :: Granted(grants, address, coin) == DueTotal(list, keys[..i], address, coin)
    {
      assert keys[i] in keys;
      var v := list[keys[i]];
      ghost var was := grants;
      assert keys[..i + 1] == keys[..i] + [keys[i]];
      WholeGrantsNext(list, keys[..i], keys[i]);
      forall address, coin { DueNext(list, keys[..i], keys[i], address, coin); }
      if v.kind == STANDARD || v.kind == LOCK_WITH_HEIGHT {
        var g := Grant(v.coin, v.address, v.amount, if v.kind == STANDARD then Free else Until(v.lockHeight));
        FixedNext(grants, g);
        PackOther(grants, g, full, locked, quota, step);
        grants := grants + [g];
        GrantWhole(was, g, v);
      } else if v.kind == AUTO_LOCK {
        height, locked, grants, full := LockAmount(v, height, locked, quota, step, grants, full);
        DueAuto(v);
      } else {
        DueNone(v);
      }
    }
    assert keys[..|keys|] == keys;
    PackedSchedule(grants, full, locked, quota, step);
    FixedByKind(grants, list, keys);
  }

  lemma NoGrants(list: seq<Payout>)
    ensures Fixed([]) == [] && WholeGrants(list, []) == []
  {
  }

  lemma GrantWhole(gs: seq<Grant>, g: Grant, v: Payout)
    requires Whole(v) && g.coin == v.coin && g.address == v.address && g.amount == v.amount
    ensures Due(v) == v.amount
    ensures forall address, coin :: Granted(gs + [g], address, coin) == Granted(gs, address, coin) +
              if v.address == address && v.coin == coin then v.amount else 0
  {
    forall address, coin { GrantedNext(gs, g, address, coin); }
  }

  lemma DueAuto(v: Payout)
    requires v.kind == AUTO_LOCK
    ensures Due(v) == if v.amount > 0 then v.amount else 0
  {
  }

  lemma DueNone(v: Payout)
    requires !Whole(v) && v.kind != AUTO_LOCK
    ensures Due(v) == 0
  {
  }

  /**
   From payouts to grants: with sensible payouts, every address is granted exactly its total in
   every coin. Standard payouts are free, and those with a height are locked until it.
   */
  method GeneratePayouts(data: seq<Payout>, seed: Bytes, unit: int, quota: int, step: int) returns (grants: seq<Grant>)
    requires unit > 0 && quota > 0 && step > 0 && |seed| >= 32
    ensures Schedule(grants, quota, step)
    ensures Sensible(data) ==> forall address, coin :: Granted(grants, address, coin) == Total(data, address, coin)
    ensures forall v | v in data && v.kind == STANDARD :: Grant(v.coin, v.address, v.amount, Free) in grants
    ensures forall v | v in data && v.kind == LOCK_WITH_HEIGHT ::
              Grant(v.coin, v.address, v.amount, Until(v.lockHeight)) in grants
    ensures forall g | g in grants && g.lock.Free? ::
              exists v :: v in data && v.kind == STANDARD && g == Grant(v.coin, v.address, v.amount, Free)
    ensures forall g | g in grants && g.lock.Until? ::
              exists v :: v in data && v.kind == LOCK_WITH_HEIGHT && g == Grant(v.coin, v.address, v.amount, Until(v.lockHeight))
  {
    hide Schedule, Granted, DueTotal, Total, ByKind, Fixed, WholeGrants;
    var list, keys := SliceAndShuffle(data, seed, unit);
    KeysInRange(keys, |list|);
    grants := ProcessLocking(list, keys, quota, step);
    KindsKept(grants, list, keys, data, unit);
    if Sensible(data) {
      SliceSensible(list, data, unit);
      forall address, coin ensures Granted(grants, address, coin) == Total(data, address, coin) {
        DuePermutes(list, keys, Range(|list|), address, coin);
        DueAll(list, |list|, address, coin);
        assert list[..|list|] == list;
      }
    }
  }

  lemma KindsKept(grants: seq<Grant>, list: seq<Payout>, keys: seq<int>, data: seq<Payout>, unit: int)
    requires ByKind(grants, list, keys) && Slices(list, data, unit) && multiset(keys) == multiset(Range(|list|))
    requires forall v | v in data && Whole(v) :: v in list
    ensures forall v | v in data && v.kind == STANDARD :: Grant(v.coin, v.address, v.amount, Free) in grants
    ensures forall v | v in data && v.kind == LOCK_WITH_HEIGHT ::
              Grant(v.coin, v.address, v.amount, Until(v.lockHeight)) in grants
    ensures forall g | g in grants && g.lock.Free? ::
              exists v :: v in data && v.kind == STANDARD && g == Grant(v.coin, v.address, v.amount, Free)
    ensures forall g | g in grants && g.lock.Until? ::
              exists v :: v in data && v.kind == LOCK_WITH_HEIGHT && g == Grant(v.coin, v.address, v.amount, Until(v.lockHeight))
  {
    forall v | v in data && Whole(v) ensures exists k :: k in keys && 0 <= k < |list| && list[k] == v {
      var k :| 0 <= k < |list| && list[k] == v;
      assert Range(|list|)[k] == k;
      assert k in multiset(Range(|list|));
      assert k in keys;
    }
    forall k | 0 <= k < |list| && Whole(list[k]) ensures list[k] in data { WholeKept(list, data, unit, k); }
  }

  lemma WholeKept(list: seq<Payout>, data: seq<Payout>, unit: int, k: nat)
    requires Slices(list, data, unit) && k < |list| && Whole(list[k])
    ensures list[k] in data
  {
    assert list[k] in list;
    var v :| v in data && SliceOf(list[k], v, unit);
  }

  lemma KeysInRange(keys: seq<int>, n: nat)
    requires multiset(keys) == multiset(Range(n))
    ensures forall k | k in keys :: 0 <= k < n
  {
    forall k | k in keys ensures 0 <= k < n { assert k in multiset(Range(n)); }
  }

  lemma SliceSensible(list: seq<Payout>, data: seq<Payout>, unit: int)
    requires Slices(list, data, unit) && Sensible(data)
    ensures Sensible(list)
  {
    forall s | s in list ensures Whole(s) || (s.kind == AUTO_LOCK && s.amount >= 0) {
      var v :| v in data && SliceOf(s, v, unit);
    }
  }

  /** The older packing, for one coin and one height at a time. */
  method ProcessLockingPayouts(list: seq<Payout>, coin: int, quota: int) returns (grants: seq<Grant>)
    requires quota > 0
    ensures Schedule(grants, quota, 1) && Fixed(grants) == []
    ensures forall address, c :: Granted(grants, address, c) == if c == coin then PositiveTotal(list, address, coin) else 0
  {
    hide Packed, Schedule;
    grants := [];
    var height, locked := 0, 0;
    ghost var full := 0;
    PackedStart(quota, 1);
    for i := 0 to |list|
      invariant height == full * 1 && Packed(grants, full, locked, quota, 1) && Fixed(grants) == []
      invariant forall address, c ::
                  Granted(grants, address, c) == if c == coin then PositiveTotal(list[..i], address, coin) else 0
    {
      assert list[..i + 1][..i] == list[..i];
      if list[i].coin == coin {
        height, locked, grants, full := LockAmount(list[i], height, locked, quota, 1, grants, full);
      }
    }
    assert list[..|list|] == list;
    PackedSchedule(grants, full, locked, quota, 1);
  }

  /** The total of the positive amounts of one address in one coin. */
  function PositiveTotal(list: seq<Payout>, address: string, coin: int): int {
    if list == [] then 0
    else
      var v := list[|list| - 1];
      PositiveTotal(list[..|list| - 1], address, coin)
      + if v.address == address && v.coin == coin && v.amount > 0 then v.amount else 0
  }
}
