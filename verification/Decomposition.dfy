/**
 `interval_prefixes`: one loop per family, each in its own machine arithmetic.
 Every addition, subtraction, shift and conversion below is on a bounded word, so
 verification also shows that none of them leaves its width.
 */
module Decomposition {
  import opened Bits
  import opened Wrappers
  import opened Addresses
  import opened Prefixes

  /** `out` names the blocks `g`, in order, as prefixes of family `f`. */
  ghost predicate Names(out: seq<AddressPrefix>, f: Family, g: seq<Block>) {
    && |out| == |g|
    && forall i :: 0 <= i < |out| ==> NamesBlock(out[i], f, g[i])
  }

  ghost predicate NamesBlock(p: AddressPrefix, f: Family, b: Block) {
    p.family == f && p.address == b.start && p.prefixLen + b.bits == f.Width()
  }

  /** The alignment the loops use: all bits of the word when it is zero. */
  function Alignment(w: nat, s: nat): nat {
    if s == 0 then w else TrailingZeros(s)
  }

  lemma StepFacts(f: Family, s: nat, e: nat)
    requires s < e <= f.Size()
    ensures Alignment(f.Width(), s) <= f.Width() && Log2(e - s) <= f.Width()
    ensures Pow2(Head(s, e).bits) <= e - s
    ensures Head(s, e).bits ==
      if Alignment(f.Width(), s) < Log2(e - s) then Alignment(f.Width(), s) else Log2(e - s)
    ensures e - s < f.Size() ==> Log2(e - s) < f.Width()
    ensures e - s == f.Size() ==> Log2(e - s) == f.Width() && Head(s, e).bits == f.Width() && Head(s, e).Stop() == e
  {
    SizeIsPower(f);
    StepBits(f.Width(), s, e);
  }

  lemma StepBits(w: nat, s: nat, e: nat)
    requires s < e <= Pow2(w)
    ensures Alignment(w, s) <= w && Log2(e - s) <= w
    ensures Head(s, e).bits == if Alignment(w, s) < Log2(e - s) then Alignment(w, s) else Log2(e - s)
    ensures e - s < Pow2(w) ==> Log2(e - s) < w
    ensures e - s == Pow2(w) ==> Log2(e - s) == w
  {
    var fit := Log2(e - s);
    Pow2Strict(fit, w);
    if e - s < Pow2(w) {
      Pow2Below(fit, w);
    } else {
      Pow2Below(w, fit + 1);
    }
    if s == 0 {
      ZeroAligned(fit);
      HeadIs(s, e, fit);
    } else {
      AlignmentBits(w, s);
      var z := TrailingZeros(s);
      if z < fit {
        Pow2Monotone(z, fit);
        HeadIs(s, e, z);
      } else {
        AlignedWeaken(s, z, fit);
        HeadIs(s, e, fit);
      }
    }
  }

  lemma AlignmentBits(w: nat, s: nat)
    requires 0 < s < Pow2(w)
    ensures TrailingZeros(s) < w
  {
    var z := TrailingZeros(s);
    var k := Multiple(s, z);
    assert k >= 1;
    NotNegative(k - 1, Pow2(z));
    Pow2Below(z, w);
  }

  /** `out` names the greedy blocks of `s0 .. e` up to address `s`. */
  ghost predicate Partial(out: seq<AddressPrefix>, f: Family, s0: nat, s: nat, e: nat) {
    exists done: seq<Block> :: Names(out, f, done) && Greedy(s0, e) == done + Greedy(s, e)
  }

  lemma Begin(f: Family, s: nat, e: nat)
    ensures Partial([], f, s, s, e)
  {
    assert Names([], f, []) && Greedy(s, e) == [] + Greedy(s, e);
  }

  lemma Push(out: seq<AddressPrefix>, p: AddressPrefix, f: Family, s0: nat, s: nat, e: nat)
    requires s < e && Partial(out, f, s0, s, e) && NamesBlock(p, f, Head(s, e))
    ensures Partial(out + [p], f, s0, Head(s, e).Stop(), e)
    ensures Head(s, e).Stop() == e ==> Names(out + [p], f, Greedy(s0, e))
  {
    hide Greedy, Names, NamesBlock;
    var done: seq<Block> :| Names(out, f, done) && Greedy(s0, e) == done + Greedy(s, e);
    var b := Head(s, e);
    GreedyUnfolds(s, e);
    NamesSnoc(out, p, f, done, b);
    assert done + ([b] + Greedy(b.Stop(), e)) == done + [b] + Greedy(b.Stop(), e);
    assert done + [b] + [] == done + [b];
  }

  lemma GreedyUnfolds(s: nat, e: nat)
    requires s < e
    ensures Greedy(s, e) == [Head(s, e)] + Greedy(Head(s, e).Stop(), e) && Greedy(e, e) == []
  {
  }

  lemma NamesSnoc(out: seq<AddressPrefix>, p: AddressPrefix, f: Family, done: seq<Block>, b: Block)
    requires Names(out, f, done) && NamesBlock(p, f, b)
    ensures Names(out + [p], f, done + [b])
  {
    hide NamesBlock;
  }

  method HostBitsV4(start: u32, end: u32) returns (hostBits: u32)
    requires start <= end
    ensures hostBits <= 32 && hostBits as nat == Head(start as nat, end as nat + 1).bits
  {
    hide Pow2, Log2, TrailingZeros, Alignment, LeadingZeros64;
    StepFacts(V4, start as nat, end as nat + 1);
    var alignment: u32 := Alignment(32, start as nat) as u32;
    var remaining: u64 := end as u64 - start as u64 + 1;
    var fit: u32 := 63 - LeadingZeros64(remaining);
    hostBits := if alignment < fit then alignment else fit;
  }

  method IntervalPrefixesV4(first: u32, afterLast: Option<u32>) returns (out: seq<AddressPrefix>)
    requires afterLast.Some? ==> first < afterLast.value
    ensures Names(out, V4, Greedy(first as nat, if afterLast.Some? then afterLast.value as nat else V4.Size()))
  {
    hide Greedy, Partial, Names, Pow2, Aligned;
    var start := first;
    var end: u32 := if afterLast.Some? then afterLast.value - 1 else 0xffff_ffff;
    ghost var stop := end as nat + 1;
    out := [];
    Begin(V4, first as nat, stop);
    while true
      invariant first <= start <= end
      invariant Partial(out, V4, first as nat, start as nat, stop)
      decreases end - start
    {
      var hostBits := HostBitsV4(start, end);
      var prefix := AddressPrefix(V4, start as nat, (32 - hostBits) as nat);
      Push(out, prefix, V4, first as nat, start as nat, stop);
      out := out + [prefix];
      var size: u64 := Pow2(hostBits as nat) as u64;
      var next: u64 := start as u64 + size;
      if next > end as u64 {
        break;
      }
      start := next as u32;
    }
  }

  function LeadingZeros64(x: u64): (z: u32)
    requires x > 0
    ensures z as nat + Log2(x as nat) == 63
  {
    Width64();
    LeadingZeros(64, x as nat) as u32
  }

  function LeadingZeros128(x: u128): (z: u32)
    requires x > 0
    ensures z as nat + Log2(x as nat) == 127
  {
    Width128();
    LeadingZeros(128, x as nat) as u32
  }

  method HostBitsV6(start: u128, end: u128) returns (hostBits: u32)
    requires start <= end && (start > 0 || end < 0xffff_ffff_ffff_ffff_ffff_ffff_ffff_ffff)
    ensures hostBits < 128 && hostBits as nat == Head(start as nat, end as nat + 1).bits
  {
    hide Pow2, Log2, TrailingZeros, Alignment, LeadingZeros128;
    StepFacts(V6, start as nat, end as nat + 1);
    var alignment: u32 := Alignment(128, start as nat) as u32;
    var remaining: u128 := end - start + 1;
    var fit: u32 := 127 - LeadingZeros128(remaining);
    hostBits := if alignment < fit then alignment else fit;
  }

  method IntervalPrefixesV6(first: u128, afterLast: Option<u128>) returns (out: seq<AddressPrefix>)
    requires afterLast.Some? ==> first < afterLast.value
    ensures Names(out, V6, Greedy(first as nat, if afterLast.Some? then afterLast.value as nat else V6.Size()))
  {
    hide Greedy, Partial, Names, Pow2, Aligned;
    var start := first;
    var end: u128 := if afterLast.Some? then afterLast.value - 1 else 0xffff_ffff_ffff_ffff_ffff_ffff_ffff_ffff;
    ghost var stop := end as nat + 1;
    out := [];
    Begin(V6, first as nat, stop);
    while true
      invariant first <= start <= end
      invariant Partial(out, V6, first as nat, start as nat, stop)
      decreases end - start
    {
      if start == 0 && end == 0xffff_ffff_ffff_ffff_ffff_ffff_ffff_ffff {
        StepFacts(V6, start as nat, stop);
        Push(out, AddressPrefix(V6, 0, 0), V6, first as nat, start as nat, stop);
        out := out + [AddressPrefix(V6, 0, 0)];
        break;
      }
      var hostBits := HostBitsV6(start, end);
      var prefix := AddressPrefix(V6, start as nat, (128 - hostBits) as nat);
      Push(out, prefix, V6, first as nat, start as nat, stop);
      out := out + [prefix];
      var size: u128 := Pow2(hostBits as nat) as u128;
      var next := CheckedAdd(start, size);
      if next.None? || next.value > end {
        break;
      }
      start := next.value;
    }
  }

  /** `u128::checked_add` */
  function CheckedAdd(a: u128, b: u128): (r: Option<u128>)
    ensures r.Some? ==> r.value as int == a as int + b as int
    ensures r.None? <==> a as int + b as int >= 0x1_0000_0000_0000_0000_0000_0000_0000_0000
  {
    if a <= 0xffff_ffff_ffff_ffff_ffff_ffff_ffff_ffff - b then Some(a + b) else None
  }

  method IntervalPrefixes(interval: AddressInterval) returns (out: seq<AddressPrefix>)
    requires interval.Valid()
    ensures out == Decompose(interval.family, interval.first, interval.Stop())
  {
    match interval.family {
      case V4 =>
        out := IntervalPrefixesV4(interval.first as u32,
          if interval.afterLast.Some? then Some(interval.afterLast.value as u32) else None);
      case V6 =>
        out := IntervalPrefixesV6(interval.first as u128,
          if interval.afterLast.Some? then Some(interval.afterLast.value as u128) else None);
    }
    NamesDetermine(out, interval.family, interval.first, interval.Stop());
  }

  // --- The decomposition as a function of the interval ---------------------------------

  lemma BlockFits(f: Family, b: Block)
    requires b.Stop() <= f.Size()
    ensures b.bits <= f.Width() && b.start < f.Size()
  {
    SizeIsPower(f);
    Pow2Strict(b.bits, f.Width());
  }

  /** The prefixes of `s .. e`, in ascending order. */
  ghost function Decompose(f: Family, s: nat, e: nat): (out: seq<AddressPrefix>)
    requires s <= e <= f.Size()
    ensures Names(out, f, Greedy(s, e))
    ensures forall p <- out :: p.Valid()
  {
    var g := Greedy(s, e);
    assert forall b <- g :: b.Stop() <= e by { GreedyTiles(s, e); TilesAscend(g, s, e); }
    assert forall b <- g :: b.bits <= f.Width() && b.start < f.Size() by {
      forall b <- g ensures b.bits <= f.Width() && b.start < f.Size() { BlockFits(f, b); }
    }
    seq(|g|, i requires 0 <= i < |g| => AddressPrefix(f, g[i].start, f.Width() - g[i].bits))
  }

  lemma NamesDetermine(out: seq<AddressPrefix>, f: Family, s: nat, e: nat)
    requires s <= e <= f.Size() && Names(out, f, Greedy(s, e))
    ensures out == Decompose(f, s, e)
  {
    var d := Decompose(f, s, e);
    forall i | 0 <= i < |out|
      ensures out[i] == d[i]
    {
      assert NamesBlock(out[i], f, Greedy(s, e)[i]) && NamesBlock(d[i], f, Greedy(s, e)[i]);
    }
  }

  lemma NamedBlock(p: AddressPrefix, f: Family, b: Block)
    requires NamesBlock(p, f, b) && b.Legal() && b.Stop() <= f.Size()
    ensures p.Valid() && p.Last() + 1 == b.Stop() && p.Trunc() == p
  {
    BlockFits(f, b);
    assert p.HostBits() == b.bits;
    TruncIsAligned(p);
  }

  /** The prefixes are host-bit-free, ascending and disjoint. */
  lemma DecomposeAscends(f: Family, s: nat, e: nat)
    requires s <= e <= f.Size()
    ensures var out := Decompose(f, s, e);
      && (forall i :: 0 <= i < |out| ==> out[i].Valid() && out[i].family == f && out[i].Trunc() == out[i]
                                         && s <= out[i].address && out[i].Last() < e)
      && (forall i, j :: 0 <= i < j < |out| ==> out[i].Last() < out[j].address)
    ensures forall i :: 0 <= i < |Greedy(s, e)| ==> Decompose(f, s, e)[i].Last() + 1 == Greedy(s, e)[i].Stop()
  {
    var out, g := Decompose(f, s, e), Greedy(s, e);
    GreedyTiles(s, e);
    TilesAscend(g, s, e);
    forall i | 0 <= i < |g|
      ensures out[i].Valid() && out[i].family == f && out[i].address == g[i].start
      ensures out[i].Last() + 1 == g[i].Stop() && out[i].Trunc() == out[i]
      ensures s <= g[i].start && g[i].Stop() <= e
    {
      assert NamesBlock(out[i], f, g[i]) && g[i] in g;
      NamedBlock(out[i], f, g[i]);
    }
  }

  lemma SameBlock(p: AddressPrefix, f: Family, b: Block, h: Family, a: nat)
    requires p.Valid() && NamesBlock(p, f, b) && p.Last() + 1 == b.Stop()
    ensures p.Has(h, a) <==> h == f && b.Has(a)
  {
  }

  /** They hold exactly the addresses of the interval. */
  lemma DecomposeCovers(f: Family, s: nat, e: nat)
    requires s <= e <= f.Size()
    ensures forall h: Family, a: nat :: Covered(PrefixSet(Decompose(f, s, e)), h, a) <==> h == f && s <= a < e
  {
    hide AddressPrefix.Last, AddressPrefix.HostBits, AddressPrefix.Has, AddressPrefix.Valid, Block.Stop, Block.Has,
      Greedy, Decompose, Hit, Tiles, NamesBlock;
    var out, g := Decompose(f, s, e), Greedy(s, e);
    DecomposeAscends(f, s, e);
    GreedyTiles(s, e);
    forall h: Family, a: nat
      ensures Covered(PrefixSet(out), h, a) <==> h == f && s <= a < e
    {
      TilesHit(g, s, e, a);
      forall i | 0 <= i < |g|
        ensures out[i].Has(h, a) <==> h == f && g[i].Has(a)
      {
        assert NamesBlock(out[i], f, g[i]);
        SameBlock(out[i], f, g[i], h, a);
      }
      if h == f && s <= a < e {
        var i :| 0 <= i < |g| && g[i].Has(a);
        assert out[i] in PrefixSet(out) && out[i].Has(f, a);
      }
      if Covered(PrefixSet(out), h, a) {
        var i :| 0 <= i < |out| && out[i].Has(h, a);
      }
    }
  }

  /** Blocks that tile an interval hit exactly its addresses. */
  lemma TilesHit(g: seq<Block>, s: nat, e: nat, a: nat)
    requires Tiles(g, s, e)
    ensures s <= a < e <==> exists i :: 0 <= i < |g| && g[i].Has(a)
  {
    hide Tiles;
    TilesAscend(g, s, e);
    if s <= a < e {
      assert Hit(BlockSet(g), a);
      var b :| b in BlockSet(g) && b.Has(a);
      var i :| 0 <= i < |g| && g[i] == b;
    } else {
      forall i | 0 <= i < |g|
        ensures !g[i].Has(a)
      {
        assert g[i] in g;
      }
    }
  }

  /** At most 62 prefixes for IPv4 and 254 for IPv6. */
  lemma DecomposeSize(f: Family, s: nat, e: nat)
    requires s < e <= f.Size()
    ensures 1 <= |Decompose(f, s, e)| <= if f == V4 then 62 else 254
  {
    SizeIsPower(f);
    SizeBound(f.Width(), s, e);
  }
}
