/**
 Decomposition of an address interval into aligned power-of-two blocks
 (CIDR blocks, section 3.1 of RFC 4632).

 `Greedy` is the width-independent specification. `Minimal` and `UniqueMinimal`
 say what makes it right; the two machine-width loops of `interval_prefixes` are
 proved to compute it.
 */
module Prefixes {
  import opened Bits

  /** The addresses `start .. start + 2^bits`. */
  datatype Block = Block(start: nat, bits: nat) {
    function Stop(): nat {
      start + Pow2(bits)
    }

    predicate Legal() {
      Aligned(start, bits)
    }

    predicate Has(a: int) {
      start <= a < Stop()
    }
  }

  ghost predicate Hit(blocks: set<Block>, a: int) {
    exists b <- blocks :: b.Has(a)
  }

  ghost function BlockSet(out: seq<Block>): set<Block> {
    set b <- out
  }

  /** `blocks` is a collection of aligned blocks whose union is exactly `s .. e`. */
  ghost predicate Covers(blocks: set<Block>, s: int, e: int) {
    && (forall b <- blocks :: b.Legal() && s <= b.start && b.Stop() <= e)
    && (forall a: int :: s <= a < e ==> Hit(blocks, a))
  }

  /** `h` is the size of an aligned block that starts at `s`, ends by `e`, and cannot be doubled. */
  ghost predicate Largest(s: nat, e: nat, h: nat) {
    && Aligned(s, h) && s + Pow2(h) <= e
    && !(Aligned(s, h + 1) && s + Pow2(h + 1) <= e)
  }

  lemma LargestExists(s: nat, e: nat, h: nat) returns (g: nat)
    requires s < e && Aligned(s, h) && s + Pow2(h) <= e
    ensures Largest(s, e, g)
    decreases e - Pow2(h)
  {
    if Aligned(s, h + 1) && s + Pow2(h + 1) <= e {
      g := LargestExists(s, e, h + 1);
    } else {
      g := h;
    }
  }

  /** The first block the greedy rule takes: the largest that starts at `s` and ends by `e`. */
  ghost function Head(s: nat, e: nat): (b: Block)
    requires s < e
    ensures b.start == s && Largest(s, e, b.bits)
  {
    assert exists h: nat :: Largest(s, e, h) by {
      var h := LargestExists(s, e, 0);
    }
    var h: nat :| Largest(s, e, h);
    Block(s, h)
  }

  /** Repeatedly take the largest block that fits. */
  ghost function Greedy(s: nat, e: nat): (out: seq<Block>)
    decreases e - s
  {
    if s >= e then [] else [Head(s, e)] + Greedy(Head(s, e).Stop(), e)
  }

  /** Any way to recognise the largest block recognises the head. */
  lemma HeadIs(s: nat, e: nat, h: nat)
    requires s < e && Largest(s, e, h)
    ensures Head(s, e) == Block(s, h)
  {
    HeadLargest(s, e, h);
    if h < Head(s, e).bits {
      AlignedWeaken(s, Head(s, e).bits, h + 1);
      Pow2Monotone(h + 1, Head(s, e).bits);
    }
  }

  lemma HeadLargest(s: nat, e: nat, h: nat)
    requires s < e && Aligned(s, h) && s + Pow2(h) <= e
    ensures h <= Head(s, e).bits
  {
    var b := Head(s, e).bits;
    if b < h {
      AlignedWeaken(s, h, b + 1);
      Pow2Monotone(b + 1, h);
    }
  }

  lemma GreedySet(s: nat, e: nat)
    requires s < e
    ensures BlockSet(Greedy(s, e)) == {Head(s, e)} + BlockSet(Greedy(Head(s, e).Stop(), e))
  {
    assert Greedy(s, e) == [Head(s, e)] + Greedy(Head(s, e).Stop(), e);
  }

  /** The blocks ascend without gaps from `s` to `e`. */
  ghost predicate Tiles(out: seq<Block>, s: nat, e: nat) {
    if out == [] then
      s == e
    else
      out[0].start == s && out[0].Legal() && Tiles(out[1..], out[0].Stop(), e)
  }

  lemma {:induction false} GreedyTiles(s: nat, e: nat)
    requires s <= e
    ensures Tiles(Greedy(s, e), s, e)
    decreases e - s
  {
    if s < e {
      GreedyTiles(Head(s, e).Stop(), e);
      assert Greedy(s, e)[1..] == Greedy(Head(s, e).Stop(), e);
    }
  }

  lemma {:induction false} TilesAscend(out: seq<Block>, s: nat, e: nat)
    requires Tiles(out, s, e)
    ensures s <= e
    ensures forall b <- out :: b.Legal() && s <= b.start && b.Stop() <= e
    ensures forall i, j :: 0 <= i < j < |out| ==> out[i].Stop() <= out[j].start
    ensures forall a: int :: s <= a < e <==> Hit(BlockSet(out), a)
  {
    if out != [] {
      var rest := out[1..];
      TilesAscend(rest, out[0].Stop(), e);
      assert out == [out[0]] + rest;
      assert BlockSet(out) == {out[0]} + BlockSet(rest);
      forall a: int
        ensures s <= a < e <==> Hit(BlockSet(out), a)
      {
        assert Hit(BlockSet(out), a) <==> out[0].Has(a) || Hit(BlockSet(rest), a);
      }
    }
  }

  /** Aligned blocks are nested or disjoint: one that starts strictly inside another stays inside. */
  lemma Nested(a: Block, b: Block)
    requires a.Legal() && b.Legal()
    requires a.start < b.start < a.Stop()
    ensures b.bits < a.bits && b.Stop() <= a.Stop()
  {
    var p, q := Pow2(a.bits), Pow2(b.bits);
    if b.bits >= a.bits {
      AlignedWeaken(b.start, b.bits, a.bits);
      var i := Multiple(a.start, a.bits);
      var j := Multiple(b.start, a.bits);
      Between(i, j, p);
      assert false;
    }
    AlignedWeaken(a.start, a.bits, b.bits);
    Pow2Add(a.bits - b.bits, b.bits);
    MultipleAligned(Pow2(a.bits - b.bits), b.bits);
    AlignedSum(a.start, p, b.bits);
    var m := Multiple(a.Stop(), b.bits);
    var j := Multiple(b.start, b.bits);
    NextMultiple(j, m, q);
  }

  /** Members of a cover that do not start inside the first greedy block. */
  ghost function Beyond(blocks: set<Block>, x: nat): set<Block> {
    set b <- blocks | x <= b.start
  }

  lemma GreedyHead(blocks: set<Block>, s: nat, e: nat) returns (b: Block)
    requires s < e && Covers(blocks, s, e)
    ensures b in blocks && b.start == s && b.bits <= Head(s, e).bits
    ensures Covers(Beyond(blocks, Head(s, e).Stop()), Head(s, e).Stop(), e)
  {
    var first := Head(s, e);
    assert Hit(blocks, s);
    b :| b in blocks && b.Has(s);
    HeadLargest(s, e, b.bits);
    forall c <- blocks | c.start < first.Stop()
      ensures c.Stop() <= first.Stop()
    {
      if c.start == s {
        HeadLargest(s, e, c.bits);
        Pow2Monotone(c.bits, first.bits);
      } else {
        Nested(first, c);
      }
    }
    forall a: int | first.Stop() <= a < e
      ensures Hit(Beyond(blocks, first.Stop()), a)
    {
      assert Hit(blocks, a);
      var c :| c in blocks && c.Has(a);
      assert c in Beyond(blocks, first.Stop());
    }
  }

  lemma {:induction false} SubsetSize<T>(a: set<T>, b: set<T>)
    requires a <= b
    ensures |a| <= |b|
    ensures |a| == |b| ==> a == b
  {
    if a != b {
      var x :| x in b && x !in a;
      SubsetSize(a, b - {x});
    }
  }

  /** No collection of blocks with the same union is smaller than the greedy one. */
  lemma {:induction false} Minimal(blocks: set<Block>, s: nat, e: nat)
    requires s <= e && Covers(blocks, s, e)
    ensures |Greedy(s, e)| <= |blocks|
    decreases e - s
  {
    if s < e {
      var x := Head(s, e).Stop();
      var b := GreedyHead(blocks, s, e);
      Minimal(Beyond(blocks, x), x, e);
      SubsetSize(Beyond(blocks, x), blocks - {b});
    }
  }

  /** And the greedy collection is the only one of its size. */
  lemma {:induction false} UniqueMinimal(blocks: set<Block>, s: nat, e: nat)
    requires s <= e && Covers(blocks, s, e) && |blocks| == |Greedy(s, e)|
    ensures blocks == BlockSet(Greedy(s, e))
    decreases e - s
  {
    if s < e {
      var x := Head(s, e).Stop();
      var b := GreedyHead(blocks, s, e);
      var rest := Beyond(blocks, x);
      Minimal(rest, x, e);
      SubsetSize(rest, blocks - {b});
      UniqueMinimal(rest, x, e);
      WholeHead(blocks, b, s, e);
      GreedySet(s, e);
    } else {
      assert forall b <- blocks :: b.start < b.Stop();
      assert blocks == {};
    }
  }

  lemma WholeHead(blocks: set<Block>, b: Block, s: nat, e: nat)
    requires s < e && Covers(blocks, s, e) && b in blocks && b.start == s
    requires Beyond(blocks, Head(s, e).Stop()) == blocks - {b}
    ensures b == Head(s, e)
  {
    var x := Head(s, e).Stop();
    HeadLargest(s, e, b.bits);
    assert Hit(blocks, x - 1);
    var c :| c in blocks && c.Has(x - 1);
    assert c !in Beyond(blocks, x);
    Pow2Strict(Head(s, e).bits, b.bits);
  }

  lemma GreedyCovers(s: nat, e: nat)
    requires s <= e
    ensures Covers(BlockSet(Greedy(s, e)), s, e)
  {
    GreedyTiles(s, e);
    TilesAscend(Greedy(s, e), s, e);
  }

  // --- How many blocks an interval can need -------------------------------------------

  lemma Join(c: set<Block>, d: set<Block>, s: nat, m: nat, e: nat) returns (both: set<Block>)
    requires s <= m <= e && Covers(c, s, m) && Covers(d, m, e)
    ensures Covers(both, s, e) && |both| <= |c| + |d|
  {
    both := c + d;
    forall a: int | s <= a < e
      ensures Hit(both, a)
    {
      assert a < m ==> Hit(c, a);
      assert m <= a ==> Hit(d, a);
    }
  }

  lemma Whole(at: nat, k: nat) returns (c: set<Block>)
    requires Aligned(at, k)
    ensures Covers(c, at, at + Pow2(k)) && |c| == 1
  {
    c := {Block(at, k)};
    assert Block(at, k) in c;
  }

  lemma Halves(at: nat, k: nat)
    requires Aligned(at, k) && k > 0
    ensures Aligned(at, k - 1) && Aligned(at + Pow2(k - 1), k - 1)
  {
    AlignedWeaken(at, k, k - 1);
    MultipleAligned(1, k - 1);
    AlignedSum(at, Pow2(k - 1), k - 1);
  }

  /** The tail of an aligned block needs one block a bit at most. */
  lemma {:induction false} TailCover(at: nat, k: nat, s: nat) returns (c: set<Block>)
    requires Aligned(at, k) && at <= s < at + Pow2(k)
    ensures Covers(c, s, at + Pow2(k))
    ensures |c| <= if s == at then 1 else k
    decreases k
  {
    if s == at {
      c := Whole(at, k);
    } else {
      Halves(at, k);
      var mid := at + Pow2(k - 1);
      if s < mid {
        c := TailCover(at, k - 1, s);
        var d := Whole(mid, k - 1);
        c := Join(c, d, s, mid, at + Pow2(k));
      } else {
        c := TailCover(mid, k - 1, s);
      }
    }
  }

  /** So does its beginning. */
  lemma {:induction false} StartCover(at: nat, k: nat, e: nat) returns (c: set<Block>)
    requires Aligned(at, k) && at < e <= at + Pow2(k)
    ensures Covers(c, at, e)
    ensures |c| <= if e == at + Pow2(k) then 1 else k
    decreases k
  {
    if e == at + Pow2(k) {
      c := Whole(at, k);
    } else {
      Halves(at, k);
      var mid := at + Pow2(k - 1);
      if e <= mid {
        c := StartCover(at, k - 1, e);
      } else {
        c := Whole(at, k - 1);
        var d := StartCover(mid, k - 1, e);
        c := Join(c, d, at, mid, e);
      }
    }
  }

  lemma {:induction false} InnerCover(at: nat, k: nat, s: nat, e: nat) returns (c: set<Block>)
    requires Aligned(at, k) && at <= s < e <= at + Pow2(k)
    ensures Covers(c, s, e)
    ensures |c| <= if k < 2 then 1 else 2 * k - 2
    decreases k
  {
    if s == at && e == at + Pow2(k) {
      c := Whole(at, k);
    } else {
      Halves(at, k);
      var mid := at + Pow2(k - 1);
      if e <= mid {
        c := InnerCover(at, k - 1, s, e);
      } else if mid <= s {
        c := InnerCover(mid, k - 1, s, e);
      } else {
        c := TailCover(at, k - 1, s);
        var d := StartCover(mid, k - 1, e);
        c := Join(c, d, s, mid, e);
      }
    }
  }

  /** An interval of a `w`-bit family never needs more than 2w - 2 blocks. */
  lemma SizeBound(w: nat, s: nat, e: nat)
    requires w >= 2 && s < e <= Pow2(w)
    ensures |Greedy(s, e)| <= 2 * w - 2
  {
    ZeroAligned(w);
    var c := InnerCover(0, w, s, e);
    Minimal(c, s, e);
  }

  /** The bound is attained by every address but the first and the last. */
  lemma BoundAttained(w: nat, e: nat)
    requires w >= 1 && e + 1 == Pow2(w)
    ensures |Greedy(1, e)| == 2 * w - 2
  {
    Climb(w, 0, e);
    assert Pow2(0) == 1;
  }

  lemma GreedyStep(s: nat, e: nat, h: nat)
    requires Aligned(s, h) && s + Pow2(h) <= e
    requires e < s + Pow2(h + 1) || !Aligned(s, h + 1)
    ensures |Greedy(s, e)| == 1 + |Greedy(s + Pow2(h), e)|
  {
    var b := Head(s, e);
    HeadLargest(s, e, h);
    Alignments(s);
    if e < s + Pow2(h + 1) {
      Shorter(b, h + 1);
    }
  }

  lemma ClimbStep(i: nat, e: nat)
    requires Pow2(i + 1) <= e
    ensures |Greedy(Pow2(i), e)| == 1 + |Greedy(Pow2(i + 1), e)|
  {
    var s := Pow2(i);
    assert Aligned(s, i) && !Aligned(s, i + 1) by {
      PowerAligned(i, i);
      PowerAligned(i, i + 1);
    }
    GreedyStep(s, e, i);
  }

  lemma {:induction false} Climb(w: nat, i: nat, e: nat)
    requires i < w && e + 1 == Pow2(w)
    ensures |Greedy(Pow2(i), e)| == w - 1 - i + w - 1
    decreases w - i
  {
    if i + 1 < w {
      assert Pow2(i + 1) <= e by { Pow2Monotone(i + 2, w); }
      ClimbStep(i, e);
      Climb(w, i + 1, e);
    } else {
      Descend(w, i, e);
    }
  }

  lemma DescendStep(w: nat, j: nat, e: nat)
    requires j < w && Pow2(j + 1) <= Pow2(w) == e + 1
    ensures |Greedy(e + 1 - Pow2(j + 1), e)| == 1 + |Greedy(e + 1 - Pow2(j), e)|
  {
    var s := e + 1 - Pow2(j + 1);
    assert Aligned(s, j) by {
      PowerAligned(w, j);
      PowerAligned(j + 1, j);
      AlignedDifference(Pow2(w), Pow2(j + 1), j);
    }
    GreedyStep(s, e, j);
    assert s + Pow2(j) == e + 1 - Pow2(j);
  }

  lemma {:induction false} Descend(w: nat, j: nat, e: nat)
    requires j <= w && e + 1 == Pow2(w)
    ensures Pow2(j) <= e + 1
    ensures |Greedy(e + 1 - Pow2(j), e)| == j
  {
    Pow2Monotone(j, w);
    if j > 0 {
      DescendStep(w, j - 1, e);
      Descend(w, j - 1, e);
    }
  }

  // --- Shape ---------------------------------------------------------------------------

  ghost predicate Rises(out: seq<Block>) {
    forall i, j :: 0 <= i < j < |out| ==> out[i].bits < out[j].bits
  }

  ghost predicate Falls(out: seq<Block>) {
    forall i, j :: 0 <= i < j < |out| ==> out[i].bits > out[j].bits
  }

  lemma {:induction false} FallsBelow(s: nat, e: nat, h: nat)
    requires Aligned(s, h) && s <= e < s + Pow2(h)
    ensures Falls(Greedy(s, e))
    ensures forall b <- Greedy(s, e) :: b.bits < h
    decreases e - s
  {
    if s < e {
      var b := Head(s, e);
      Shorter(b, h);
      AlignedWeaken(s, h, b.bits + 1);
      Halves(s, b.bits + 1);
      assert s + Pow2(b.bits + 1) > e;
      FallsBelow(b.Stop(), e, b.bits);
    }
  }

  lemma Shorter(b: Block, h: nat)
    requires b.start + Pow2(b.bits) < b.start + Pow2(h)
    ensures b.bits < h
  {
    if h <= b.bits {
      Pow2Monotone(h, b.bits);
    }
  }

  /**
   Block sizes strictly rise and then strictly fall, so at most two neighbours, those
   at the peak, are equal.
   */
  lemma {:induction false} Unimodal(s: nat, e: nat) returns (peak: nat)
    requires s < e
    ensures peak < |Greedy(s, e)|
    ensures Rises(Greedy(s, e)[..peak]) && Falls(Greedy(s, e)[peak..])
    ensures peak > 0 ==> !Aligned(s, Head(s, e).bits + 1)
    decreases e - s
  {
    var b := Head(s, e);
    var x := b.Stop();
    var rest := Greedy(x, e);
    assert Greedy(s, e) == [b] + rest;
    if s + Pow2(b.bits + 1) > e {
      TailFalls(b, e);
      peak := 0;
      assert ([b] + rest)[..0] == [] && ([b] + rest)[0..] == [b] + rest;
    } else {
      NextIsAligned(b, e);
      var p := Unimodal(x, e);
      peak := p + 1;
      RisesFrom(b, rest, p);
    }
  }

  lemma TailFalls(b: Block, e: nat)
    requires b.Legal() && b.Stop() <= e < b.start + Pow2(b.bits + 1)
    ensures Falls([b] + Greedy(b.Stop(), e))
  {
    PowerAligned(b.bits, b.bits);
    AlignedSum(b.start, Pow2(b.bits), b.bits);
    FallsBelow(b.Stop(), e, b.bits);
  }

  lemma NextIsAligned(b: Block, e: nat)
    requires b.start < e && b == Head(b.start, e) && b.start + Pow2(b.bits + 1) <= e
    ensures b.Stop() < e && !Aligned(b.start, b.bits + 1)
    ensures !Aligned(b.Stop(), Head(b.Stop(), e).bits + 1) ==> b.bits < Head(b.Stop(), e).bits
  {
    assert !Aligned(b.start, b.bits + 1);
    NextAlignment(b.start, b.bits);
    Alignments(b.Stop());
  }

  lemma RisesFrom(b: Block, rest: seq<Block>, p: nat)
    requires p < |rest| && Rises(rest[..p])
    requires p > 0 ==> b.bits < rest[0].bits
    ensures Rises(([b] + rest)[..p + 1]) && ([b] + rest)[p + 1..] == rest[p..]
  {
    assert ([b] + rest)[..p + 1] == [b] + rest[..p];
    assert p > 0 ==> rest[..p][0] == rest[0];
  }

  lemma {:induction false} NextAlignment(s: nat, h: nat)
    requires Aligned(s, h) && !Aligned(s, h + 1)
    ensures Aligned(s + Pow2(h), h + 1)
    decreases h
  {
    if h > 0 {
      NextAlignment(s / 2, h - 1);
      assert (s + Pow2(h)) / 2 == s / 2 + Pow2(h - 1);
    }
  }
}
