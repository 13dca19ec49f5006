/**
 How many prefixes a list really needs. The prefixes a reload inserts are the fewest that
 publish the list, so the capacity error strikes exactly the lists that cannot fit at all.
 */
module Capacity {
  import opened Addresses
  import opened Prefixes
  import opened Blocklist
  import opened StreamTheorems
  import opened Xdp

  /** `blocks` hold exactly the addresses of family `f` in the runs. */
  ghost predicate Exactly(blocks: set<Block>, runs: seq<Run>, f: Family) {
    && (forall b <- blocks :: b.Legal())
    && (forall a: int :: Hit(blocks, a) <==> a >= 0 && InRuns(runs, f, a))
  }

  ghost function From(blocks: set<Block>, x: nat): set<Block> {
    set b <- blocks | b.start >= x
  }

  /** A block lies on one side of a gap. */
  lemma OneSide(blocks: set<Block>, b: Block, runs: seq<Run>, r: Run)
    requires Normal(runs + [r]) && Exactly(blocks, runs + [r], r.family) && b in blocks
    ensures b.start >= r.first ==> b.Stop() <= r.last + 1
    ensures b.start < r.first ==> b.Stop() < r.first
  {
    hide Normal, Exactly;
    ExactHas(blocks, b, runs + [r], r.family);
    assert b.Stop() > b.start;
    if b.start >= r.first {
      LastOnly(runs, r, b.Stop() - 1);
    } else if b.Stop() >= r.first {
      LastOnly(runs, r, r.first - 1);
    }
  }

  lemma ExactHas(blocks: set<Block>, b: Block, runs: seq<Run>, f: Family)
    requires Exactly(blocks, runs, f) && b in blocks
    ensures forall a: nat :: b.Has(a) ==> InRuns(runs, f, a)
  {
    forall a: nat | b.Has(a)
      ensures InRuns(runs, f, a)
    {
      assert Hit(blocks, a);
    }
  }

  /** Addresses just before the last run, or above its start, are held by it or not at all. */
  lemma LastOnly(runs: seq<Run>, r: Run, a: nat)
    requires Normal(runs + [r])
    ensures a + 1 >= r.first && InRuns(runs + [r], r.family, a) ==> r.Has(r.family, a)
    ensures a + 1 >= r.first ==> !InRuns(runs, r.family, a)
  {
    var all := runs + [r];
    forall i | 0 <= i < |runs| && runs[i].family == r.family
      ensures runs[i].last + 1 < r.first
    {
      assert Apart(all[i], all[|runs|]);
    }
    if InRuns(all, r.family, a) && a + 1 >= r.first {
      var i :| 0 <= i < |all| && all[i].Has(r.family, a);
      assert i == |runs|;
    }
  }

  lemma LastRunCovered(blocks: set<Block>, runs: seq<Run>, r: Run)
    requires Normal(runs + [r]) && Exactly(blocks, runs + [r], r.family)
    ensures r.Valid() && Covers(From(blocks, r.first), r.first, r.last + 1)
  {
    var all := runs + [r];
    assert all[|runs|].Valid();
    forall b <- From(blocks, r.first)
      ensures b.Stop() <= r.last + 1
    {
      OneSide(blocks, b, runs, r);
    }
    forall a: int | r.first <= a < r.last + 1
      ensures Hit(From(blocks, r.first), a)
    {
      assert all[|runs|].Has(r.family, a);
      assert Hit(blocks, a);
      var b :| b in blocks && b.Has(a);
      OneSide(blocks, b, runs, r);
      assert b in From(blocks, r.first);
    }
  }

  lemma EarlierRunsCovered(blocks: set<Block>, runs: seq<Run>, r: Run)
    requires Normal(runs + [r]) && Exactly(blocks, runs + [r], r.family)
    ensures Exactly(blocks - From(blocks, r.first), runs, r.family)
  {
    var rest := blocks - From(blocks, r.first);
    var all := runs + [r];
    NormalSnoc(all);
    assert all[..|runs|] == runs;
    forall a: int
      ensures Hit(rest, a) <==> a >= 0 && InRuns(runs, r.family, a)
    {
      if Hit(rest, a) {
        var b :| b in rest && b.Has(a);
        OneSide(blocks, b, runs, r);
        assert Hit(blocks, a);
      }
      if a >= 0 && InRuns(runs, r.family, a) {
        LastOnly(runs, r, a);
        assert Hit(blocks, a);
        var b :| b in blocks && b.Has(a);
        OneSide(blocks, b, runs, r);
        assert b in rest;
      }
    }
  }

  lemma OtherRun(blocks: set<Block>, runs: seq<Run>, r: Run, f: Family)
    requires Normal(runs + [r]) && Exactly(blocks, runs + [r], f) && r.family != f
    ensures Exactly(blocks, runs, f)
  {
    var all := runs + [r];
    NormalSnoc(all);
    assert all[..|runs|] == runs;
  }

  /** No collection of blocks holds exactly the addresses of a family with fewer members. */
  lemma {:induction false} NeedIsLeast(blocks: set<Block>, runs: seq<Run>, f: Family)
    requires Normal(runs) && Exactly(blocks, runs, f)
    ensures Need(runs, f) <= |blocks|
  {
    hide Exactly, Normal, Greedy, InRuns;
    if runs != [] {
      var n := |runs| - 1;
      var front, r := runs[..n], runs[n];
      assert runs == front + [r];
      NormalSnoc(runs);
      if r.family == f {
        LastRunCovered(blocks, front, r);
        EarlierRunsCovered(blocks, front, r);
        var last := From(blocks, r.first);
        Minimal(last, r.first, r.last + 1);
        NeedIsLeast(blocks - last, front, f);
        assert |RunPrefixes(r)| == |Greedy(r.first, r.last + 1)|;
        assert blocks == (blocks - last) + last;
        assert |blocks| == |blocks - last| + |last|;
      } else {
        OtherRun(blocks, front, r, f);
        NeedIsLeast(blocks, front, f);
      }
    }
  }

  // --- In terms of prefixes ------------------------------------------------------------------

  /** Host-bit-free prefixes that hold exactly the listed addresses. */
  ghost predicate PublishesList(prefixes: set<AddressPrefix>, lines: seq<Line>) {
    && (forall p <- prefixes :: p.Valid() && p.Trunc() == p)
    && (forall f, a :: Covered(prefixes, f, a) <==> Listed(lines, f, a))
  }

  ghost function OfFamily(prefixes: set<AddressPrefix>, f: Family): set<AddressPrefix> {
    set p <- prefixes | p.family == f
  }

  ghost function Blocks(prefixes: set<AddressPrefix>, f: Family): set<Block>
    requires forall p <- prefixes :: p.Valid()
  {
    set p <- prefixes | p.family == f :: Block(p.address, p.HostBits())
  }

  lemma {:induction false} BlocksAtMost(prefixes: set<AddressPrefix>, f: Family)
    requires forall p <- prefixes :: p.Valid()
    ensures |Blocks(prefixes, f)| <= |OfFamily(prefixes, f)|
  {
    if prefixes == {} {
      assert Blocks(prefixes, f) == {};
    } else {
      var p :| p in prefixes;
      var rest := prefixes - {p};
      BlocksAtMost(rest, f);
      if p.family == f {
        assert OfFamily(prefixes, f) == OfFamily(rest, f) + {p};
        assert Blocks(prefixes, f) == Blocks(rest, f) + {Block(p.address, p.HostBits())};
      } else {
        assert OfFamily(prefixes, f) == OfFamily(rest, f);
        assert Blocks(prefixes, f) == Blocks(rest, f);
      }
    }
  }

  lemma BlocksAreExact(prefixes: set<AddressPrefix>, lines: seq<Line>, f: Family)
    requires Canonical(lines) && PublishesList(prefixes, lines)
    ensures Exactly(Blocks(prefixes, f), Runs(lines), f)
  {
    hide Canonical, Listed, InRuns, Runs;
    RunsAreNormal(lines);
    var blocks := Blocks(prefixes, f);
    forall b <- blocks
      ensures b.Legal()
    {
      var p :| p in prefixes && p.family == f && b == Block(p.address, p.HostBits());
      TruncIsAligned(p);
    }
    forall a: int
      ensures Hit(blocks, a) <==> a >= 0 && InRuns(Runs(lines), f, a)
    {
      if Hit(blocks, a) {
        var b :| b in blocks && b.Has(a);
        var p :| p in prefixes && p.family == f && b == Block(p.address, p.HostBits());
        assert p.Has(f, a);
        assert Covered(prefixes, f, a);
      }
      if a >= 0 && InRuns(Runs(lines), f, a) {
        assert Covered(prefixes, f, a);
        var p :| p in prefixes && p.Valid() && p.Has(f, a);
        assert Block(p.address, p.HostBits()).Has(a) && Block(p.address, p.HostBits()) in blocks;
      }
    }
  }

  /** However a list is published, each family takes at least the prefixes a reload inserts for it. */
  lemma ReloadIsLeast(prefixes: set<AddressPrefix>, lines: seq<Line>, f: Family)
    requires Canonical(lines) && PublishesList(prefixes, lines)
    ensures Need(Runs(lines), f) <= |OfFamily(prefixes, f)|
  {
    RunsAreNormal(lines);
    BlocksAreExact(prefixes, lines, f);
    NeedIsLeast(Blocks(prefixes, f), Runs(lines), f);
    BlocksAtMost(prefixes, f);
  }

  /** What a reload publishes does hold exactly the listed addresses. */
  lemma TargetPublishes(lines: seq<Line>)
    requires Canonical(lines)
    ensures PublishesList(Target(lines), lines)
  {
    hide Runs, Listed, Canonical, InRuns;
    RunsAreNormal(lines);
    PrefixListHolds(Runs(lines));
  }

  lemma {:induction false} CountFIsAtLeast(out: seq<AddressPrefix>, f: Family)
    ensures |OfFamily(PrefixSet(out), f)| <= CountF(out, f)
  {
    if out == [] {
      assert OfFamily(PrefixSet(out), f) == {};
    } else {
      var n := |out| - 1;
      CountFIsAtLeast(out[..n], f);
      assert out == out[..n] + [out[n]];
      assert OfFamily(PrefixSet(out), f) ==
             OfFamily(PrefixSet(out[..n]), f) + if out[n].family == f then {out[n]} else {};
    }
  }

  /** A reload has room for a list exactly when some set of prefixes that publishes the list fits. */
  lemma FitsWheneverPossible(lines: seq<Line>, config: XdpConfig)
    requires Canonical(lines)
    ensures Fits(lines, config) <==>
      exists prefixes :: PublishesList(prefixes, lines)
        && |OfFamily(prefixes, V4)| <= config.ipv4MaxEntries && |OfFamily(prefixes, V6)| <= config.ipv6MaxEntries
  {
    hide Runs, Canonical, Need;
    TargetPublishes(lines);
    forall f
      ensures |OfFamily(Target(lines), f)| <= Need(Runs(lines), f)
    {
      NeedCounts(Runs(lines), f);
      CountFIsAtLeast(PrefixList(Runs(lines)), f);
    }
    forall prefixes, f | PublishesList(prefixes, lines)
      ensures Need(Runs(lines), f) <= |OfFamily(prefixes, f)|
    {
      ReloadIsLeast(prefixes, lines, f);
    }
  }

  /** A file with no more lines of each family than its capacity never meets the capacity error. */
  lemma LinesSuffice(lines: seq<Line>, config: XdpConfig)
    requires Canonical(lines)
    requires EntriesOf(lines, V4) <= config.ipv4MaxEntries && EntriesOf(lines, V6) <= config.ipv6MaxEntries
    ensures Fits(lines, config)
  {
    forall f
      ensures Need(Runs(lines), f) <= config.Capacity(f)
    {
      NeedAtMostLines(lines, f);
    }
  }
}
