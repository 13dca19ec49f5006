/** What `stream_chunks` and `interval_prefixes` guarantee together. */
module StreamTheorems {
  import opened Wrappers
  import opened Bits
  import opened Addresses
  import opened Prefixes
  import opened Decomposition
  import opened Blocklist
  import opened Stream

  // --- Acceptance -----------------------------------------------------------------------

  /** A file is accepted exactly when it is canonical. */
  lemma AcceptanceIsCanonicity(lines: seq<Line>, limit: nat, emitOk: nat -> bool,
                               sent: seq<Chunk>, result: Result<StreamStats, StreamError>)
    requires Outcome(lines, limit, emitOk, sent, result)
    requires forall k :: emitOk(k)
    ensures result.Ok? <==> Canonical(lines)
  {
    NeverRefused(lines, limit, emitOk, sent, result);
    AcceptanceOf(lines, limit, emitOk, sent, result);
  }

  /** The line and the reason of a rejection depend on the file only. */
  lemma RejectionIsDetermined(lines: seq<Line>, limit1: nat, limit2: nat, ok1: nat -> bool, ok2: nat -> bool,
                              sent1: seq<Chunk>, sent2: seq<Chunk>, e1: StreamError, e2: StreamError)
    requires e1.Rejected? && e2.Rejected?
    requires Outcome(lines, limit1, ok1, sent1, Err(e1)) && Outcome(lines, limit2, ok2, sent2, Err(e2))
    ensures e1 == e2
  {
    hide Outcome, Canonical, Fault;
    RejectedAt(lines, limit1, ok1, sent1, e1);
    RejectedAt(lines, limit2, ok2, sent2, e2);
    NoFaultBefore(lines, e1.line - 1, e2.line - 1);
    NoFaultBefore(lines, e2.line - 1, e1.line - 1);
  }

  /**
   Which reason a rejection gives: the line itself decides between the first three, then an
   IPv4 block behind any IPv6 block, then a block that some earlier one reaches or passes.
   */
  lemma ReasonOfRejection(lines: seq<Line>, limit: nat, emitOk: nat -> bool, sent: seq<Chunk>, line: nat,
                          reason: Reason)
    requires Outcome(lines, limit, emitOk, sent, Err(Rejected(line, reason)))
    ensures 1 <= line <= |lines|
    ensures reason == Io <==> lines[line - 1].Unreadable?
    ensures reason == Invalid <==> lines[line - 1].Garbled?
    ensures reason.HostBitsSet? || reason.Ipv4AfterIpv6? || reason.Disorder? ==> lines[line - 1].Entry?
    ensures lines[line - 1].Entry? ==>
      var net := lines[line - 1].net;
      var aligned := net.address % Pow2(net.HostBits()) == 0;
      var late :=
        net.family == V4 && exists i :: 0 <= i < line - 1 && lines[i].Entry? && lines[i].net.family == V6;
      var meets :=
        exists i :: 0 <= i < line - 1 && lines[i].Entry? && lines[i].net.family == net.family
                    && net.address <= lines[i].net.Last();
      && (reason == HostBitsSet <==> !aligned)
      && (reason == Ipv4AfterIpv6 <==> aligned && late)
      && (reason == Disorder <==> aligned && !late && meets)
  {
    hide Canonical, SentBy;
    var l := lines[line - 1];
    if l.Entry? {
      TruncIsAligned(l.net);
      AlignedMeansDivisible(l.net.address, l.net.HostBits());
    }
  }

  lemma RejectedAt(lines: seq<Line>, limit: nat, emitOk: nat -> bool, sent: seq<Chunk>, e: StreamError)
    requires e.Rejected? && Outcome(lines, limit, emitOk, sent, Err(e))
    ensures 1 <= e.line <= |lines| && Canonical(lines[..e.line - 1])
    ensures Fault(lines[..e.line - 1], lines[e.line - 1]) == Some(e.reason)
  {
    hide Canonical, Fault, SentBy;
  }

  lemma NoFaultBefore(lines: seq<Line>, i: nat, j: nat)
    requires i < |lines| && j <= |lines|
    ensures i < j && Canonical(lines[..j]) ==> Fault(lines[..i], lines[i]).None?
  {
    hide Canonical, Fault;
    CanonicalCut(lines, i, j);
    CanonicalCut(lines, i + 1, j);
    assert lines[..i + 1] == lines[..i] + [lines[i]];
    if Canonical(lines[..i]) {
      FaultIsExact(lines[..i], lines[i]);
    }
  }

  // --- Refused calls --------------------------------------------------------------------

  /**
   A callback that refuses a call only cuts the pass short: the chunks it was called with are
   the first ones of those that every pass over the file sends, up to the first refused one.
   */
  lemma RefusalTruncates(lines: seq<Line>, limit: nat, emitOk: nat -> bool, yes: nat -> bool,
                         sent: seq<Chunk>, result: Result<StreamStats, StreamError>,
                         all: seq<Chunk>, whole: Result<StreamStats, StreamError>)
    requires forall k :: yes(k)
    requires Outcome(lines, limit, emitOk, sent, result) && Outcome(lines, limit, yes, all, whole)
    ensures sent <= all
    ensures result == Err(EmitFailed) <==> exists k :: 0 <= k < |all| && !emitOk(k)
    ensures result == Err(EmitFailed) ==>
      sent != [] && !emitOk(|sent| - 1) && forall k :: 0 <= k < |sent| - 1 ==> emitOk(k)
    ensures result != Err(EmitFailed) ==> sent == all && result == whole
  {
    hide Canonical, Fault, WellPacked, Runs, SealAll, Flatten, SentBy;
    NeverRefused(lines, limit, yes, all, whole);
    if result != Err(EmitFailed) {
      AcceptanceOf(lines, limit, emitOk, sent, result);
      AcceptanceOf(lines, limit, yes, all, whole);
      if result.Err? {
        RejectionIsDetermined(lines, limit, limit, emitOk, yes, sent, all, result.error, whole.error);
      }
    }
  }

  lemma NeverRefused(lines: seq<Line>, limit: nat, yes: nat -> bool, all: seq<Chunk>,
                     whole: Result<StreamStats, StreamError>)
    requires (forall k :: yes(k)) && Outcome(lines, limit, yes, all, whole)
    ensures whole != Err(EmitFailed) && all == SentBy(lines, limit)
  {
    hide SentBy;
  }

  /** Without a refused call, success is canonicity. */
  lemma AcceptanceOf(lines: seq<Line>, limit: nat, emitOk: nat -> bool, sent: seq<Chunk>,
                     result: Result<StreamStats, StreamError>)
    requires Outcome(lines, limit, emitOk, sent, result) && result != Err(EmitFailed)
    ensures result.Ok? <==> Canonical(lines)
  {
    hide SentBy, Canonical, Fault;
    if result.Err? {
      RejectedAt(lines, limit, emitOk, sent, result.error);
      var n := result.error.line - 1;
      assert lines[..n + 1] == lines[..n] + [lines[n]];
      FaultIsExact(lines[..n], lines[n]);
      CanonicalCut(lines, n + 1, n);
    }
  }

  /** What a pass guarantees when no call is refused. */
  lemma StreamFacts(lines: seq<Line>, limit: nat, yes: nat -> bool, sent: seq<Chunk>,
                    result: Result<StreamStats, StreamError>)
    requires (forall k :: yes(k)) && Outcome(lines, limit, yes, sent, result)
    ensures WellPacked(sent, limit)
    ensures result.Ok? <==> Canonical(lines)
    ensures result.Ok? ==>
      Flatten(sent) == SealAll(Runs(lines)) && result.value == StatsOf(Entries(lines), Flatten(sent))
    ensures result.Err? ==> result.error.Rejected?
  {
    hide SentBy;
    NeverRefused(lines, limit, yes, sent, result);
    AcceptanceOf(lines, limit, yes, sent, result);
  }

  // --- The chunk limit ------------------------------------------------------------------

  lemma {:induction false} FlattenMembers(chunks: seq<Chunk>)
    ensures forall iv :: iv in Flatten(chunks) <==> exists c <- chunks :: iv in c
  {
    if chunks != [] {
      var n := |chunks| - 1;
      FlattenMembers(chunks[..n]);
      assert chunks == chunks[..n] + [chunks[n]];
    }
  }

  /** The same for every sequence of chunks a pass can send, rejected and refused passes included. */
  lemma ChunksWithinLimit(sent: seq<Chunk>, limit: nat)
    requires WellPacked(sent, limit)
    ensures (forall c <- sent :: Weight(c) <= limit) <==> limit >= 2 || forall iv <- Flatten(sent) :: iv.afterLast.None?
  {
    hide Weight, WellSized, Flatten;
    forall c | c in sent
      ensures Weight(c) <= limit <==> limit >= 2 || forall iv <- c :: iv.afterLast.None?
    {
      var k :| 0 <= k < |sent| && sent[k] == c;
      Sized(sent, k, limit);
      ChunkBound(c, limit);
    }
    FlattenMembers(sent);
  }

  /**
   On an accepted file every chunk stays within the limit exactly when the limit is at least
   two, or no run of the file ends before the last address of its family.
   */
  lemma LimitHolds(lines: seq<Line>, limit: nat, emitOk: nat -> bool, sent: seq<Chunk>, stats: StreamStats)
    requires Outcome(lines, limit, emitOk, sent, Ok(stats))
    ensures (forall c <- sent :: Weight(c) <= limit) <==>
            limit >= 2 || forall r <- Runs(lines) :: r.last + 1 >= r.family.Size()
  {
    hide Canonical, Runs, WellPacked, StatsOf, SentBy, Weight, Flatten;
    ChunksWithinLimit(sent, limit);
    var runs := Runs(lines);
    forall r | r in runs
      ensures Seal(r) in SealAll(runs)
    {
      var i :| 0 <= i < |runs| && runs[i] == r;
      assert SealAll(runs)[i] == Seal(r);
    }
  }

  /** One listed address and a limit of one: the only chunk has two boundaries. */
  lemma LimitOneFails(emitOk: nat -> bool, sent: seq<Chunk>, result: Result<StreamStats, StreamError>)
    requires forall k :: emitOk(k)
    requires Outcome([Entry(AddressPrefix(V4, 0, 32))], 1, emitOk, sent, result)
    ensures exists c <- sent :: Weight(c) > 1
  {
    hide WellPacked, SentBy, Weight, Flatten, Outcome;
    var lines := [Entry(AddressPrefix(V4, 0, 32))];
    OneAddress(lines);
    StreamFacts(lines, 1, emitOk, sent, result);
    ChunksWithinLimit(sent, 1);
    assert SealAll(Runs(lines))[0] in SealAll(Runs(lines));
  }

  lemma OneAddress(lines: seq<Line>)
    requires lines == [Entry(AddressPrefix(V4, 0, 32))]
    ensures Canonical(lines) && Runs(lines) == [Run(V4, 0, 0)]
    ensures SealAll(Runs(lines)) == [AddressInterval(V4, 0, Some(1))]
  {
    var net: Cidr := AddressPrefix(V4, 0, 32);
    assert net.HostBits() == 0 && Pow2(0) == 1;
    TruncIsAligned(net);
    assert lines[..0] == [] && Runs([]) == [];
    assert Runs(lines) == Absorb([], RunOf(net));
  }

  // --- One normal form ------------------------------------------------------------------

  /** The intervals handed out do not depend on the chunk limit or on how the file spells the address set. */
  lemma NormalFormOfAddresses(p: seq<Line>, q: seq<Line>, limit1: nat, limit2: nat, ok1: nat -> bool, ok2: nat -> bool,
                              sent1: seq<Chunk>, sent2: seq<Chunk>, stats1: StreamStats, stats2: StreamStats)
    requires Outcome(p, limit1, ok1, sent1, Ok(stats1)) && Outcome(q, limit2, ok2, sent2, Ok(stats2))
    requires forall f, a :: Listed(p, f, a) <==> Listed(q, f, a)
    ensures Flatten(sent1) == Flatten(sent2)
    ensures stats1.(cidrs := 0) == stats2.(cidrs := 0)
    ensures limit1 == limit2 ==> sent1 == sent2
  {
    SameFileSameRuns(p, q);
    if limit1 == limit2 {
      ChunkingIsUnique(sent1, sent2, limit1);
    }
  }

  lemma {:induction false} FlattenHead(chunks: seq<Chunk>)
    requires chunks != []
    ensures Flatten(chunks) == chunks[0] + Flatten(chunks[1..])
  {
    hide Flatten;
    var n := |chunks| - 1;
    var front, c := chunks[..n], chunks[n];
    assert chunks == front + [c];
    FlattenSnoc(front, c);
    FlattenNothing();
    if front == [] {
      assert chunks[1..] == [] && c + [] == [] + c;
    } else {
      FlattenHead(front);
      assert front[0] == chunks[0] && chunks[1..] == front[1..] + [c];
      FlattenSnoc(front[1..], c);
      assert (chunks[0] + Flatten(front[1..])) + c == chunks[0] + (Flatten(front[1..]) + c);
    }
  }

  lemma FlattenNothing()
    ensures Flatten([]) == []
  {
  }

  lemma {:induction false} WeightMonotone(c: Chunk, n: nat)
    requires n <= |c|
    ensures Weight(c[..n]) <= Weight(c)
    decreases |c|
  {
    if n == |c| {
      assert c[..n] == c;
    } else {
      WeightMonotone(c[..|c| - 1], n);
      assert c[..|c| - 1][..n] == c[..n];
    }
  }

  lemma PackedTail(chunks: seq<Chunk>, limit: nat)
    requires WellPacked(chunks, limit) && chunks != []
    ensures WellPacked(chunks[1..], limit)
    ensures |chunks| > 1 ==> Cut(chunks[0], chunks[1][0], limit)
  {
  }

  /** Inside a well-sized chunk there is never a reason to cut. */
  lemma NoCutInside(c: Chunk, d: Chunk, limit: nat)
    requires WellSized(d, limit) && c != [] && |c| < |d| && c == d[..|c|]
    ensures !Cut(c, d[|c|], limit)
  {
    var n := |c|;
    assert d[..n + 1] == c + [d[n]] && d[..|d| - 1][..n] == c;
    WeightMonotone(d[..|d| - 1], n);
    WeightMonotone(d, n + 1);
    WeightSnoc(c, d[n]);
    assert c[0] == d[0];
  }

  lemma FirstChunk(a: seq<Chunk>, b: seq<Chunk>, limit: nat)
    requires WellPacked(a, limit) && WellPacked(b, limit) && a != [] && b != []
    requires Flatten(a) == Flatten(b)
    ensures |a[0]| >= |b[0]|
  {
    hide WellSized, Cut;
    FlattenHead(a);
    FlattenHead(b);
    var c, d, n := a[0], b[0], |a[0]|;
    Sized(a, 0, limit);
    Sized(b, 0, limit);
    if n < |d| {
      assert d == Flatten(a)[..|d|];
      assert c == d[..n];
      if |a| > 1 {
        FlattenHead(a[1..]);
        Sized(a, 1, limit);
        assert Flatten(a)[n] == a[1][0];
        PackedTail(a, limit);
        NoCutInside(c, d, limit);
      }
    }
  }

  lemma Sized(chunks: seq<Chunk>, k: nat, limit: nat)
    requires WellPacked(chunks, limit) && k < |chunks|
    ensures WellSized(chunks[k], limit) && chunks[k] != []
  {
  }

  /** Greedy chunking has one result only. */
  lemma {:induction false} ChunkingIsUnique(a: seq<Chunk>, b: seq<Chunk>, limit: nat)
    requires WellPacked(a, limit) && WellPacked(b, limit)
    requires Flatten(a) == Flatten(b)
    ensures a == b
    decreases |a|
  {
    if a != [] { FlattenHead(a); }
    if b != [] { FlattenHead(b); }
    if a != [] && b != [] {
      FirstChunk(a, b, limit);
      FirstChunk(b, a, limit);
      assert a[0] == Flatten(a)[..|a[0]|] == b[0];
      assert Flatten(a[1..]) == Flatten(a)[|a[0]|..] == Flatten(b[1..]);
      PackedTail(a, limit);
      PackedTail(b, limit);
      ChunkingIsUnique(a[1..], b[1..], limit);
      assert a == [a[0]] + a[1..] && b == [b[0]] + b[1..];
    }
  }

  // --- Round trip through prefixes --------------------------------------------------------

  ghost function RunPrefixes(r: Run): (out: seq<AddressPrefix>)
    ensures forall p <- out :: p.Valid()
  {
    if r.Valid() then Decompose(r.family, r.first, r.last + 1) else []
  }

  /** The prefixes of every run, in order: what both encodings of a file are made from. */
  ghost function PrefixList(runs: seq<Run>): (out: seq<AddressPrefix>)
    ensures forall p <- out :: p.Valid()
  {
    if runs == [] then [] else PrefixList(runs[..|runs| - 1]) + RunPrefixes(runs[|runs| - 1])
  }

  lemma NormalSnoc(runs: seq<Run>)
    requires Normal(runs) && runs != []
    ensures Normal(runs[..|runs| - 1])
    ensures forall f, a :: InRuns(runs, f, a) <==> InRuns(runs[..|runs| - 1], f, a) || runs[|runs| - 1].Has(f, a)
  {
    var n := |runs| - 1;
    var p := runs[..n];
    forall f, a
      ensures InRuns(runs, f, a) <==> InRuns(p, f, a) || runs[n].Has(f, a)
    {
      if InRuns(p, f, a) {
        var i :| 0 <= i < n && p[i].Has(f, a);
        assert runs[i].Has(f, a);
      }
      if InRuns(runs, f, a) {
        var i :| 0 <= i <= n && runs[i].Has(f, a);
        assert i < n ==> p[i].Has(f, a);
      }
    }
  }

  /** The list as a file is canonical. */
  ghost predicate Listable(out: seq<AddressPrefix>) {
    && (forall i :: 0 <= i < |out| ==> out[i].Valid() && out[i].Trunc() == out[i])
    && (forall i, j :: 0 <= i < j < |out| ==> Before(out[i], out[j]))
  }

  lemma CoveredSum(a: seq<AddressPrefix>, b: seq<AddressPrefix>, f: Family, x: nat)
    ensures Covered(PrefixSet(a + b), f, x) <==> Covered(PrefixSet(a), f, x) || Covered(PrefixSet(b), f, x)
  {
    assert PrefixSet(a + b) == PrefixSet(a) + PrefixSet(b);
  }

  lemma RunPrefixesHold(r: Run)
    requires r.Valid()
    ensures Listable(RunPrefixes(r))
    ensures forall f, a :: Covered(PrefixSet(RunPrefixes(r)), f, a) <==> r.Has(f, a)
    ensures forall p <- RunPrefixes(r) ::
      p.Valid() && p.family == r.family && r.first <= p.address && p.Last() <= r.last
  {
    DecomposeAscends(r.family, r.first, r.last + 1);
    DecomposeCovers(r.family, r.first, r.last + 1);
  }

  /** Every prefix ends within a run of its family. */
  ghost predicate Within(runs: seq<Run>, out: seq<AddressPrefix>) {
    forall p <- out :: p.Valid() && exists r <- runs :: p.family == r.family && p.Last() <= r.last
  }

  lemma {:induction false} PrefixListHolds(runs: seq<Run>)
    requires Normal(runs)
    ensures Listable(PrefixList(runs)) && Within(runs, PrefixList(runs))
    ensures forall f, a :: Covered(PrefixSet(PrefixList(runs)), f, a) <==> InRuns(runs, f, a)
  {
    hide Listable, Covered, InRuns, RunPrefixes, Within, Normal, PrefixSet;
    if runs == [] {
      NoPrefixes();
    } else {
      var n := |runs| - 1;
      NormalSnoc(runs);
      AllRunsValid(runs);
      PrefixListHolds(runs[..n]);
      RunPrefixesHold(runs[n]);
      assert runs == runs[..n] + [runs[n]];
      JoinLists(runs[..n], PrefixList(runs[..n]), runs[n], RunPrefixes(runs[n]));
      forall f, a
        ensures Covered(PrefixSet(PrefixList(runs)), f, a) <==> InRuns(runs, f, a)
      {
        CoveredSum(PrefixList(runs[..n]), RunPrefixes(runs[n]), f, a);
      }
    }
  }

  lemma NoPrefixes()
    ensures PrefixList([]) == [] && Listable([]) && Within([], [])
    ensures forall f, a :: !Covered(PrefixSet([]), f, a) && !InRuns([], f, a)
  {
  }

  lemma JoinLists(runs: seq<Run>, front: seq<AddressPrefix>, r: Run, back: seq<AddressPrefix>)
    requires Normal(runs + [r]) && Listable(front) && Listable(back) && Within(runs, front)
    requires forall p <- back :: p.Valid() && p.family == r.family && r.first <= p.address && p.Last() <= r.last
    ensures Listable(front + back) && Within(runs + [r], front + back)
  {
    var all := runs + [r];
    forall p, q | p in front && q in back
      ensures Before(p, q)
    {
      var s :| s in runs && p.family == s.family && p.Last() <= s.last;
      var i :| 0 <= i < |runs| && runs[i] == s;
      assert all[i] == s && all[|runs|] == r;
      assert Apart(all[i], all[|runs|]);
    }
    forall p | p in front + back
      ensures p.Valid() && exists s <- all :: p.family == s.family && p.Last() <= s.last
    {
      if p in front {
        var s :| s in runs && p.family == s.family && p.Last() <= s.last;
        assert s in all;
      } else {
        assert r in all;
      }
    }
  }

  /** A blocklist file that lists the given prefixes. */
  ghost function AsFile(out: seq<AddressPrefix>): (lines: seq<Line>)
    requires forall p <- out :: p.Valid()
    ensures |lines| == |out| && forall i :: 0 <= i < |lines| ==> lines[i] == Entry(out[i])
  {
    seq(|out|, i requires 0 <= i < |out| => Entry(out[i]))
  }

  lemma ListableIsCanonical(out: seq<AddressPrefix>)
    requires Listable(out)
    ensures (forall p <- out :: p.Valid()) && Canonical(AsFile(out))
  {
  }

  /** Feeding the prefixes of an accepted list back in is accepted and gives the same runs. */
  lemma RoundTrip(runs: seq<Run>)
    requires Normal(runs)
    ensures Canonical(AsFile(PrefixList(runs)))
    ensures Runs(AsFile(PrefixList(runs))) == runs
  {
    hide Listable, Runs, PrefixList, Normal, AsFile;
    PrefixListHolds(runs);
    var out := PrefixList(runs);
    var lines := AsFile(out);
    ListableIsCanonical(out);
    forall f, a
      ensures Listed(lines, f, a) <==> InRuns(runs, f, a)
    {
      if Listed(lines, f, a) {
        var i :| 0 <= i < |lines| && lines[i].Entry? && lines[i].net.Has(f, a);
        assert out[i] in PrefixSet(out);
      }
      if InRuns(runs, f, a) {
        var p :| p in PrefixSet(out) && p.Valid() && p.Has(f, a);
        var i :| 0 <= i < |out| && out[i] == p;
        assert lines[i].Entry? && lines[i].net.Has(f, a);
      }
    }
    RunsAreNormal(lines);
    NormalIsUnique(Runs(lines), runs);
  }

  /** The same round trip seen through two passes of `stream_chunks`. */
  lemma StreamRoundTrip(lines: seq<Line>, limit: nat, ok1: nat -> bool, ok2: nat -> bool,
                        sent: seq<Chunk>, stats: StreamStats,
                        sent2: seq<Chunk>, result2: Result<StreamStats, StreamError>)
    requires Outcome(lines, limit, ok1, sent, Ok(stats))
    requires forall k :: ok2(k)
    requires Outcome(AsFile(PrefixList(Runs(lines))), limit, ok2, sent2, result2)
    ensures result2.Ok? && sent2 == sent && result2.value.(cidrs := 0) == stats.(cidrs := 0)
  {
    RunsAreNormal(lines);
    RoundTrip(Runs(lines));
    var again := AsFile(PrefixList(Runs(lines)));
    AcceptanceIsCanonicity(again, limit, ok2, sent2, result2);
    ChunkingIsUnique(sent, sent2, limit);
  }

  // --- Capacity ---------------------------------------------------------------------------

  /** Prefixes of family `f` that the runs decompose into. */
  ghost function Need(runs: seq<Run>, f: Family): nat {
    if runs == [] then 0
    else Need(runs[..|runs| - 1], f) + if runs[|runs| - 1].family == f then |RunPrefixes(runs[|runs| - 1])| else 0
  }

  /** Listed blocks of family `f`. */
  function EntriesOf(lines: seq<Line>, f: Family): nat {
    if lines == [] then
      0
    else
      var here := lines[|lines| - 1].Entry? && lines[|lines| - 1].net.family == f;
      EntriesOf(lines[..|lines| - 1], f) + if here then 1 else 0
  }

  lemma NeedSnoc(runs: seq<Run>, r: Run, f: Family)
    ensures Need(runs + [r], f) == Need(runs, f) + if r.family == f then |RunPrefixes(r)| else 0
  {
    assert (runs + [r])[..|runs|] == runs;
  }

  /** Appending one aligned block to an interval costs one prefix at most. */
  lemma OneMoreBlock(s: nat, e: nat, b: Block)
    requires s <= e == b.start && b.Legal()
    ensures |Greedy(s, b.Stop())| <= |Greedy(s, e)| + 1
  {
    GreedyCovers(s, e);
    var c := Whole(b.start, b.bits);
    var both := Join(BlockSet(Greedy(s, e)), c, s, e, b.Stop());
    SetSize(Greedy(s, e));
    Minimal(both, s, b.Stop());
  }

  lemma {:induction false} SetSize(out: seq<Block>)
    ensures |BlockSet(out)| <= |out|
  {
    if out != [] {
      SetSize(out[1..]);
      assert out == [out[0]] + out[1..];
      assert BlockSet(out) == {out[0]} + BlockSet(out[1..]);
    }
  }

  lemma AllRunsValid(runs: seq<Run>)
    requires Normal(runs)
    ensures forall i :: 0 <= i < |runs| ==> runs[i].Valid()
  {
  }

  lemma BlockRun(net: Cidr)
    requires net.Trunc() == net
    ensures RunOf(net).Valid() && |RunPrefixes(RunOf(net))| <= 1
  {
    TruncIsAligned(net);
    AlignedFits(net);
    OneMoreBlock(net.address, net.address, Block(net.address, net.HostBits()));
  }

  lemma OneMoreRun(run: Run, net: Cidr)
    requires run.Valid() && net.Trunc() == net && run.family == net.family && run.last + 1 == net.address
    ensures |RunPrefixes(Run(run.family, run.first, net.Last()))| <= |RunPrefixes(run)| + 1
  {
    TruncIsAligned(net);
    AlignedFits(net);
    OneMoreBlock(run.first, net.address, Block(net.address, net.HostBits()));
  }

  lemma AbsorbNeed(runs: seq<Run>, net: Cidr, f: Family)
    requires Normal(runs) && net.Trunc() == net
    requires runs != [] && runs[|runs| - 1].family == net.family ==> runs[|runs| - 1].last < net.address
    ensures Need(Absorb(runs, RunOf(net)), f) <= Need(runs, f) + if net.family == f then 1 else 0
  {
    hide Greedy, Pow2, Aligned, Normal, ClearLow;
    var r := RunOf(net);
    var n := |runs|;
    BlockRun(net);
    assert n > 0 ==> runs[n - 1].Valid() by { AllRunsValid(runs); }
    if n > 0 && runs[n - 1].family == r.family && runs[n - 1].last + 1 == r.first {
      var merged := Run(r.family, runs[n - 1].first, r.last);
      OneMoreRun(runs[n - 1], net);
      NeedSnoc(runs[..n - 1], merged, f);
      NeedSnoc(runs[..n - 1], runs[n - 1], f);
      assert runs == runs[..n - 1] + [runs[n - 1]];
    } else {
      NeedSnoc(runs, r, f);
    }
  }

  lemma NeedStep(lines: seq<Line>, net: Cidr, f: Family)
    requires Canonical(lines) && Canonical(lines + [Entry(net)])
    ensures Need(Runs(lines + [Entry(net)]), f) <= Need(Runs(lines), f) + if net.family == f then 1 else 0
  {
    hide Canonical, Normal, Runs, Need, Holds, ClearLow, AddressPrefix.Last;
    RunsAreNormal(lines);
    RunsSnoc(lines, Entry(net));
    FaultIsExact(lines, Entry(net));
    var runs := Runs(lines);
    if runs != [] && runs[|runs| - 1].family == net.family {
      EndsBefore(lines, runs[|runs| - 1], net);
    }
    AbsorbNeed(runs, net, f);
  }

  lemma EndsBefore(lines: seq<Line>, r: Run, net: Cidr)
    requires Ends(lines, r) && Follows(lines, net) && r.family == net.family
    ensures r.last < net.address
  {
  }

  lemma EntriesSnoc(lines: seq<Line>, l: Line, f: Family)
    ensures EntriesOf(lines + [l], f) == EntriesOf(lines, f) + if l.Entry? && l.net.family == f then 1 else 0
  {
    assert (lines + [l])[..|lines|] == lines;
  }

  /** Coalescing never needs more prefixes of a family than the file has lines of it. */
  lemma {:induction false} NeedAtMostLines(lines: seq<Line>, f: Family)
    requires Canonical(lines)
    ensures Need(Runs(lines), f) <= EntriesOf(lines, f)
  {
    hide Canonical, Need, EntriesOf, Runs;
    if lines == [] {
      NothingNeeded(f);
    } else {
      var n := |lines| - 1;
      var p := lines[..n];
      assert lines == p + [lines[n]];
      CanonicalCut(lines, n, n);
      NeedAtMostLines(p, f);
      EntriesSnoc(p, lines[n], f);
      RunsSnoc(p, lines[n]);
      if lines[n].Entry? {
        NeedStep(p, lines[n].net, f);
      }
    }
  }

  lemma NothingNeeded(f: Family)
    ensures Need(Runs([]), f) == EntriesOf([], f)
  {
  }
}
