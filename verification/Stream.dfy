/**
 `stream_chunks`: one pass over the file that coalesces, checks canonical order and
 hands complete intervals to a callback in bounded chunks. The callback is outside the
 model: `emitOk(k)` says whether its call number `k` succeeds, and the chunks it was
 called with are returned.
 */
module Stream {
  import opened Wrappers
  import opened Bits
  import opened Addresses
  import opened Blocklist

  type Chunk = seq<AddressInterval>

  datatype StreamStats = StreamStats(
    cidrs: nat,
    ipv4Intervals: nat,
    ipv6Intervals: nat,
    ipv4Boundaries: nat,
    ipv6Boundaries: nat)

  /** `line` is the one-based number of the offending line. */
  datatype StreamError = Rejected(line: nat, reason: Reason) | EmitFailed

  // --- Intervals of runs ---------------------------------------------------------------

  function CheckedAdd(f: Family, last: nat): Option<nat> {
    if last + 1 < f.Size() then Some(last + 1) else None
  }

  function Seal(r: Run): AddressInterval {
    AddressInterval(r.family, r.first, CheckedAdd(r.family, r.last))
  }

  function SealAll(runs: seq<Run>): (out: seq<AddressInterval>)
    ensures |out| == |runs| && forall i :: 0 <= i < |out| ==> out[i] == Seal(runs[i])
  {
    seq(|runs|, i requires 0 <= i < |runs| => Seal(runs[i]))
  }

  lemma SealSnoc(runs: seq<Run>, r: Run)
    ensures SealAll(runs + [r]) == SealAll(runs) + [Seal(r)]
  {
  }

  lemma SealIsExact(r: Run)
    requires r.Valid()
    ensures Seal(r).Valid() && Seal(r).Stop() == r.last + 1
  {
  }

  // --- Chunks --------------------------------------------------------------------------

  function Flatten(chunks: seq<Chunk>): Chunk {
    if chunks == [] then [] else Flatten(chunks[..|chunks| - 1]) + chunks[|chunks| - 1]
  }

  lemma FlattenSnoc(chunks: seq<Chunk>, c: Chunk)
    ensures Flatten(chunks + [c]) == Flatten(chunks) + c
  {
    assert (chunks + [c])[..|chunks|] == chunks;
  }

  /** Boundary elements of a chunk. */
  function Weight(c: Chunk): nat {
    if c == [] then 0 else Weight(c[..|c| - 1]) + c[|c| - 1].BoundaryElements()
  }

  lemma WeightSnoc(c: Chunk, iv: AddressInterval)
    ensures Weight(c + [iv]) == Weight(c) + iv.BoundaryElements()
  {
    assert (c + [iv])[..|c|] == c;
  }

  function Count(ivs: Chunk, f: Family): nat {
    if ivs == [] then 0
    else Count(ivs[..|ivs| - 1], f) + if ivs[|ivs| - 1].family == f then 1 else 0
  }

  function Boundaries(ivs: Chunk, f: Family): nat {
    if ivs == [] then 0
    else Boundaries(ivs[..|ivs| - 1], f) + if ivs[|ivs| - 1].family == f then ivs[|ivs| - 1].BoundaryElements() else 0
  }

  function Entries(lines: seq<Line>): nat {
    if lines == [] then 0 else Entries(lines[..|lines| - 1]) + if lines[|lines| - 1].Entry? then 1 else 0
  }

  function StatsOf(cidrs: nat, ivs: Chunk): StreamStats {
    StreamStats(cidrs, Count(ivs, V4), Count(ivs, V6), Boundaries(ivs, V4), Boundaries(ivs, V6))
  }

  lemma StatsSnoc(cidrs: nat, ivs: Chunk, iv: AddressInterval)
    ensures StatsOf(cidrs, ivs + [iv]) ==
      var s := StatsOf(cidrs, ivs);
      if iv.family == V4 then
        s.(ipv4Intervals := s.ipv4Intervals + 1, ipv4Boundaries := s.ipv4Boundaries + iv.BoundaryElements())
      else
        s.(ipv6Intervals := s.ipv6Intervals + 1, ipv6Boundaries := s.ipv6Boundaries + iv.BoundaryElements())
  {
    assert (ivs + [iv])[..|ivs|] == ivs;
  }

  ghost predicate OneFamily(c: Chunk, f: Family) {
    forall iv <- c :: iv.family == f
  }

  /** A chunk grew until it reached the limit, and passes it only to hold one whole interval. */
  ghost predicate WellSized(c: Chunk, limit: nat) {
    && c != [] && OneFamily(c, c[0].family)
    && Weight(c[..|c| - 1]) < limit
    && (|c| == 1 || Weight(c) <= limit)
  }

  /** There was a reason to cut between chunk `c` and interval `next`. */
  predicate Cut(c: Chunk, next: AddressInterval, limit: nat)
    requires c != []
  {
    || Weight(c) >= limit
    || Weight(c) + next.BoundaryElements() > limit
    || c[0].family != next.family
  }

  /** Greedy chunking: every chunk well sized, every cut needed. */
  ghost predicate WellPacked(chunks: seq<Chunk>, limit: nat) {
    && (forall k :: 0 <= k < |chunks| ==> WellSized(chunks[k], limit))
    && (forall k, n :: 0 <= k && n == k + 1 < |chunks| ==> Cut(chunks[k], chunks[n][0], limit))
  }

  /** A chunk holds at most max(limit, 2) boundaries, and more than the limit only for one interval at limit one. */
  lemma ChunkBound(c: Chunk, limit: nat)
    requires WellSized(c, limit)
    ensures Weight(c) <= if limit < 2 then 2 else limit
    ensures Weight(c) <= limit <==> limit >= 2 || forall iv <- c :: iv.afterLast.None?
  {
    hide Weight, OneFamily;
    var n := |c| - 1;
    assert c == c[..n] + [c[n]];
    WeightSnoc(c[..n], c[n]);
    if n > 0 {
      assert c[..n] == c[..n - 1] + [c[n - 1]];
      WeightSnoc(c[..n - 1], c[n - 1]);
    } else {
      assert c == [c[0]] && c[..0] == [];
      NoWeight();
    }
  }

  lemma NoWeight()
    ensures Weight([]) == 0
  {
  }

  // --- Sending, interval by interval -----------------------------------------------------

  /** The chunks handed out so far and the one still open. */
  datatype Sending = Sending(sent: seq<Chunk>, open: Chunk)

  function Close(st: Sending): Sending {
    if st.open == [] then st else Sending(st.sent + [st.open], [])
  }

  function AddOne(st: Sending, iv: AddressInterval, limit: nat): Sending {
    var base := if st.open != [] && Cut(st.open, iv, limit) then Close(st) else st;
    var more := Sending(base.sent, base.open + [iv]);
    if Weight(more.open) >= limit then Close(more) else more
  }

  function AddAll(ivs: Chunk, limit: nat): Sending {
    if ivs == [] then Sending([], []) else AddOne(AddAll(ivs[..|ivs| - 1], limit), ivs[|ivs| - 1], limit)
  }

  function CloseIpv4(st: Sending): Sending {
    if st.open != [] && st.open[0].family == V4 then Close(st) else st
  }

  /** Intervals of the runs that no later line can extend. */
  function Settled(lines: seq<Line>): Chunk {
    var runs := Runs(lines);
    if runs == [] then [] else SealAll(runs[..|runs| - 1])
  }

  /** What a pass has sent after the lines, and before any other, when no call is refused. */
  ghost function SendingAfter(lines: seq<Line>, limit: nat): Sending {
    var st := AddAll(Settled(lines), limit);
    if Holds(lines, V6) then CloseIpv4(st) else st
  }

  lemma NoLines()
    ensures Canonical([])
  {
  }

  lemma {:induction false} FirstFault(lines: seq<Line>) returns (n: nat)
    requires !Canonical(lines)
    ensures n < |lines| && Canonical(lines[..n]) && !Canonical(lines[..n + 1])
    decreases |lines|
  {
    hide Canonical;
    NoLines();
    var k := |lines| - 1;
    assert lines[..k + 1] == lines;
    if Canonical(lines[..k]) {
      n := k;
    } else {
      n := FirstFault(lines[..k]);
      assert lines[..k][..n] == lines[..n] && lines[..k][..n + 1] == lines[..n + 1];
    }
  }

  /** Everything a pass over the file sends when no call is refused. */
  ghost function SentBy(lines: seq<Line>, limit: nat): seq<Chunk> {
    if Canonical(lines) then
      Close(AddAll(SealAll(Runs(lines)), limit)).sent
    else
      FirstFaultExists(lines);
      var n: nat :| n < |lines| && Canonical(lines[..n]) && !Canonical(lines[..n + 1]);
      SendingAfter(lines[..n], limit).sent
  }

  lemma FirstFaultExists(lines: seq<Line>)
    requires !Canonical(lines)
    ensures exists n: nat :: n < |lines| && Canonical(lines[..n]) && !Canonical(lines[..n + 1])
  {
    var n := FirstFault(lines);
  }

  lemma CanonicalCut(lines: seq<Line>, m: nat, n: nat)
    requires m <= |lines| && n <= |lines|
    ensures m <= n && Canonical(lines[..n]) ==> Canonical(lines[..m])
    ensures Canonical(lines) ==> Canonical(lines[..m])
  {
    assert m <= n ==> lines[..n][..m] == lines[..m];
  }

  lemma SentUntilFault(lines: seq<Line>, n: nat, limit: nat)
    requires n < |lines| && Canonical(lines[..n]) && !Canonical(lines[..n + 1])
    ensures SentBy(lines, limit) == SendingAfter(lines[..n], limit).sent
  {
    hide SendingAfter, Canonical;
    CanonicalCut(lines, n + 1, n);
    forall m: nat | m < |lines| && Canonical(lines[..m]) && !Canonical(lines[..m + 1])
      ensures m == n
    {
      CanonicalCut(lines, m + 1, n);
      CanonicalCut(lines, n + 1, m);
    }
  }

  /** The first IPv6 interval closes an IPv4 chunk by itself; closing it earlier makes no difference. */
  lemma AddIpv6(st: Sending, iv: AddressInterval, limit: nat)
    requires iv.family == V6
    ensures AddOne(CloseIpv4(st), iv, limit) == AddOne(st, iv, limit) == CloseIpv4(AddOne(st, iv, limit))
  {
  }

  lemma AddSnoc(ivs: Chunk, iv: AddressInterval, limit: nat)
    ensures AddAll(ivs + [iv], limit) == AddOne(AddAll(ivs, limit), iv, limit)
  {
    assert (ivs + [iv])[..|ivs|] == ivs;
  }

  lemma AddKeeps(st: Sending, iv: AddressInterval, limit: nat)
    ensures st.sent <= AddOne(st, iv, limit).sent && st.sent <= Close(st).sent && st.sent <= CloseIpv4(st).sent
  {
  }

  /** The state when the last run of a canonical file has settled, too. */
  ghost function SendingAll(lines: seq<Line>, limit: nat): Sending {
    AddAll(SealAll(Runs(lines)), limit)
  }

  lemma LastRunSettles(lines: seq<Line>, limit: nat)
    requires Canonical(lines)
    ensures Runs(lines) == [] ==>
      && SendingAfter(lines, limit) == SendingAll(lines, limit) == Sending([], [])
      && !Holds(lines, V4) && !Holds(lines, V6)
    ensures Runs(lines) != [] ==>
      var r := Runs(lines)[|Runs(lines)| - 1];
      var st := AddOne(SendingAfter(lines, limit), Seal(r), limit);
      && Holds(lines, r.family) && (r.family == V6 <==> Holds(lines, V6))
      && (if r.family == V4 then st == SendingAll(lines, limit) else st == SendingAll(lines, limit) == CloseIpv4(st))
  {
    hide Canonical, Normal, AddOne;
    RunsAreNormal(lines);
    var runs := Runs(lines);
    if runs != [] {
      var r := runs[|runs| - 1];
      assert runs == runs[..|runs| - 1] + [r];
      SealSnoc(runs[..|runs| - 1], r);
      AddSnoc(Settled(lines), Seal(r), limit);
      LastFamily(lines, r);
      if r.family == V6 {
        AddIpv6(AddAll(Settled(lines), limit), Seal(r), limit);
      }
    }
  }

  lemma LastFamily(lines: seq<Line>, r: Run)
    requires Ends(lines, r)
    ensures Holds(lines, r.family) && (r.family == V6 <==> Holds(lines, V6))
  {
    var i :| 0 <= i < |lines| && EndsAt(lines[i], r);
  }

  /** One more listed block settles the run it does not extend. */
  lemma SendingSnoc(lines: seq<Line>, net: Cidr, limit: nat)
    requires Canonical(lines) && Canonical(lines + [Entry(net)])
    ensures var q, runs := lines + [Entry(net)], Runs(lines);
      SendingAfter(q, limit) ==
      if runs == [] then SendingAfter(lines, limit)
      else
        var r := runs[|runs| - 1];
        if r.family != net.family then CloseIpv4(SendingAll(lines, limit))
        else if r.last + 1 == net.address then SendingAfter(lines, limit)
        else AddOne(SendingAfter(lines, limit), Seal(r), limit)
  {
    hide Canonical, Normal, AddOne, CloseIpv4, Runs;
    RunsSnoc(lines, Entry(net));
    HoldsSnoc(lines, Entry(net));
    LastRunSettles(lines, limit);
    var runs, more := Runs(lines), Runs(lines + [Entry(net)]);
    if runs != [] {
      var r := runs[|runs| - 1];
      FamiliesInOrder(lines, net);
      if r.family == net.family && r.last + 1 == net.address {
        assert more[..|more| - 1] == runs[..|runs| - 1];
      } else {
        assert more[..|more| - 1] == runs;
      }
    } else {
      assert more[..|more| - 1] == [];
      NothingSettled(limit);
    }
  }

  lemma NothingSettled(limit: nat)
    ensures AddAll(SealAll([]), limit) == Sending([], []) && CloseIpv4(Sending([], [])) == Sending([], [])
  {
  }

  lemma FamiliesInOrder(lines: seq<Line>, net: Cidr)
    requires Canonical(lines + [Entry(net)])
    ensures net.family == V4 ==> !Holds(lines, V6)
  {
    var q := lines + [Entry(net)];
    forall i | 0 <= i < |lines| && lines[i].Entry?
      ensures Before(lines[i].net, net)
    {
      assert q[i] == lines[i] && q[|lines|] == Entry(net);
    }
  }

  /** What has been sent stays sent. */
  lemma SendingGrows(lines: seq<Line>, l: Line, limit: nat)
    requires Canonical(lines) && Canonical(lines + [l])
    ensures SendingAfter(lines, limit).sent <= SendingAfter(lines + [l], limit).sent
  {
    hide Canonical, AddOne, CloseIpv4, SendingAfter, SendingAll;
    if l.Entry? {
      SendingSnoc(lines, l.net, limit);
      LastRunSettles(lines, limit);
      if Runs(lines) != [] {
        var r := Runs(lines)[|Runs(lines)| - 1];
        AddKeeps(SendingAfter(lines, limit), Seal(r), limit);
        AddKeeps(SendingAll(lines, limit), Seal(r), limit);
      }
    } else {
      SameSending(lines, l, limit);
    }
  }

  lemma SameSending(lines: seq<Line>, l: Line, limit: nat)
    requires !l.Entry?
    ensures SendingAfter(lines + [l], limit) == SendingAfter(lines, limit)
  {
    RunsSnoc(lines, l);
    HoldsSnoc(lines, l);
  }

  /** No pass sends anything that the pass without refusals does not send. */
  lemma {:induction false} SentIsPrefix(lines: seq<Line>, i: nat, limit: nat)
    requires i <= |lines| && Canonical(lines[..i])
    ensures SendingAfter(lines[..i], limit).sent <= SentBy(lines, limit)
    decreases |lines| - i
  {
    hide Canonical, SendingAfter, Close, AddOne;
    if i == |lines| {
      assert lines[..i] == lines;
      LastRunSettles(lines, limit);
      AddKeeps(SendingAll(lines, limit), AddressInterval(V4, 0, None), limit);
      if Runs(lines) != [] {
        AddKeeps(SendingAfter(lines, limit), Seal(Runs(lines)[|Runs(lines)| - 1]), limit);
      }
    } else if Canonical(lines[..i + 1]) {
      assert lines[..i + 1] == lines[..i] + [lines[i]];
      SendingGrows(lines[..i], lines[i], limit);
      SentIsPrefix(lines, i + 1, limit);
    } else {
      SentUntilFault(lines, i, limit);
    }
  }

  // --- The loop state ------------------------------------------------------------------

  /** The part of the loop state that `flush_pending` updates in place. */
  datatype Progress = Progress(sent: seq<Chunk>, chunk: Chunk, boundaries: nat, stats: StreamStats)

  function SendingOf(p: Progress): Sending {
    Sending(p.sent, p.chunk)
  }

  ghost predicate AllAccepted(sent: seq<Chunk>, emitOk: nat -> bool) {
    forall k :: 0 <= k < |sent| ==> emitOk(k)
  }

  /** Everything flushed so far is either sent or in the open chunk, which holds family `f` only. */
  ghost predicate Good(p: Progress, flushed: Chunk, cidrs: nat, f: Family, limit: nat) {
    && Books(p, flushed, cidrs, f, limit)
    && Weight(p.chunk) < limit
    && (p.sent != [] ==>
          var last := p.sent[|p.sent| - 1];
          if p.chunk != [] then Cut(last, p.chunk[0], limit)
          else Weight(last) >= limit || (f == V6 && last[0].family == V4))
  }

  /** What is known when the callback has refused its last chunk. */
  ghost predicate Stopped(sent: seq<Chunk>, flushed: Chunk, limit: nat, emitOk: nat -> bool) {
    && sent != [] && !emitOk(|sent| - 1)
    && (forall k :: 0 <= k < |sent| - 1 ==> emitOk(k))
    && Flatten(sent) <= flushed
    && WellPacked(sent, limit)
  }

  lemma EmitKeepsPacking(sent: seq<Chunk>, c: Chunk, limit: nat)
    requires WellPacked(sent, limit) && WellSized(c, limit)
    requires sent != [] ==> Cut(sent[|sent| - 1], c[0], limit)
    ensures WellPacked(sent + [c], limit)
    ensures Flatten(sent + [c]) == Flatten(sent) + c
  {
    FlattenSnoc(sent, c);
    var out := sent + [c];
    forall k | 0 <= k < |out|
      ensures WellSized(out[k], limit)
    {
      assert k < |sent| ==> out[k] == sent[k];
    }
    forall k, n | 0 <= k && n == k + 1 < |out|
      ensures Cut(out[k], out[n][0], limit)
    {
      assert out[k] == sent[k];
      assert n < |sent| ==> out[n] == sent[n];
    }
  }

  /** What holds of the open chunk whatever is done with it next. */
  ghost predicate Books(p: Progress, flushed: Chunk, cidrs: nat, f: Family, limit: nat) {
    && Flatten(p.sent) + p.chunk == flushed
    && p.boundaries == Weight(p.chunk)
    && p.stats == StatsOf(cidrs, flushed)
    && OneFamily(p.chunk, f)
    && WellPacked(p.sent, limit)
    && (p.chunk != [] ==> WellSized(p.chunk, limit))
  }

  ghost predicate CutBefore(p: Progress, next: AddressInterval, limit: nat)
    requires WellPacked(p.sent, limit)
  {
    p.sent != [] ==> Cut(p.sent[|p.sent| - 1], if p.chunk != [] then p.chunk[0] else next, limit)
  }

  lemma SizedSnoc(c: Chunk, next: AddressInterval, f: Family, limit: nat)
    requires limit > 0 && next.family == f && OneFamily(c, f)
    requires c != [] ==> WellSized(c, limit) && Weight(c) < limit && Weight(c) + next.BoundaryElements() <= limit
    ensures WellSized(c + [next], limit) && OneFamily(c + [next], f)
  {
    WeightSnoc(c, next);
    assert (c + [next])[..|c|] == c;
  }

  lemma EmittedIsGood(p: Progress, flushed: Chunk, cidrs: nat, f: Family, limit: nat)
    requires Books(p, flushed, cidrs, f, limit) && p.chunk != [] && CutBefore(p, p.chunk[0], limit)
    ensures Books(p.(sent := p.sent + [p.chunk], chunk := [], boundaries := 0), flushed, cidrs, f, limit)
  {
    EmitKeepsPacking(p.sent, p.chunk, limit);
    assert flushed + [] == flushed;
  }

  /** Hand the open chunk to the callback. */
  method Emit(p: Progress, limit: nat, emitOk: nat -> bool, ghost flushed: Chunk, ghost cidrs: nat, ghost f: Family)
    returns (q: Progress, ok: bool)
    requires Books(p, flushed, cidrs, f, limit) && AllAccepted(p.sent, emitOk)
    requires p.chunk != [] && CutBefore(p, p.chunk[0], limit)
    ensures q == p.(sent := p.sent + [p.chunk], chunk := [], boundaries := 0)
    ensures Books(q, flushed, cidrs, f, limit)
    ensures ok ==> AllAccepted(q.sent, emitOk)
    ensures !ok ==> Stopped(q.sent, flushed, limit, emitOk)
  {
    EmittedIsGood(p, flushed, cidrs, f, limit);
    ok := emitOk(|p.sent|);
    q := p.(sent := p.sent + [p.chunk], chunk := [], boundaries := 0);
    assert Flatten(q.sent) == flushed;
  }

  lemma StoppedLater(sent: seq<Chunk>, flushed: Chunk, more: Chunk, limit: nat, emitOk: nat -> bool)
    requires Stopped(sent, flushed, limit, emitOk)
    ensures Stopped(sent, flushed + more, limit, emitOk)
  {
  }

  method Push(p: Progress, interval: AddressInterval, limit: nat, ghost flushed: Chunk, ghost cidrs: nat,
              ghost f: Family)
    returns (q: Progress)
    requires limit > 0 && interval.family == f
    requires Books(p, flushed, cidrs, f, limit) && CutBefore(p, interval, limit)
    requires p.chunk != [] ==> Weight(p.chunk) < limit && Weight(p.chunk) + interval.BoundaryElements() <= limit
    ensures Books(q, flushed + [interval], cidrs, f, limit) && CutBefore(q, interval, limit)
    ensures q.sent == p.sent && q.chunk == p.chunk + [interval]
    ensures CutBefore(q, q.chunk[0], limit)
  {
    hide Flatten, Weight, StatsOf, WellPacked, WellSized, Cut;
    var elements := interval.BoundaryElements();
    SizedSnoc(p.chunk, interval, f, limit);
    WeightSnoc(p.chunk, interval);
    StatsSnoc(cidrs, flushed, interval);
    var stats := p.stats;
    match interval.family {
      case V4 =>
        stats := stats.(ipv4Intervals := stats.ipv4Intervals + 1, ipv4Boundaries := stats.ipv4Boundaries + elements);
      case V6 =>
        stats := stats.(ipv6Intervals := stats.ipv6Intervals + 1, ipv6Boundaries := stats.ipv6Boundaries + elements);
    }
    q := Progress(p.sent, p.chunk + [interval], p.boundaries + elements, stats);
    assert Flatten(p.sent) + (p.chunk + [interval]) == Flatten(p.sent) + p.chunk + [interval];
    assert q.chunk[0] == if p.chunk != [] then p.chunk[0] else interval;
  }

  /** Send the open chunk first when the next interval would overflow it. */
  method MakeRoom(p: Progress, next: AddressInterval, limit: nat, emitOk: nat -> bool,
                  ghost flushed: Chunk, ghost cidrs: nat, ghost f: Family)
    returns (q: Progress, ok: bool)
    requires limit > 0 && next.family == f
    requires Good(p, flushed, cidrs, f, limit) && AllAccepted(p.sent, emitOk)
    ensures ok ==> Books(q, flushed, cidrs, f, limit) && AllAccepted(q.sent, emitOk) && CutBefore(q, next, limit)
    ensures ok && q.chunk != [] ==> Weight(q.chunk) < limit && Weight(q.chunk) + next.BoundaryElements() <= limit
    ensures !ok ==> Stopped(q.sent, flushed, limit, emitOk)
    ensures SendingOf(q) == if p.chunk != [] && Cut(p.chunk, next, limit) then Close(SendingOf(p)) else SendingOf(p)
  {
    q, ok := p, true;
    if q.chunk != [] && q.boundaries + next.BoundaryElements() > limit {
      q, ok := Emit(q, limit, emitOk, flushed, cidrs, f);
    }
  }

  method FlushPending(pending: Option<Run>, p: Progress, limit: nat, emitOk: nat -> bool,
                      ghost flushed: Chunk, ghost cidrs: nat, ghost f: Family)
    returns (q: Progress, ok: bool)
    requires limit > 0
    requires Good(p, flushed, cidrs, f, limit) && AllAccepted(p.sent, emitOk)
    requires pending.Some? ==> pending.value.family == f
    ensures pending.None? ==> q == p && ok
    ensures pending.Some? && ok ==>
      Good(q, flushed + [Seal(pending.value)], cidrs, f, limit) && AllAccepted(q.sent, emitOk)
    ensures pending.Some? && !ok ==> Stopped(q.sent, flushed + [Seal(pending.value)], limit, emitOk)
    ensures pending.Some? ==>
      var st := AddOne(SendingOf(p), Seal(pending.value), limit);
      if ok then SendingOf(q) == st else q.sent <= st.sent
  {
    hide Good, Books, Stopped, AllAccepted, CutBefore, WellPacked, Cut;
    q, ok := p, true;
    if pending.None? {
      return;
    }
    var interval := Seal(pending.value);
    q, ok := MakeRoom(q, interval, limit, emitOk, flushed, cidrs, f);
    if !ok {
      StoppedLater(q.sent, flushed, [interval], limit, emitOk);
      return;
    }
    q := Push(q, interval, limit, flushed, cidrs, f);
    BooksAreGood(q, flushed + [interval], cidrs, f, limit);
    if q.boundaries >= limit {
      ghost var full := q;
      q, ok := Emit(q, limit, emitOk, flushed + [interval], cidrs, f);
      EmittedAtLimit(full, q, flushed + [interval], cidrs, f, limit);
    }
  }

  lemma BooksAreGood(p: Progress, flushed: Chunk, cidrs: nat, f: Family, limit: nat)
    requires Books(p, flushed, cidrs, f, limit) && p.chunk != []
    ensures p.boundaries == Weight(p.chunk)
    ensures CutBefore(p, p.chunk[0], limit) && Weight(p.chunk) < limit ==> Good(p, flushed, cidrs, f, limit)
  {
    hide Flatten, StatsOf, Weight, WellPacked, WellSized, Cut;
  }

  lemma EmittedAtLimit(p: Progress, q: Progress, flushed: Chunk, cidrs: nat, f: Family, limit: nat)
    requires limit > 0 && p.chunk != [] && Weight(p.chunk) >= limit
    requires q == p.(sent := p.sent + [p.chunk], chunk := [], boundaries := 0)
    requires Books(q, flushed, cidrs, f, limit)
    ensures Good(q, flushed, cidrs, f, limit)
  {
    hide Flatten, StatsOf, WellPacked, WellSized, Cut;
  }

  // --- The pass over the file ------------------------------------------------------------

  /** The result of the whole pass, stated without reference to how it runs. */
  ghost predicate Outcome(lines: seq<Line>, limit: nat, emitOk: nat -> bool,
                          sent: seq<Chunk>, result: Result<StreamStats, StreamError>) {
    match result
    case Ok(stats) =>
      && Canonical(lines) && AllAccepted(sent, emitOk)
      && Flatten(sent) == SealAll(Runs(lines))
      && WellPacked(sent, limit)
      && stats == StatsOf(Entries(lines), Flatten(sent))
      && sent == SentBy(lines, limit)
    case Err(Rejected(line, reason)) =>
      && AllAccepted(sent, emitOk)
      && 1 <= line <= |lines|
      && Canonical(lines[..line - 1]) && Fault(lines[..line - 1], lines[line - 1]) == Some(reason)
      && Flatten(sent) <= SealAll(Runs(lines[..line - 1]))
      && WellPacked(sent, limit)
      && sent == SentBy(lines, limit)
    case Err(EmitFailed) =>
      && (exists i :: 0 <= i <= |lines| && Canonical(lines[..i])
                      && Stopped(sent, SealAll(Runs(lines[..i])), limit, emitOk))
      && sent <= SentBy(lines, limit)
  }

  /** The local variables of the pass. */
  datatype Pass = Pass(p: Progress, pending: Option<Run>, seenIpv6: bool)

  /** `pending` is the run still being extended; every earlier run has been flushed. */
  ghost predicate Tracks(pending: Option<Run>, lines: seq<Line>) {
    pending.Some? ==> var runs := Runs(lines); runs != [] && runs[|runs| - 1] == pending.value
  }

  ghost function Flushed(pending: Option<Run>, lines: seq<Line>): Chunk
    requires Tracks(pending, lines)
  {
    SealAll(if pending.Some? then Runs(lines)[..|Runs(lines)| - 1] else Runs(lines))
  }

  /** The loop invariant after the lines `lines`; `cidrs` counts the blocks seen. */
  ghost predicate Inv(s: Pass, lines: seq<Line>, cidrs: nat, limit: nat, emitOk: nat -> bool) {
    && Core(s, lines, cidrs, limit, emitOk) && (s.seenIpv6 <==> Holds(lines, V6))
    && SendingOf(s.p) == SendingAfter(lines, limit)
  }

  ghost predicate Core(s: Pass, lines: seq<Line>, cidrs: nat, limit: nat, emitOk: nat -> bool) {
    && Canonical(lines)
    && Tracks(s.pending, lines)
    && (s.pending.Some? ==> s.pending.value.family == Current(s))
    && Good(s.p, Flushed(s.pending, lines), cidrs, Current(s), limit)
    && AllAccepted(s.p.sent, emitOk)
  }

  function Current(s: Pass): Family {
    if s.seenIpv6 then V6 else V4
  }

  lemma RunsSnoc(p: seq<Line>, l: Line)
    ensures Runs(p + [l]) == if l.Entry? then Absorb(Runs(p), RunOf(l.net)) else Runs(p)
    ensures Entries(p + [l]) == Entries(p) + if l.Entry? then 1 else 0
  {
    assert (p + [l])[..|p|] == p;
  }

  lemma FlushedAll(lines: seq<Line>, pending: Option<Run>)
    requires Tracks(pending, lines)
    ensures pending.Some? ==> Flushed(pending, lines) + [Seal(pending.value)] == SealAll(Runs(lines))
    ensures pending.None? ==> Flushed(pending, lines) == SealAll(Runs(lines))
    ensures Flushed(pending, lines) <= SealAll(Runs(lines))
  {
    var runs := Runs(lines);
    if pending.Some? {
      SealSnoc(runs[..|runs| - 1], pending.value);
      assert runs == runs[..|runs| - 1] + [pending.value];
    }
  }

  /** Comparing with the pending run is enough to tell whether the block follows all earlier ones. */
  lemma PendingDecides(lines: seq<Line>, net: Cidr, pending: Option<Run>)
    requires Canonical(lines) && Tracks(pending, lines)
    requires pending.Some? ==> pending.value.family == net.family
    requires pending.None? ==> !Holds(lines, net.family)
    ensures Follows(lines, net) <==> pending.None? || pending.value.last < net.address
    ensures pending.Some? ==> pending.value.Valid()
  {
    RunsAreNormal(lines);
    if pending.Some? {
      var r := pending.value;
      var k :| 0 <= k < |lines| && EndsAt(lines[k], r);
    }
  }

  lemma AbsorbTracks(lines: seq<Line>, net: Cidr, pending: Option<Run>)
    requires Canonical(lines) && Tracks(pending, lines)
    requires pending.Some? ==> pending.value.family == net.family
    requires pending.None? ==> !Holds(lines, net.family)
    ensures var q := lines + [Entry(net)];
            if pending.Some? && pending.value.last + 1 == net.address then
              var longer := Some(pending.value.(last := net.Last()));
              Tracks(longer, q) && Flushed(longer, q) == Flushed(pending, lines)
            else
              Tracks(Some(RunOf(net)), q) && Flushed(Some(RunOf(net)), q) == SealAll(Runs(lines))
  {
    RunsAreNormal(lines);
    RunsSnoc(lines, Entry(net));
    var runs, more := Runs(lines), Runs(lines + [Entry(net)]);
    if pending.Some? && pending.value.last + 1 == net.address {
      assert more[..|more| - 1] == runs[..|runs| - 1];
    } else {
      assert more == runs + [RunOf(net)];
      assert more[..|more| - 1] == runs;
    }
  }

  /** The sending of a pass that goes on with `net`. */
  function Moved(st: Sending, pending: Option<Run>, net: Cidr, limit: nat): Sending {
    if pending.Some? && pending.value.last + 1 != net.address then AddOne(st, Seal(pending.value), limit) else st
  }

  /** The common inner step of both families: extend the pending run, or flush it and open another. */
  method Extend(s: Pass, net: Cidr, number: nat, limit: nat, emitOk: nat -> bool, ghost lines: seq<Line>,
                ghost cidrs: nat)
    returns (t: Pass, error: Option<StreamError>)
    requires limit > 0 && Core(s, lines, cidrs, limit, emitOk)
    requires net.family == Current(s) && (s.pending.None? ==> !Holds(lines, net.family))
    ensures error == Some(EmitFailed) ==> Stopped(t.p.sent, SealAll(Runs(lines)), limit, emitOk)
    ensures error.Some? && error != Some(EmitFailed) ==>
      error == Some(Rejected(number, Disorder)) && !Follows(lines, net) && t == s
    ensures error.None? ==>
      && Follows(lines, net)
      && Tracks(t.pending, lines + [Entry(net)]) && t.pending.Some? && t.pending.value.family == net.family
      && t.seenIpv6 == s.seenIpv6
      && Good(t.p, Flushed(t.pending, lines + [Entry(net)]), cidrs, Current(s), limit)
      && AllAccepted(t.p.sent, emitOk)
    ensures error.None? ==> SendingOf(t.p) == Moved(SendingOf(s.p), s.pending, net, limit)
    ensures error == Some(EmitFailed) ==>
      Follows(lines, net) && t.p.sent <= Moved(SendingOf(s.p), s.pending, net, limit).sent
  {
    hide Good, Stopped, Flushed, Runs, Canonical, SealAll, AllAccepted, AddOne;
    t, error := s, None;
    PendingDecides(lines, net, s.pending);
    FlushedAll(lines, s.pending);
    AbsorbTracks(lines, net, s.pending);
    match s.pending
    case None =>
      t := t.(pending := Some(RunOf(net)));
    case Some(run) =>
      if net.address <= run.last {
        error := Some(Rejected(number, Disorder));
      } else if CheckedAdd(net.family, run.last) == Some(net.address) {
        t := t.(pending := Some(run.(last := net.Last())));
      } else {
        var p, ok := FlushPending(s.pending, s.p, limit, emitOk, Flushed(s.pending, lines), cidrs, net.family);
        t := t.(p := p);
        if !ok {
          error := Some(EmitFailed);
        } else {
          t := t.(pending := Some(RunOf(net)));
        }
      }
  }

  lemma GoodCut(p: Progress, flushed: Chunk, cidrs: nat, f: Family, limit: nat)
    requires Good(p, flushed, cidrs, f, limit)
    ensures Books(p, flushed, cidrs, f, limit)
    ensures p.chunk != [] ==> CutBefore(p, p.chunk[0], limit) && p.chunk[0].family == f
    ensures p.chunk == [] ==> Flatten(p.sent) == flushed
    ensures p.chunk == [] && f == V4 ==> Good(p, flushed, cidrs, V6, limit)
  {
  }

  lemma EmittedForIpv6(p: Progress, q: Progress, flushed: Chunk, cidrs: nat, limit: nat)
    requires limit > 0 && p.chunk != [] && p.chunk[0].family == V4
    requires q == p.(sent := p.sent + [p.chunk], chunk := [], boundaries := 0)
    requires Books(q, flushed, cidrs, V4, limit)
    ensures Good(q, flushed, cidrs, V6, limit)
  {
  }

  /** The first IPv6 line closes the IPv4 part: flush the pending run and send the open chunk. */
  method EnterIpv6(s: Pass, limit: nat, emitOk: nat -> bool, ghost lines: seq<Line>, ghost cidrs: nat)
    returns (t: Pass, ok: bool)
    requires limit > 0 && Inv(s, lines, cidrs, limit, emitOk) && !s.seenIpv6
    requires s.pending.None? ==> Runs(lines) == []
    ensures !ok ==> Stopped(t.p.sent, SealAll(Runs(lines)), limit, emitOk)
    ensures ok ==>
      t.pending.None? && t.seenIpv6 && Core(t, lines, cidrs, limit, emitOk)
    ensures var st := CloseIpv4(SendingAll(lines, limit));
      if ok then SendingOf(t.p) == st else t.p.sent <= st.sent
  {
    hide Good, Books, Stopped, Runs, Canonical, SealAll, AllAccepted, CutBefore, AddOne, SendingAfter, SendingAll;
    LastRunSettles(lines, limit);
    FlushedAll(lines, s.pending);
    FlushedAll(lines, None);
    var p;
    p, ok := FlushPending(s.pending, s.p, limit, emitOk, Flushed(s.pending, lines), cidrs, V4);
    t := s.(p := p);
    if !ok {
      return;
    }
    GoodCut(p, SealAll(Runs(lines)), cidrs, V4, limit);
    if p.chunk != [] {
      ghost var full := p;
      p, ok := Emit(p, limit, emitOk, SealAll(Runs(lines)), cidrs, V4);
      t := s.(p := p);
      if !ok {
        return;
      }
      EmittedForIpv6(full, p, SealAll(Runs(lines)), cidrs, limit);
    }
    t := Pass(p, None, true);
  }

  /** One listed block, after its host bits have been checked. */
  method TakeBlock(s: Pass, net: Cidr, number: nat, limit: nat, emitOk: nat -> bool, ghost lines: seq<Line>,
                   ghost cidrs: nat)
    returns (t: Pass, error: Option<StreamError>)
    requires limit > 0 && Inv(s, lines, cidrs, limit, emitOk)
    requires s.pending.None? ==> Runs(lines) == []
    requires net.Trunc() == net
    ensures error == Some(EmitFailed) ==> Stopped(t.p.sent, SealAll(Runs(lines)), limit, emitOk)
    ensures error.Some? && error != Some(EmitFailed) ==>
      && error.value.line == number
      && AllAccepted(t.p.sent, emitOk) && WellPacked(t.p.sent, limit) && Flatten(t.p.sent) <= SealAll(Runs(lines))
      && Fault(lines, Entry(net)) == Some(error.value.reason)
      && t.p.sent == SendingAfter(lines, limit).sent
    ensures error == Some(EmitFailed) ==>
      && Canonical(lines + [Entry(net)])
      && t.p.sent <= SendingAfter(lines + [Entry(net)], limit).sent
    ensures error.None? ==>
      && Inv(t, lines + [Entry(net)], cidrs, limit, emitOk) && t.pending.Some?
  {
    hide Good, Stopped, Runs, Canonical, SealAll, AllAccepted, Holds, Follows, SendingAfter, SendingAll, AddOne,
      CloseIpv4;
    RunsAreNormal(lines);
    FlushedAll(lines, s.pending);
    HoldsSnoc(lines, Entry(net));
    FaultIsExact(lines, Entry(net));
    FirstOfFamily(lines, net);
    if Canonical(lines + [Entry(net)]) {
      BlockSending(s.pending, lines, net, limit);
    }
    t, error := s, None;
    if net.family == V4 {
      if s.seenIpv6 {
        SentSoFar(s, lines, cidrs, limit, emitOk);
        return s, Some(Rejected(number, Ipv4AfterIpv6));
      }
    } else if !s.seenIpv6 {
      var ok;
      t, ok := EnterIpv6(s, limit, emitOk, lines, cidrs);
      if !ok {
        return t, Some(EmitFailed);
      }
    }
    SentSoFar(t, lines, cidrs, limit, emitOk);
    t, error := Extend(t, net, number, limit, emitOk, lines, cidrs);
  }

  lemma FirstOfFamily(lines: seq<Line>, net: Cidr)
    ensures !Holds(lines, net.family) ==> Follows(lines, net)
  {
  }

  /** The sending after one more block, from the pending run alone. */
  lemma BlockSending(pending: Option<Run>, lines: seq<Line>, net: Cidr, limit: nat)
    requires Canonical(lines) && Canonical(lines + [Entry(net)]) && Tracks(pending, lines)
    requires pending.None? ==> Runs(lines) == []
    ensures SendingAfter(lines + [Entry(net)], limit) ==
      if net.family == V6 && !Holds(lines, V6) then CloseIpv4(SendingAll(lines, limit))
      else Moved(SendingAfter(lines, limit), pending, net, limit)
  {
    hide Canonical, SendingAfter, SendingAll, AddOne, CloseIpv4, Holds;
    SendingSnoc(lines, net, limit);
    LastRunSettles(lines, limit);
    FamiliesInOrder(lines, net);
    NothingSettled(limit);
  }

  const INITIAL := Pass(Progress([], [], 0, StreamStats(0, 0, 0, 0, 0)), None, false)

  lemma StartInv(limit: nat, emitOk: nat -> bool)
    requires limit > 0
    ensures Inv(INITIAL, [], 0, limit, emitOk) && Runs([]) == [] && Entries([]) == 0
  {
  }

  /** The line counter `cidrs` moves as soon as a block has passed the host-bit check. */
  function CountBlock(s: Pass): Pass {
    s.(p := s.p.(stats := s.p.stats.(cidrs := s.p.stats.cidrs + 1)))
  }

  lemma CountBlockInv(s: Pass, lines: seq<Line>, cidrs: nat, limit: nat, emitOk: nat -> bool)
    requires Inv(s, lines, cidrs, limit, emitOk)
    ensures Inv(CountBlock(s), lines, cidrs + 1, limit, emitOk)
  {
  }

  lemma BlankInv(s: Pass, lines: seq<Line>, limit: nat, emitOk: nat -> bool)
    requires Inv(s, lines, Entries(lines), limit, emitOk)
    ensures Inv(s, lines + [Blank], Entries(lines + [Blank]), limit, emitOk)
  {
    hide Good, Runs, Canonical, AllAccepted, Holds, SendingAfter, SealAll;
    RunsSnoc(lines, Blank);
    HoldsSnoc(lines, Blank);
    FaultIsExact(lines, Blank);
    SameSending(lines, Blank, limit);
  }

  lemma SentSoFar(s: Pass, lines: seq<Line>, cidrs: nat, limit: nat, emitOk: nat -> bool)
    requires Core(s, lines, cidrs, limit, emitOk)
    ensures Canonical(lines) && AllAccepted(s.p.sent, emitOk) && WellPacked(s.p.sent, limit)
    ensures Flatten(s.p.sent) <= SealAll(Runs(lines))
  {
    FlushedAll(lines, s.pending);
  }

  /** A pass that stops at a faulty line has sent what every pass sends. */
  lemma FaultStops(lines: seq<Line>, i: nat, limit: nat)
    requires i < |lines| && Canonical(lines[..i]) && Fault(lines[..i], lines[i]).Some?
    ensures SentBy(lines, limit) == SendingAfter(lines[..i], limit).sent
  {
    assert lines[..i + 1] == lines[..i] + [lines[i]];
    FaultIsExact(lines[..i], lines[i]);
    SentUntilFault(lines, i, limit);
  }

  method StreamChunks(lines: seq<Line>, limit: nat, emitOk: nat -> bool)
    returns (sent: seq<Chunk>, result: Result<StreamStats, StreamError>)
    requires limit > 0
    ensures Outcome(lines, limit, emitOk, sent, result)
  {
    hide Core, Stopped, Runs, Canonical, SealAll, AllAccepted, WellPacked, Flatten, Holds, Follows, Entries, StatsOf,
      ClearLow, SendingAfter, SentBy;
    var s := INITIAL;
    StartInv(limit, emitOk);
    assert lines[..0] == [];
    for i := 0 to |lines|
      invariant Inv(s, lines[..i], Entries(lines[..i]), limit, emitOk)
      invariant s.pending.None? ==> Runs(lines[..i]) == []
    {
      ghost var before := lines[..i];
      assert lines[..i + 1] == before + [lines[i]];
      SentSoFar(s, before, Entries(before), limit, emitOk);
      RunsSnoc(before, lines[i]);
      if Fault(before, lines[i]).Some? {
        FaultStops(lines, i, limit);
      }
      if Canonical(lines[..i + 1]) {
        SentIsPrefix(lines, i + 1, limit);
      }
      match lines[i]
      case Unreadable => return s.p.sent, Err(Rejected(i + 1, Io));
      case Blank => BlankInv(s, before, limit, emitOk);
      case Garbled => return s.p.sent, Err(Rejected(i + 1, Invalid));
      case Entry(net) =>
        if net != net.Trunc() {
          return s.p.sent, Err(Rejected(i + 1, HostBitsSet));
        }
        CountBlockInv(s, before, Entries(before), limit, emitOk);
        s := CountBlock(s);
        var error;
        s, error := TakeBlock(s, net, i + 1, limit, emitOk, before, Entries(before) + 1);
        if error.Some? {
          return s.p.sent, Err(error.value);
        }
    }
    assert lines[..|lines|] == lines;
    sent, result := Finish(s, lines, limit, emitOk);
  }

  lemma EndSending(pending: Option<Run>, lines: seq<Line>, limit: nat)
    requires Canonical(lines) && Tracks(pending, lines) && (pending.None? ==> Runs(lines) == [])
    ensures var before := SendingAfter(lines, limit);
      var st := if pending.Some? then AddOne(before, Seal(pending.value), limit) else before;
      SentBy(lines, limit) == Close(st).sent && st.sent <= SentBy(lines, limit)
  {
    hide Canonical, SendingAfter, AddOne, Runs;
    LastRunSettles(lines, limit);
  }

  /** End of file: flush the pending run and send what is left. */
  method Finish(s: Pass, ghost lines: seq<Line>, limit: nat, emitOk: nat -> bool)
    returns (sent: seq<Chunk>, result: Result<StreamStats, StreamError>)
    requires limit > 0 && Inv(s, lines, Entries(lines), limit, emitOk)
    requires s.pending.None? ==> Runs(lines) == []
    ensures Outcome(lines, limit, emitOk, sent, result)
  {
    hide Good, Stopped, Runs, Canonical, SealAll, AllAccepted, CutBefore, WellPacked, Flatten, StatsOf, Weight,
      SendingAfter, SentBy, AddOne;
    FlushedAll(lines, s.pending);
    EndSending(s.pending, lines, limit);
    assert lines[..|lines|] == lines;
    var p, ok := FlushPending(s.pending, s.p, limit, emitOk, Flushed(s.pending, lines), Entries(lines), Current(s));
    if ok {
      GoodCut(p, SealAll(Runs(lines)), Entries(lines), Current(s), limit);
    }
    if ok && p.chunk != [] {
      p, ok := Emit(p, limit, emitOk, SealAll(Runs(lines)), Entries(lines), Current(s));
      assert Flatten(p.sent) + [] == Flatten(p.sent);
    }
    if !ok {
      return p.sent, Err(EmitFailed);
    }
    return p.sent, Ok(p.stats);
  }
}
