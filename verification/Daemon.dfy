/**
 The daemon's nftables side: staging a direction, replacing generations, and periodic
 reconciliation. Any kernel request may fail; a failed request changes nothing, so a crash
 between two requests leaves the kernel as if every later request of the call had failed.
 */
module Daemon {
  import opened Wrappers
  import opened Bits
  import opened Addresses
  import opened Blocklist
  import opened Stream
  import opened StreamTheorems
  import opened IntervalSets
  import opened GenerationNames
  import opened Netfilter
  import opened Generations
  import opened Backend
  import opened Staging

  datatype DaemonError =
    | NotConfigured
    | NoFile
    | Malformed(error: StreamError)
    | Failed(reason: BackendError)
    | Unhealthy(health: Health)
    | UnsupportedLayout

  /** Which damage may remain when the generation of one direction is being replaced. */
  predicate Acceptable(health: Health, replaced: Option<Direction>) {
    match replaced
    case None => health == Healthy
    case Some(Inbound) => health == Healthy || health == OutboundDamaged
    case Some(Outbound) => health == Healthy || health == InboundDamaged
  }

  /** The error names the first faulty line of the file and what is wrong with it. */
  ghost predicate NamesFault(lines: seq<Line>, error: StreamError) {
    && error.Rejected? && 1 <= error.line <= |lines|
    && Canonical(lines[..error.line - 1])
    && Fault(lines[..error.line - 1], lines[error.line - 1]) == Some(error.reason)
  }

  /** The pass over a file when no call of the callback is refused. */
  method Streamed(lines: seq<Line>, limit: nat) returns (sent: seq<Chunk>, result: Result<StreamStats, StreamError>)
    requires limit > 0
    ensures WellPacked(sent, limit)
    ensures result.Ok? <==> Canonical(lines)
    ensures result.Ok? ==>
      Flatten(sent) == SealAll(Runs(lines)) && result.value == StatsOf(Entries(lines), Flatten(sent))
    ensures result.Err? ==> NamesFault(lines, result.error)
  {
    hide Outcome, Canonical, Fault, WellPacked, Runs, SealAll, StatsOf;
    sent, result := StreamChunks(lines, limit, k => true);
    StreamFacts(lines, limit, k => true, sent, result);
    if result.Err? {
      RejectedAt(lines, limit, k => true, sent, result.error);
    }
  }

  class Daemon {
    const backend: NftnlBackend
    const rules: seq<RenderedRule>
    const populateBatch: nat
    var active: Option<ActiveGenerations>

    constructor (backend: NftnlBackend, rules: seq<RenderedRule>, populateBatch: nat)
      ensures this.backend == backend && this.rules == rules && this.populateBatch == populateBatch && active.None?
    {
      this.backend, this.rules, this.populateBatch := backend, rules, populateBatch;
      active := None;
    }

    predicate Uses(d: Direction) {
      exists r <- rules :: r.direction == d
    }

    ghost function Table(): TableState
      reads backend.kernel
    {
      backend.kernel.table
    }

    /** Generations are held for the directions in use, under generation names. */
    ghost predicate Configured(a: ActiveGenerations) {
      && (forall d :: a.Get(d).Some? <==> Uses(d))
      && (forall n <- a.Keep() :: IsGeneration(n))
    }

    ghost predicate Valid()
      reads this, backend, backend.kernel
    {
      populateBatch > 0 && Intact(Table()) && (active.Some? ==> Configured(active.value))
    }

    /** Nobody else has touched the table: it carries the marker, and its chains are those of `active`. */
    ghost predicate Undisturbed()
      reads this, backend, backend.kernel
    {
      Linked(Table(), active)
    }

    ghost predicate Linked(s: TableState, a: Option<ActiveGenerations>) {
      && (s.Present? ==> LAYOUT_MARKER in s.table.sets)
      && (a.Some? ==> s.Present? && s.table.chains == Render(rules, a.value))
    }

    ghost predicate Marked()
      reads backend.kernel
    {
      Table().Present? && LAYOUT_MARKER in Table().table.sets
    }

    /** Reconciliation has something to go by: a marked table, or generations to bootstrap a lost one for. */
    ghost predicate Recoverable()
      reads this, backend, backend.kernel
    {
      Marked() || (Table().Absent? && active.Some?)
    }

    /** The generation counter is not about to run out, whatever names the table holds. */
    ghost predicate Roomy()
      reads this, backend, backend.kernel
    {
      && backend.nextGeneration < MAX - 1
      && forall n <- Names(Table()) :: Generation(n).Some? ==> Generation(n).value < MAX - 2
    }

    /** Nothing but the files can stop a replacement of held generations. */
    ghost predicate Able()
      reads this, backend, backend.kernel
    {
      backend.kernel.reliable && active.Some? && Marked() && backend.nextGeneration < MAX - 1
    }

    /** The counter is above every number in the table. */
    ghost predicate Tallied()
      reads this, backend, backend.kernel
    {
      Numbered(Names(Table()), backend.nextGeneration as nat)
    }

    ghost predicate AllUsable(files: Files) {
      forall d :: Uses(d) ==> Usable(files.Of(d))
    }

    // --- Staging -----------------------------------------------------------------------------

    /** The callback of the pass: one transaction per chunk, until one fails. */
    method PopulateAll(stage: DirectionGeneration, sent: seq<Chunk>, ghost t: Table)
      returns (error: Option<BackendError>, ghost done: Chunk)
      requires WellPacked(sent, populateBatch) && stage.ipv4Set != stage.ipv6Set
      requires Table() == Present(Filled(t, stage, [])) && Intact(Table())
      modifies backend.kernel`table, backend.kernel`refused
      ensures Table() == Present(Filled(t, stage, done)) && Intact(Table())
      ensures error.None? ==> done == Flatten(sent)
      ensures error != Some(MixedFamilies)
      ensures backend.kernel.refused == old(backend.kernel.refused)
      ensures backend.kernel.reliable ==> error.None?
    {
      hide Filled, WithElements, Intact, Elements;
      error, done := None, [];
      for i := 0 to |sent|
        invariant error.None? && done == Flatten(sent[..i])
        invariant Table() == Present(Filled(t, stage, done)) && Intact(Table())
        invariant backend.kernel.refused == old(backend.kernel.refused)
      {
        assert sent[..i + 1] == sent[..i] + [sent[i]];
        FlattenSnoc(sent[..i], sent[i]);
        FilledAccepts(t, stage, done);
        FilledStep(t, stage, done, sent[i]);
        error := backend.Populate(stage, sent[i]);
        if error.Some? {
          return;
        }
        done := done + sent[i];
      }
      assert sent[..|sent|] == sent;
    }

    lemma FilledAccepts(t: Table, stage: DirectionGeneration, ivs: Chunk)
      requires stage.ipv4Set != stage.ipv6Set
      ensures var u := Filled(t, stage, ivs);
        forall f :: stage.Set(f) in u.sets && u.sets[stage.Set(f)].family == f
    {
    }

    method Stage(d: Direction, file: Option<seq<Line>>) returns (r: Result<DirectionGeneration, DaemonError>)
      requires Valid() && backend.Named()
      modifies backend, backend.kernel`table, backend.kernel`refused
      ensures Valid() && backend.Named() && old(backend.nextGeneration) <= backend.nextGeneration
      ensures old(backend.nextGeneration) < MAX ==> backend.nextGeneration <= old(backend.nextGeneration) + 1
      ensures old(Tallied()) ==> Tallied()
      ensures r.Ok? ==> Staged(old(Table()), Table(), r.value, d, old(backend.nextGeneration), file)
      ensures r.Err? ==> Grown(old(Table()), Table())
      ensures r.Err? && backend.kernel.reliable ==> Table() == old(Table())
      // A file that cannot be opened costs nothing; one that is rejected is rejected for its first faulty line.
      ensures file.None? ==>
        r == Err(NoFile) && Table() == old(Table()) && backend.nextGeneration == old(backend.nextGeneration)
      ensures r.Err? && r.error.Malformed? ==> file.Some? && NamesFault(file.value, r.error.error)
      ensures (backend.kernel.reliable && old(Table()).Present? && old(backend.nextGeneration) < MAX
               && file.Some? && !Canonical(file.value)) ==> r.Err? && r.error.Malformed?
      ensures old(Table()).Present? ==> backend.kernel.refused == old(backend.kernel.refused)
      ensures (backend.kernel.reliable && old(Table()).Present? && Usable(file)
               && old(backend.nextGeneration) < MAX) ==> r.Ok?
    {
      hide Filled, Intact, Fresh, Numbered, Commit, Canonical, NamesFault, WellPacked, Runs, SealAll, StatsOf;
      if file.None? {
        return Err(NoFile);
      }
      ghost var before, number := Table(), backend.nextGeneration;
      var begun := backend.BeginStage(d);
      NumberedSubset(Names(before), Names(before), number as nat, backend.nextGeneration as nat);
      if begun.Err? {
        return Err(Failed(begun.error));
      }
      var stage := begun.value;
      ghost var t := before.table;
      FreshStageIsFilled(t, stage);
      var lines := file.value;
      var sent, result := Streamed(lines, populateBatch);
      var error, done := PopulateAll(stage, sent, t);
      FilledNames(t, stage, [], done);
      if Numbered(t.sets.Keys, number as nat) {
        FilledNumbered(t, d, number, stage, done);
      }
      if error.Some? || result.Err? {
        StageDeletable(t, stage, done);
        DiscardUndoes(t, stage, done);
        FilledGrows(t, d, number, stage, done);
        var discarded := backend.Discard(stage);
        if discarded {
          FreshSubset(t.sets.Keys, Names(Present(Filled(t, stage, done))), backend.nextGeneration,
            backend.nextGeneration);
        }
        return Err(if error.Some? then Failed(error.value) else Malformed(result.error));
      }
      SameSets(t, stage, stage.ApplyStats(result.value), done);
      return Ok(stage.ApplyStats(result.value));
    }

    lemma FilledNames(t: Table, g: DirectionGeneration, a: Chunk, b: Chunk)
      ensures Names(Present(Filled(t, g, a))) == Names(Present(Filled(t, g, b)))
      ensures t.sets.Keys <= Names(Present(Filled(t, g, b)))
    {
    }

    /** Only the names in the stage matter, not its statistics. */
    lemma SameSets(t: Table, a: DirectionGeneration, b: DirectionGeneration, ivs: Chunk)
      requires a.ipv4Set == b.ipv4Set && a.ipv6Set == b.ipv6Set
      ensures Filled(t, a, ivs) == Filled(t, b, ivs) && (NotYet(t, a) <==> NotYet(t, b))
    {
    }

    method VerifyCandidate(candidate: ActiveGenerations, replaced: Option<Direction>)
      returns (error: Option<DaemonError>)
      ensures error.None? ==> Acceptable(HealthOf(Table(), backend.kernel.countsReported, candidate), replaced)
      ensures (backend.kernel.reliable
               && Acceptable(HealthOf(Table(), backend.kernel.countsReported, candidate), replaced)) ==> error.None?
    {
      var health := backend.GetHealth(candidate);
      if health.Err? {
        return Some(Failed(health.error));
      }
      return if Acceptable(health.value, replaced) then None else Some(Unhealthy(health.value));
    }

    // --- The first activation ----------------------------------------------------------------

    /** Give up one staged generation of a candidate. */
    method DiscardOne(stage: DirectionGeneration, ghost t: Table)
      requires Table().Present? && Grown(Present(t), Table()) && NewSets(t, Table().table, stage) && Intact(Present(t))
      requires backend.Named()
      modifies backend.kernel`table, backend.kernel`refused
      ensures Table().Present? && Grown(Present(t), Table()) && backend.Named()
      ensures Intact(old(Table())) ==> Intact(Table())
      ensures Table() == old(Table()) || Table() == Present(Without(old(Table()).table, {stage.ipv4Set, stage.ipv6Set}))
      ensures backend.kernel.refused == old(backend.kernel.refused)
      ensures backend.kernel.reliable ==> Table() != old(Table())
    {
      hide Grown, Intact, IsGeneration;
      ghost var x := Table().table;
      ghost var names := {stage.ipv4Set, stage.ipv6Set};
      GrownChains(t, x);
      NewSetsDeletable(t, x, stage);
      GrownWithout(Present(t), x, names);
      FreshSubset(Without(x, names).sets.Keys, x.sets.Keys, backend.nextGeneration, backend.nextGeneration);
      var discarded := backend.Discard(stage);
      assert stage.ipv4Set !in Without(x, names).sets;
    }

    lemma GrownChains(t: Table, x: Table)
      requires Grown(Present(t), Present(x))
      ensures x.chains == t.chains
    {
    }

    /** Give up every staged generation of a candidate, as far as the kernel lets us. */
    method DiscardCandidate(candidate: ActiveGenerations, ghost s: TableState, ghost u: TableState, ghost files: Files)
      requires Intact(s) && Intact(Table()) && backend.Named()
      requires Loading(s, u, candidate, files) && Grown(u, Table())
      modifies backend.kernel`table, backend.kernel`refused
      ensures Grown(s, Table()) && Intact(Table()) && backend.Named()
      ensures Names(Table()) <= Names(old(Table()))
      ensures backend.kernel.refused == old(backend.kernel.refused)
      ensures backend.kernel.reliable && old(Table()) == u ==> Table() == s
    {
      hide Grown, Intact, IsGeneration, NewSets;
      ghost var v := Table();
      if s.Absent? {
        NothingGrows(s, u, v);
      } else {
        LoadedGrown(s.table, u.table, candidate, files);
        GrownTransitive(s, u, v);
        GrownPresent(s, v);
      }
      assert candidate.Get(Inbound) == candidate.inbound && candidate.Get(Outbound) == candidate.outbound;
      if candidate.inbound.Some? {
        StillNew(s.table, u.table, v.table, candidate.inbound.value);
        DiscardOne(candidate.inbound.value, s.table);
      }
      if candidate.outbound.Some? {
        StillNew(s.table, u.table, v.table, candidate.outbound.value);
        if candidate.inbound.Some? {
          StillNewAfter(s.table, v.table, Table().table, candidate.inbound.value, candidate.outbound.value);
        }
        DiscardOne(candidate.outbound.value, s.table);
      }
      assert s.Present? && backend.kernel.reliable ==> Table().table.sets == v.table.sets - candidate.Keep();
    }

    lemma NothingGrows(s: TableState, u: TableState, v: TableState)
      requires s.Absent? && u.Absent? && Grown(u, v)
      ensures Grown(s, v) && v == s
    {
    }

    lemma GrownPresent(s: TableState, v: TableState)
      requires s.Present? && Grown(s, v)
      ensures v.Present?
    {
    }

    lemma StillNew(t: Table, u: Table, v: Table, g: DirectionGeneration)
      requires NewSets(t, u, g) && Grown(Present(u), Present(v))
      ensures NewSets(t, v, g)
    {
    }

    lemma StillNewAfter(t: Table, v: Table, x: Table, gone: DirectionGeneration, g: DirectionGeneration)
      requires NewSets(t, v, g) && Disjoint(gone, g)
      requires x == v || x == Without(v, {gone.ipv4Set, gone.ipv6Set})
      ensures NewSets(t, x, g)
    {
    }

    /** Stage one direction of a candidate if it is in use; give the candidate up when that fails. */
    method StageInto(d: Direction, files: Files, candidate: ActiveGenerations, ghost s: TableState)
      returns (c: ActiveGenerations, error: Option<DaemonError>)
      requires Valid() && backend.Named() && Intact(s)
      requires Loading(s, Table(), candidate, files) && candidate.Get(d).None?
      modifies backend, backend.kernel`table, backend.kernel`refused
      ensures Valid() && backend.Named() && old(backend.nextGeneration) <= backend.nextGeneration
      ensures old(backend.nextGeneration) < MAX ==> backend.nextGeneration <= old(backend.nextGeneration) + 1
      ensures old(Tallied()) ==> Tallied()
      ensures error.None? ==> Loading(s, Table(), c, files) && (c.Get(d).Some? <==> Uses(d))
      ensures error.None? ==> forall e :: e != d ==> c.Get(e) == candidate.Get(e)
      ensures error.Some? ==> Grown(s, Table()) && (backend.kernel.reliable ==> Table() == s)
      ensures s.Present? ==> backend.kernel.refused == old(backend.kernel.refused)
      ensures (backend.kernel.reliable && s.Present? && (Uses(d) ==> Usable(files.Of(d)))
               && old(backend.nextGeneration) < MAX) ==> error.None?
    {
      hide Intact, Loaded, Grown, Staged, Fresh, Numbered, Canonical;
      c, error := candidate, None;
      if !Uses(d) {
        return;
      }
      ghost var u, number := Table(), backend.nextGeneration;
      var r := Stage(d, files.Of(d));
      if r.Err? {
        ghost var v := Table();
        DiscardCandidate(candidate, s, u, files);
        NumberedSubset(Names(Table()), Names(v), backend.nextGeneration as nat, backend.nextGeneration as nat);
        return c, Some(r.error);
      }
      StagedPresent(u, Table(), r.value, d, number, files.Of(d));
      LoadedStep(s.table, u.table, candidate, files, Table().table, r.value, d, number);
      c := candidate.Set(r.value, d);
    }

    lemma StagedPresent(u: TableState, v: TableState, g: DirectionGeneration, d: Direction, number: u64,
                        file: Option<seq<Line>>)
      requires Staged(u, v, g, d, number, file)
      ensures u.Present? && v.Present?
    {
    }

    /** Collect obsolete generations; a failure is only logged. */
    method Collect(candidate: ActiveGenerations) returns (collected: bool)
      requires Table().Present? && Intact(Table()) && backend.Named()
      modifies backend.kernel`table, backend.kernel`refused
      ensures Table() ==
        if collected then Present(Without(old(Table()).table, Obsolete(old(Table()).table, candidate)))
        else old(Table())
      ensures Intact(Table()) && backend.Named()
      ensures old(Table()).table.chains == Render(rules, candidate) ==>
        backend.kernel.refused == old(backend.kernel.refused) && (backend.kernel.reliable ==> collected)
    {
      hide Intact;
      ghost var t := Table().table;
      if t.chains == Render(rules, candidate) {
        ObsoleteUnused(t, rules, candidate);
      }
      ghost var next := backend.nextGeneration;
      FreshSubset(Without(t, Obsolete(t, candidate)).sets.Keys, t.sets.Keys, next, next);
      collected := backend.CleanupObsolete(candidate);
    }

    /** Every direction in use holds exactly its file. */
    ghost predicate Holding(t: Table, a: ActiveGenerations, files: Files) {
      forall d :: Uses(d) ==> a.Get(d).Some? && Usable(files.Of(d)) && Carries(t, a.Get(d).value, files.Of(d).value)
    }

    /** The first activation, of both directions together. */
    method ReplaceInitial(files: Files) returns (error: Option<DaemonError>, collected: bool)
      requires Valid() && backend.Named() && active.None?
      modifies this`active, backend, backend.kernel`table, backend.kernel`refused
      ensures Valid() && backend.Named()
      ensures old(backend.nextGeneration) <= backend.nextGeneration
      ensures old(backend.nextGeneration) < MAX - 1 ==> backend.nextGeneration <= old(backend.nextGeneration) + 2
      ensures old(Tallied()) ==> Tallied()
      // All or nothing.
      ensures error.Some? ==> active.None? && Grown(old(Table()), Table())
      ensures error.Some? && backend.kernel.reliable ==> Table() == old(Table())
      ensures error.None? ==>
        && active.Some? && old(Marked()) && Undisturbed() && Marked()
        && Holding(Table().table, active.value, files)
        && KeepsForeign(old(Table()).table, Table().table)
      // Whenever the cleanup succeeds, the generation sets present are those of `active`.
      ensures collected ==> error.None? && Collected(Table().table, active.value)
      ensures backend.kernel.reliable && error.None? ==> collected
      ensures old(Table()).Present? ==> backend.kernel.refused == old(backend.kernel.refused)
      // It works out whenever it can.
      ensures (backend.kernel.reliable && old(Marked()) && AllUsable(files)
               && old(backend.nextGeneration) < MAX - 1) ==> error.None?
    {
      hide Loading, Intact, Grown, Fresh, Numbered, Canonical, Render, HealthOf, IsGeneration, Holding;
      ghost var s := Table();
      NothingLoaded(s, files);
      var candidate;
      collected := false;
      candidate, error := StageInto(Inbound, files, NONE, s);
      if error.Some? {
        return;
      }
      candidate, error := StageInto(Outbound, files, candidate, s);
      if error.Some? {
        return;
      }
      ghost var u := Table();
      ghost var next := backend.nextGeneration as nat;
      LoadingFacts(s, u, candidate, files);
      error := VerifyCandidate(candidate, None);
      if error.Some? {
        DiscardCandidate(candidate, s, u, files);
        NumberedSubset(Names(Table()), Names(u), next, next);
        return;
      }
      HealthyHasMarker(u, backend.kernel.countsReported, candidate);
      LoadedSets(s, u, candidate, files);
      var ok := backend.ReplaceRules(rules, candidate);
      if !ok {
        DiscardCandidate(candidate, s, u, files);
        NumberedSubset(Names(Table()), Names(u), next, next);
        return Some(Failed(Netlink)), false;
      }
      active := Some(candidate);
      ghost var v := Table().table;
      collected := Collect(candidate);
      NumberedSubset(Names(Table()), Names(u), next, next);
      AfterCollection(s, u, v, Table().table, candidate, files);
    }

    lemma LoadingFacts(s: TableState, u: TableState, c: ActiveGenerations, files: Files)
      requires Loading(s, u, c, files)
      ensures Grown(u, u)
      ensures s.Present? && LAYOUT_MARKER in s.table.sets ==> HealthOf(u, backend.kernel.countsReported, c) == Healthy
      ensures s.Absent? ==> u.Absent?
    {
      if s.Present? && LAYOUT_MARKER in s.table.sets {
        LoadedIsHealthy(s.table, u.table, backend.kernel.countsReported, c, files);
      }
    }

    lemma HealthyHasMarker(u: TableState, counts: bool, c: ActiveGenerations)
      requires HealthOf(u, counts, c) != LayoutDamaged
      ensures u.Present? && LAYOUT_MARKER in u.table.sets
    {
    }

    lemma LoadedSets(s: TableState, u: TableState, c: ActiveGenerations, files: Files)
      requires Loading(s, u, c, files) && u.Present?
      ensures s.Present? && HasActive(u.table, c) && forall n <- c.Keep() :: IsGeneration(n)
    {
      hide Carries, Canonical, IsGeneration;
      assert c.Get(Inbound) == c.inbound && c.Get(Outbound) == c.outbound;
    }

    lemma AfterCollection(s: TableState, u: TableState, v: Table, w: Table, c: ActiveGenerations, files: Files)
      requires Loading(s, u, c, files) && u.Present? && v == u.table.(chains := Render(rules, c))
      requires w == v || w == Without(v, Obsolete(v, c))
      requires HasActive(u.table, c) && forall n <- c.Keep() :: IsGeneration(n)
      requires forall d :: c.Get(d).Some? <==> Uses(d)
      requires LAYOUT_MARKER in u.table.sets
      ensures s.Present? && w.chains == Render(rules, c) && Holding(w, c, files) && KeepsForeign(s.table, w)
      ensures LAYOUT_MARKER in s.table.sets && LAYOUT_MARKER in w.sets
      ensures w == Without(v, Obsolete(v, c)) ==> Collected(w, c)
    {
      hide Carries, Render, Canonical, IsGeneration;
      MarkerIsForeign();
      CollectRetains(v, c);
      LoadedGrown(s.table, u.table, c, files);
      forall d | Uses(d)
        ensures Usable(files.Of(d)) && Carries(w, c.Get(d).value, files.Of(d).value)
      {
        var g := c.Get(d).value;
        assert g.ipv4Set in c.Keep() && g.ipv6Set in c.Keep();
        CarriesRetained(u.table, w, g, files.Of(d).value);
      }
      if w == Without(v, Obsolete(v, c)) {
        CollectedExactly(v, c);
      }
    }

    // --- Replacing one direction -------------------------------------------------------------

    /** Only direction `d` was replaced: its chain, its entry in `active`, its sets. */
    ghost predicate Replaced(s: TableState, r: TableState, a: ActiveGenerations, b: Option<ActiveGenerations>,
                             d: Direction, file: Option<seq<Line>>) {
      && s.Present? && r.Present? && Usable(file)
      && b.Some? && b.value.Get(d).Some?
      && var g := b.value.Get(d).value;
      && b.value == a.Set(g, d)
      && NotYet(s.table, g) && Carries(r.table, g, file.value)
      && r.table.chains == s.table.chains[Dispatch(d) := DispatchRules(d, g)]
      && Retains(s.table, r.table, b.value.Keep()) && KeepsForeign(s.table, r.table)
      && r.table.sets.Keys <= s.table.sets.Keys + {g.ipv4Set, g.ipv6Set}
      && (forall n <- r.table.sets :: n in s.table.sets ==> r.table.sets[n] == s.table.sets[n])
      && LAYOUT_MARKER in r.table.sets
    }

    /** `reload_nft_for` once generations are held. */
    method ReloadHeld(d: Direction, file: Option<seq<Line>>) returns (error: Option<DaemonError>, collected: bool)
      requires Valid() && backend.Named() && active.Some? && Uses(d)
      modifies this`active, backend, backend.kernel`table, backend.kernel`refused
      ensures Valid() && backend.Named() && old(backend.nextGeneration) <= backend.nextGeneration
      ensures old(backend.nextGeneration) < MAX ==> backend.nextGeneration <= old(backend.nextGeneration) + 1
      ensures old(Tallied()) ==> Tallied()
      ensures active.Some? && (error.Some? ==> active == old(active) && Grown(old(Table()), Table()))
      ensures error.Some? && backend.kernel.reliable ==> Table() == old(Table())
      ensures error.None? ==> Replaced(old(Table()), Table(), old(active).value, active, d, file)
      ensures old(Undisturbed()) ==> Undisturbed() && backend.kernel.refused == old(backend.kernel.refused)
      // Whenever the cleanup succeeds, the generation sets present are those of `active`.
      ensures collected ==> error.None? && Obsolete(Table().table, active.value) == {}
      ensures old(Undisturbed()) && collected ==> Collected(Table().table, active.value)
      ensures old(Undisturbed()) && backend.kernel.reliable && error.None? ==> collected
      ensures backend.kernel.reliable && old(Marked()) && Usable(file) && old(backend.nextGeneration) < MAX ==>
        error.None?
    {
      hide Intact, Grown, Fresh, Numbered, Canonical, Render, HealthOf, IsGeneration, Replaced, Staged,
        Collected, Carries;
      ghost var s, number := Table(), backend.nextGeneration;
      var r := Stage(d, file);
      if r.Err? {
        StillLinked(s, Table(), active);
        return Some(r.error), false;
      }
      var stage := r.value;
      ghost var v, next := Table(), backend.nextGeneration as nat;
      StagedPresent(s, v, stage, d, number, file);
      StagedNames(s.table, v.table, stage, d, number, file);
      StagedGrows(s.table, v.table, stage, d, number, file);
      StagedIsAcceptable(s.table, v.table, active.value, stage, d, number, file);
      var candidate := active.value.Set(stage, d);
      error := VerifyCandidate(candidate, Some(d));
      if error.Some? {
        DiscardOne(stage, s.table);
        NumberedSubset(Names(Table()), Names(v), next, next);
        StillLinked(s, Table(), active);
        return error, false;
      }
      AcceptableHasMarker(v, candidate, d);
      var ok := backend.ActivateDirection(d, stage);
      if !ok {
        DiscardOne(stage, s.table);
        NumberedSubset(Names(Table()), Names(v), next, next);
        StillLinked(s, Table(), active);
        return Some(Failed(Netlink)), false;
      }
      ghost var w := Table();
      CandidateConfigured(active.value, stage, d);
      RenderReplaced(rules, active.value, d, stage);
      active := Some(candidate);
      collected := Collect(candidate);
      NumberedSubset(Names(Table()), Names(v), next, next);
      AfterReplacement(s.table, v.table, w.table, Table().table, old(active.value), stage, d, number, file);
    }

    lemma StillLinked(s: TableState, r: TableState, a: Option<ActiveGenerations>)
      requires Grown(s, r)
      ensures Linked(s, a) ==> Linked(r, a)
    {
    }

    lemma StagedGrows(t: Table, v: Table, g: DirectionGeneration, d: Direction, number: u64, file: Option<seq<Line>>)
      requires Staged(Present(t), Present(v), g, d, number, file)
      ensures Grown(Present(t), Present(v))
    {
      hide Carries;
      StagedNames(t, v, g, d, number, file);
    }

    lemma StagedIsAcceptable(t: Table, v: Table, a: ActiveGenerations, g: DirectionGeneration, d: Direction,
                             number: u64, file: Option<seq<Line>>)
      requires Staged(Present(t), Present(v), g, d, number, file)
      ensures LAYOUT_MARKER in t.sets ==>
        Acceptable(HealthOf(Present(v), backend.kernel.countsReported, a.Set(g, d)), Some(d))
    {
      hide Carries, Damaged, Canonical;
      StagedNames(t, v, g, d, number, file);
      CarriedIsHealthy(v, backend.kernel.countsReported, g, file.value);
      var b := a.Set(g, d);
      assert b.Get(d) == Some(g) && b.Get(Inbound) == b.inbound && b.Get(Outbound) == b.outbound;
    }

    lemma AcceptableHasMarker(v: TableState, a: ActiveGenerations, d: Direction)
      requires Acceptable(HealthOf(v, backend.kernel.countsReported, a), Some(d))
      ensures v.Present? && LAYOUT_MARKER in v.table.sets
    {
      HealthyHasMarker(v, backend.kernel.countsReported, a);
    }

    lemma CandidateConfigured(a: ActiveGenerations, g: DirectionGeneration, d: Direction)
      requires Configured(a) && Uses(d) && IsGeneration(g.ipv4Set) && IsGeneration(g.ipv6Set)
      ensures Configured(a.Set(g, d))
      ensures g.ipv4Set in a.Set(g, d).Keep() && g.ipv6Set in a.Set(g, d).Keep()
      ensures forall n <- a.Set(g, d).Keep() :: n == g.ipv4Set || n == g.ipv6Set || n in a.Keep()
    {
      hide IsGeneration;
      var b := a.Set(g, d);
      assert b.Get(Inbound) == b.inbound && b.Get(Outbound) == b.outbound;
      assert a.Get(Inbound) == a.inbound && a.Get(Outbound) == a.outbound;
      assert b.Get(d) == Some(g);
      assert forall e :: e != d ==> b.Get(e) == a.Get(e);
    }

    /** From the staged table `v` over the activated `w` to the collected `x`. */
    lemma AfterReplacement(t: Table, v: Table, w: Table, x: Table, a: ActiveGenerations, g: DirectionGeneration,
                           d: Direction, number: u64, file: Option<seq<Line>>)
      requires Staged(Present(t), Present(v), g, d, number, file) && LAYOUT_MARKER in v.sets
      requires w == v.(chains := v.chains[Dispatch(d) := DispatchRules(d, g)])
      requires x == w || x == Without(w, Obsolete(w, a.Set(g, d)))
      requires Configured(a) && Uses(d) && Intact(Present(w))
      ensures Replaced(Present(t), Present(x), a, Some(a.Set(g, d)), d, file)
      ensures LAYOUT_MARKER in x.sets
      ensures t.chains == Render(rules, a) ==> w.chains == x.chains == Render(rules, a.Set(g, d))
      ensures x == Without(w, Obsolete(w, a.Set(g, d))) ==> Obsolete(x, a.Set(g, d)) == {}
      ensures t.chains == Render(rules, a) && x == Without(w, Obsolete(w, a.Set(g, d))) ==> Collected(x, a.Set(g, d))
    {
      hide Carries, Canonical, IsGeneration, Render, Intact, Configured, Staged, NewSets, Obsolete, Collected;
      var b := a.Set(g, d);
      StagedNames(t, v, g, d, number, file);
      StagedNew(t, v, g, d, number, file);
      CandidateConfigured(a, g, d);
      ConfiguredNames(b);
      RenderReplaced(rules, a, d, g);
      CollectedChange(t, v, w, x, b, g);
      CarriesRetained(v, x, g, file.value);
      CollectedRest(w, b);
      if t.chains == Render(rules, a) {
        RenderedHasActive(w, rules, b);
        CollectedExactly(w, b);
      }
      assert b.Get(d) == Some(g);
    }

    lemma StagedNew(t: Table, v: Table, g: DirectionGeneration, d: Direction, number: u64, file: Option<seq<Line>>)
      requires Staged(Present(t), Present(v), g, d, number, file)
      ensures NotYet(t, g) && Usable(file) && IsGeneration(g.ipv4Set) && IsGeneration(g.ipv6Set)
    {
      hide Carries, Canonical, IsGeneration;
      StagedNames(t, v, g, d, number, file);
    }

    lemma ConfiguredNames(b: ActiveGenerations)
      requires Configured(b)
      ensures forall n <- b.Keep() :: IsGeneration(n)
    {
    }

    lemma CollectedRest(w: Table, b: ActiveGenerations)
      ensures Obsolete(Without(w, Obsolete(w, b)), b) == {}
    {
      hide IsGeneration;
    }

    /** What a cleanup after an activation keeps of the sets. */
    lemma CollectedChange(t: Table, v: Table, w: Table, x: Table, b: ActiveGenerations, g: DirectionGeneration)
      requires w.sets == v.sets && (x == w || x == Without(w, Obsolete(w, b)))
      requires Retains(t, v, t.sets.Keys) && v.sets.Keys == t.sets.Keys + {g.ipv4Set, g.ipv6Set}
      requires g.ipv4Set in b.Keep() && g.ipv6Set in b.Keep() && LAYOUT_MARKER in v.sets
      ensures x.chains == w.chains && LAYOUT_MARKER in x.sets
      ensures Retains(v, x, {g.ipv4Set, g.ipv6Set})
      ensures Retains(t, x, b.Keep()) && KeepsForeign(t, x)
      ensures x.sets.Keys <= t.sets.Keys + {g.ipv4Set, g.ipv6Set}
      ensures forall n <- x.sets :: n in t.sets ==> x.sets[n] == t.sets[n]
    {
      hide IsGeneration;
      CollectRetains(w, b);
      MarkerIsForeign();
    }

    // --- The operations of the daemon ----------------------------------------------------------

    /** One direction was replaced, or it kept what it had. */
    ghost predicate Turn(s: TableState, r: TableState, a: ActiveGenerations, b: Option<ActiveGenerations>,
                         d: Direction, file: Option<seq<Line>>) {
      Replaced(s, r, a, b, d, file) || (b == Some(a) && Grown(s, r))
    }

    /** `replace_both`: one after the other when generations are held, otherwise together. */
    method ReplaceBoth(files: Files)
      returns (error: Option<DaemonError>, collected: bool, ghost middle: (TableState, Option<ActiveGenerations>))
      requires Valid() && backend.Named()
      modifies this`active, backend, backend.kernel`table, backend.kernel`refused
      ensures Valid() && backend.Named()
      ensures old(backend.nextGeneration) <= backend.nextGeneration
      ensures old(backend.nextGeneration) < MAX - 1 ==> backend.nextGeneration <= old(backend.nextGeneration) + 2
      ensures old(Tallied()) ==> Tallied()
      // The first load is all or nothing for both directions.
      ensures old(active).None? && error.Some? ==> active.None? && Grown(old(Table()), Table())
      ensures old(active).None? && error.None? ==>
        && active.Some? && old(Marked()) && Undisturbed() && Marked()
        && Holding(Table().table, active.value, files) && KeepsForeign(old(Table()).table, Table().table)
      ensures old(active).None? && error.Some? && backend.kernel.reliable ==> Table() == old(Table())
      // Later on it is all or nothing for each direction.
      ensures old(active).Some? ==>
        && active.Some? && middle.1.Some?
        && Turn(old(Table()), middle.0, old(active).value, middle.1, Inbound, files.inbound)
        && Turn(middle.0, Table(), middle.1.value, active, Outbound, files.outbound)
      // With a reliable kernel the files decide: each usable one replaces its direction, up to the first unusable one.
      ensures old(Able()) && Uses(Inbound) && Usable(files.inbound) ==>
        Replaced(old(Table()), middle.0, old(active).value, middle.1, Inbound, files.inbound)
      ensures old(Able()) && (Uses(Inbound) ==> Usable(files.inbound)) && Uses(Outbound) && Usable(files.outbound) ==>
        Replaced(middle.0, Table(), middle.1.value, active, Outbound, files.outbound)
      ensures old(Able()) && !AllUsable(files) ==> error.Some? && Table() == middle.0 && active == middle.1
      ensures old(Able()) && Uses(Inbound) && !Usable(files.inbound) ==>
        Table() == old(Table()) && active == old(active)
      // So it is joint all or nothing exactly when a usable inbound file comes with a usable outbound one.
      ensures old(Able()) && Uses(Inbound) && Uses(Outbound) ==>
        ((error.Some? ==> Table() == old(Table()) && active == old(active))
         <==> (Usable(files.inbound) ==> Usable(files.outbound)))
      ensures error.None? ==>
        && HealthOf(Table(), backend.kernel.countsReported, active.value) == Healthy
        && Holding(Table().table, active.value, files)
      ensures collected && (old(active).None? || old(Undisturbed())) ==>
        active.Some? && Collected(Table().table, active.value)
      ensures backend.kernel.reliable && error.None? && rules != [] && (old(active).None? || old(Undisturbed())) ==>
        collected
      ensures old(Undisturbed()) && old(Table()).Present? ==>
        Undisturbed() && backend.kernel.refused == old(backend.kernel.refused)
      ensures (backend.kernel.reliable && old(Marked()) && AllUsable(files)
               && old(backend.nextGeneration) < MAX - 1) ==> error.None?
    {
      hide Intact, Grown, Fresh, Numbered, Canonical, Render, HealthOf, IsGeneration, Replaced, Holding, Carries;
      error, collected, middle := None, false, (Table(), active);
      if active.None? {
        error, collected := ReplaceInitial(files);
        if error.None? {
          HoldingIsHealthy(Table().table, active.value, files);
        } else {
          StillLinked(old(Table()), Table(), None);
        }
        return;
      }
      GrownReflexive(Table());
      SomeUse();
      if Uses(Inbound) {
        error, collected := ReloadHeld(Inbound, files.inbound);
        middle := (Table(), active);
        GrownReflexive(Table());
        if error.Some? {
          return;
        }
        ReplacedMarked(old(Table()), Table(), old(active).value, active, Inbound, files.inbound);
        ReplacedDiffers(old(Table()), Table(), old(active).value, active, Inbound, files.inbound);
      }
      if Uses(Outbound) {
        error, collected := ReloadHeld(Outbound, files.outbound);
        if error.Some? {
          return;
        }
        ReplacedMarked(middle.0, Table(), middle.1.value, active, Outbound, files.outbound);
        ReplacedDiffers(middle.0, Table(), middle.1.value, active, Outbound, files.outbound);
      }
      if Marked() {
        BothReplaced(old(Table()), middle.0, Table(), old(active).value, middle.1.value, active.value, files);
        HoldingIsHealthy(Table().table, active.value, files);
      }
      HealthyIsMarked(Table(), active.value);
      error := VerifyCandidate(active.value, None);
    }

    lemma SomeUse()
      ensures rules != [] ==> Uses(Inbound) || Uses(Outbound)
    {
      assert rules != [] ==> rules[0] in rules;
    }

    lemma GrownReflexive(s: TableState)
      ensures Grown(s, s)
    {
    }

    lemma ReplacedDiffers(s: TableState, r: TableState, a: ActiveGenerations, b: Option<ActiveGenerations>,
                          d: Direction, file: Option<seq<Line>>)
      requires Replaced(s, r, a, b, d, file)
      ensures r != s && Usable(file)
    {
    }

    lemma ReplacedMarked(s: TableState, r: TableState, a: ActiveGenerations, b: Option<ActiveGenerations>,
                         d: Direction, file: Option<seq<Line>>)
      requires Replaced(s, r, a, b, d, file)
      ensures r.Present? && LAYOUT_MARKER in r.table.sets && b.Some? && b.value.Get(d).Some?
    {
    }

    lemma BothReplaced(s: TableState, m: TableState, r: TableState, a: ActiveGenerations, am: ActiveGenerations,
                       b: ActiveGenerations, files: Files)
      requires if Uses(Inbound) then Replaced(s, m, a, Some(am), Inbound, files.inbound) else m == s && am == a
      requires if Uses(Outbound) then Replaced(m, r, am, Some(b), Outbound, files.outbound) else r == m && b == am
      requires r.Present?
      ensures Holding(r.table, b, files)
    {
      hide Carries, Canonical, IsGeneration;
      if Uses(Inbound) {
        var g := am.inbound.value;
        assert b.inbound == am.inbound && am.Get(Inbound) == am.inbound;
        if Uses(Outbound) {
          assert g.ipv4Set in b.Keep() && g.ipv6Set in b.Keep();
          CarriesRetained(m.table, r.table, g, files.inbound.value);
        }
      }
      assert files.Of(Inbound) == files.inbound && files.Of(Outbound) == files.outbound;
      assert b.Get(Inbound) == b.inbound && b.Get(Outbound) == b.outbound;
    }

    lemma HoldingIsHealthy(t: Table, a: ActiveGenerations, files: Files)
      requires Holding(t, a, files) && LAYOUT_MARKER in t.sets
      requires forall d :: a.Get(d).Some? <==> Uses(d)
      ensures HealthOf(Present(t), backend.kernel.countsReported, a) == Healthy
    {
      hide Carries, Canonical, Damaged;
      forall d
        ensures !Damaged(t, backend.kernel.countsReported, a.Get(d))
      {
        if Uses(d) {
          CarriedIsHealthy(t, backend.kernel.countsReported, a.Get(d).value, files.Of(d).value);
        } else {
          UnusedIsHealthy(t, backend.kernel.countsReported);
        }
      }
      assert a.Get(Inbound) == a.inbound && a.Get(Outbound) == a.outbound;
    }

    /** `reload_nft_for` */
    method ReloadNftFor(d: Direction, files: Files) returns (error: Option<DaemonError>, collected: bool)
      requires Valid() && backend.Named()
      modifies this`active, backend, backend.kernel`table, backend.kernel`refused
      ensures Valid() && backend.Named()
      ensures old(backend.nextGeneration) <= backend.nextGeneration
      ensures old(backend.nextGeneration) < MAX - 1 ==> backend.nextGeneration <= old(backend.nextGeneration) + 2
      ensures old(Tallied()) ==> Tallied()
      ensures !Uses(d) ==> error == Some(NotConfigured) && active == old(active) && Table() == old(Table())
      // Failure isolation: a failed reload leaves the chains and `active` as they were ...
      ensures old(active).Some? && error.Some? ==> active == old(active) && Grown(old(Table()), Table())
      // ... and a successful one changes direction `d` only, to exactly the file.
      ensures old(active).Some? && error.None? ==>
        Replaced(old(Table()), Table(), old(active).value, active, d, files.Of(d))
      ensures old(active).None? && error.Some? ==> active.None? && Grown(old(Table()), Table())
      ensures old(active).None? && error.None? ==>
        active.Some? && Undisturbed() && Marked() && Holding(Table().table, active.value, files)
      ensures error.Some? && old(active).Some? && backend.kernel.reliable ==> Table() == old(Table())
      ensures old(Undisturbed()) && old(Table()).Present? ==>
        Undisturbed() && backend.kernel.refused == old(backend.kernel.refused)
      ensures collected && (old(active).None? || old(Undisturbed())) ==>
        active.Some? && Collected(Table().table, active.value)
      ensures backend.kernel.reliable && error.None? && (old(active).None? || old(Undisturbed())) ==> collected
      ensures (backend.kernel.reliable && old(active).None? && old(Marked()) && Uses(d) && AllUsable(files)
               && old(backend.nextGeneration) < MAX - 1) ==> error.None?
      // Damage elsewhere does not stand in the way.
      ensures (backend.kernel.reliable && old(active).Some? && old(Marked()) && Uses(d) && Usable(files.Of(d))
               && old(backend.nextGeneration) < MAX) ==> error.None?
    {
      hide Intact, Grown, Fresh, Numbered, Canonical, Render, HealthOf, IsGeneration, Replaced, Holding,
        Configured, Carries, Linked;
      if !Uses(d) {
        GrownReflexive(Table());
        return Some(NotConfigured), false;
      }
      if active.None? {
        ghost var middle;
        error, collected, middle := ReplaceBoth(files);
        return;
      }
      error, collected := ReloadHeld(d, files.Of(d));
    }

    /** What a pass that nothing but the files can stop does about each kind of damage. */
    ghost predicate Repaired(health: Health, s: TableState, r: TableState, a: ActiveGenerations,
                             b: Option<ActiveGenerations>, files: Files, ok: bool) {
      match health
      case Healthy => ok && b == Some(a) && s.Present? && r == Present(s.table.(chains := Render(rules, a)))
      case InboundDamaged => OneRepaired(s, r, a, b, Inbound, files.inbound, ok)
      case OutboundDamaged => OneRepaired(s, r, a, b, Outbound, files.outbound, ok)
      case LayoutDamaged =>
        if !Usable(files.inbound) then !ok && r == s && b == Some(a)
        else if !Usable(files.outbound) then !ok && Replaced(s, r, a, b, Inbound, files.inbound)
        else ok && r.Present? && b.Some? && Holding(r.table, b.value, files)
    }

    /** One direction is replaced by its file if that can be used, whatever the file of the other one. */
    ghost predicate OneRepaired(s: TableState, r: TableState, a: ActiveGenerations, b: Option<ActiveGenerations>,
                                d: Direction, file: Option<seq<Line>>, ok: bool) {
      if Usable(file) then ok && Replaced(s, r, a, b, d, file) else !ok && r == s && b == Some(a)
    }

    /** What a pass may change at most, whatever fails. */
    ghost predicate Touched(health: Health, s: TableState, r: TableState, a: ActiveGenerations,
                            b: Option<ActiveGenerations>, files: Files) {
      match health
      case Healthy =>
        b == Some(a) && (r == s || (s.Present? && r == Present(s.table.(chains := Render(rules, a)))))
      case InboundDamaged => Turn(s, r, a, b, Inbound, files.inbound)
      case OutboundDamaged => Turn(s, r, a, b, Outbound, files.outbound)
      case LayoutDamaged =>
        exists m, am :: Turn(s, m, a, Some(am), Inbound, files.inbound) && Turn(m, r, am, b, Outbound, files.outbound)
    }

    lemma Untouched(health: Health, s: TableState, a: ActiveGenerations, files: Files)
      ensures Touched(health, s, s, a, Some(a), files)
    {
      hide Grown, Replaced;
      GrownReflexive(s);
      assert Turn(s, s, a, Some(a), Inbound, files.inbound) && Turn(s, s, a, Some(a), Outbound, files.outbound);
    }

    /** `reconcile_nft` */
    method ReconcileNft(files: Files) returns (error: Option<DaemonError>)
      requires Valid() && (active.None? ==> backend.Named())
      modifies this`active, backend, backend.kernel`table, backend.kernel`refused
      ensures Valid() && (active.None? || old(backend.Named()) ==> backend.Named())
      ensures old(backend.nextGeneration) <= backend.nextGeneration
      ensures old(Tallied()) && old(backend.nextGeneration) < MAX - 1 ==>
        Tallied() && backend.nextGeneration <= old(backend.nextGeneration) + 2
      ensures old(Undisturbed()) && old(Table()).Present? ==>
        Undisturbed() && backend.kernel.refused == old(backend.kernel.refused)
      ensures old(active).Some? && old(Table()).Present? ==> active.Some?
      // A table that lost its marker is left alone.
      ensures old(active).Some? && old(Table()).Present? && !old(Marked()) ==>
        error.Some? && active == old(active) && Table() == old(Table())
      // One undisturbed pass mends the sets of every table that it can recover ...
      ensures backend.kernel.reliable && old(Recoverable()) && AllUsable(files) && old(Roomy()) ==>
        && error.None? && active.Some? && Marked()
        && HealthOf(Table(), backend.kernel.countsReported, active.value) == Healthy
      // ... and of no other, whatever the kernel and the files.
      ensures !old(Recoverable()) ==> error.Some? && active == old(active) && Grown(old(Table()), Table())
      ensures !old(Recoverable()) && backend.kernel.reliable ==> Table() == old(Table())
      // With the marker there, damage and files decide what happens, and nothing else is touched, whatever fails.
      ensures old(Able()) && old(Roomy()) ==>
        Repaired(old(HealthOf(Table(), backend.kernel.countsReported, active.value)), old(Table()), Table(),
                 old(active).value, active, files, error.None?)
      ensures old(active).Some? && old(Marked()) ==>
        Touched(old(HealthOf(Table(), backend.kernel.countsReported, active.value)), old(Table()), Table(),
                old(active).value, active, files)
      // A rebuild that fails forgets the generations, though the table is there again.
      ensures old(active).Some? && old(Table()).Absent? && backend.kernel.reliable && error.Some? ==>
        active.None? && Marked()
      ensures old(active).Some? && old(Table()).Absent? && error.None? ==> AllUsable(files)
      // A pass over healthy sets mends the chains, and never touches the sets.
      ensures old(active).Some? && old(HealthOf(Table(), backend.kernel.countsReported, active.value)) == Healthy ==>
        && active == old(active)
        && (backend.kernel.reliable ==> error.None?)
        && Table() ==
           if error.None? then Present(old(Table()).table.(chains := Render(rules, active.value))) else old(Table())
    {
      hide Intact, Grown, Fresh, Numbered, Canonical, Render, HealthOf, IsGeneration, Replaced, Holding, Carries,
        Repaired, Touched;
      GrownReflexive(Table());
      if active.None? {
        var collected;
        ghost var middle;
        error, collected, middle := ReplaceBoth(files);
        if error.None? {
          HealthyIsMarked(Table(), active.value);
        }
        return;
      }
      ghost var s, a := Table(), active.value;
      HealthyIsMarked(s, a);
      Untouched(HealthOf(s, backend.kernel.countsReported, a), s, a, files);
      var status := backend.GetLayoutStatus();
      if old(Tallied()) {
        StillTallied(Names(s), old(backend.nextGeneration), backend.nextGeneration);
      }
      if old(Roomy()) {
        RoomLeft(Names(s), old(backend.nextGeneration), backend.nextGeneration);
      }
      if status.Err? {
        return Some(Failed(status.error));
      }
      match status.value
      case NoTable =>
        var collected;
        error, collected := Rebuild(files);
        if error.None? {
          HoldingIsUsable(Table().table, active.value, files);
        }
      case Incompatible =>
        error := Some(UnsupportedLayout);
      case Current =>
        error := Mend(files);
    }

    lemma StillTallied(names: set<string>, before: u64, after: u64)
      requires Numbered(names, before as nat) && (after == before || Observed(names, before, after))
      ensures after == before
    {
      if after != before {
        ObservedBelow(names, before, after, before as nat);
      }
    }

    lemma NothingIntact()
      ensures Intact(Absent)
    {
    }

    lemma HoldingIsUsable(t: Table, a: ActiveGenerations, files: Files)
      requires Holding(t, a, files)
      ensures AllUsable(files)
    {
    }

    /** `reconcile_nft` for a table that has gone: bootstrap it and load as at startup. */
    method Rebuild(files: Files) returns (error: Option<DaemonError>, collected: bool)
      requires Valid() && backend.Named() && Table().Absent?
      modifies this`active, backend, backend.kernel`table, backend.kernel`refused
      ensures Valid() && backend.Named()
      ensures old(backend.nextGeneration) <= backend.nextGeneration
      ensures old(backend.nextGeneration) < MAX - 1 ==> backend.nextGeneration <= old(backend.nextGeneration) + 2
      ensures old(Tallied()) ==> Tallied()
      ensures error.None? ==> active.Some? && Undisturbed() && Marked() && Holding(Table().table, active.value, files)
                              && HealthOf(Table(), backend.kernel.countsReported, active.value) == Healthy
      ensures error.Some? ==> active.None? || active == old(active)
      ensures error.Some? && backend.kernel.reliable ==> active.None? && Marked()
      ensures collected ==> active.Some? && Marked() && Collected(Table().table, active.value)
      ensures backend.kernel.reliable && error.None? && rules != [] ==> collected
      ensures active.None? ==> Undisturbed()
      ensures backend.kernel.refused == old(backend.kernel.refused)
      ensures backend.kernel.reliable && AllUsable(files) && old(backend.nextGeneration) < MAX - 1 ==> error.None?
    {
      hide Intact, Grown, Fresh, Numbered, Canonical, Render, HealthOf, IsGeneration, Replaced, Holding, Carries;
      var ok := backend.Bootstrap(rules);
      if !ok {
        return Some(Failed(Netlink)), false;
      }
      MarkerIsUnnumbered();
      assert Names(Table()) == {LAYOUT_MARKER};
      NumberedSubset({LAYOUT_MARKER}, {LAYOUT_MARKER}, 0, backend.nextGeneration as nat);
      active := None;
      ghost var middle;
      error, collected, middle := ReplaceBoth(files);
    }

    /** `reconcile_nft` for a table with its marker. */
    method Mend(files: Files) returns (error: Option<DaemonError>)
      requires Valid() && backend.Named() && active.Some? && Marked()
      modifies this`active, backend, backend.kernel`table, backend.kernel`refused
      ensures Valid() && backend.Named()
      ensures old(backend.nextGeneration) <= backend.nextGeneration
      ensures old(backend.nextGeneration) < MAX - 1 ==> backend.nextGeneration <= old(backend.nextGeneration) + 2
      ensures old(Tallied()) ==> Tallied()
      ensures old(Undisturbed()) ==> Undisturbed() && backend.kernel.refused == old(backend.kernel.refused)
      ensures active.Some?
      // The damage and the files it needs decide what happens ...
      ensures old(Able()) ==>
        Repaired(old(HealthOf(Table(), backend.kernel.countsReported, active.value)), old(Table()), Table(),
                 old(active).value, active, files, error.None?)
      // ... and nothing else is touched, whatever fails.
      ensures Touched(old(HealthOf(Table(), backend.kernel.countsReported, active.value)), old(Table()), Table(),
                      old(active).value, active, files)
      ensures backend.kernel.reliable && AllUsable(files) && old(backend.nextGeneration) < MAX - 1 ==>
        error.None? && Marked() && HealthOf(Table(), backend.kernel.countsReported, active.value) == Healthy
      ensures old(HealthOf(Table(), backend.kernel.countsReported, active.value)) == Healthy ==>
        && active == old(active)
        && (backend.kernel.reliable ==> error.None?)
        && Table() ==
           if error.None? then Present(old(Table()).table.(chains := Render(rules, active.value))) else old(Table())
    {
      hide Intact, Grown, Fresh, Numbered, Canonical, Render, HealthOf, IsGeneration, Replaced, Holding, Carries;
      ghost var s, a := Table(), active.value;
      ghost var before := HealthOf(s, backend.kernel.countsReported, a);
      Untouched(before, s, a, files);
      var collected;
      var health := backend.GetHealth(active.value);
      if health.Err? {
        return Some(Failed(health.error));
      }
      DamagedInUse(s, a);
      match health.value
      case Healthy =>
        HealthyHasActive(s, a);
        var ok := backend.ReplaceRules(rules, active.value);
        SameHealth(s, Table(), a);
        error := if ok then None else Some(Failed(Netlink));
      case InboundDamaged =>
        error, collected := ReloadNftFor(Inbound, files);
        if error.None? {
          ReplacedMarked(s, Table(), a, active, Inbound, files.inbound);
          ReplacedDiffers(s, Table(), a, active, Inbound, files.inbound);
          OtherStaysHealthy(s, Table(), a, active, Inbound, files.inbound);
        }
      case OutboundDamaged =>
        error, collected := ReloadNftFor(Outbound, files);
        if error.None? {
          ReplacedMarked(s, Table(), a, active, Outbound, files.outbound);
          ReplacedDiffers(s, Table(), a, active, Outbound, files.outbound);
          OtherStaysHealthy(s, Table(), a, active, Outbound, files.outbound);
        }
      case LayoutDamaged =>
        ghost var middle;
        error, collected, middle := ReplaceBoth(files);
        HealthyIsMarked(Table(), active.value);
    }

    lemma HealthyIsMarked(s: TableState, a: ActiveGenerations)
      ensures HealthOf(s, backend.kernel.countsReported, a) == Healthy ==> s.Present? && LAYOUT_MARKER in s.table.sets
    {
    }

    lemma RoomLeft(names: set<string>, before: u64, after: u64)
      requires after == before || Observed(names, before, after)
      requires before < MAX - 1 && forall n <- names :: Generation(n).Some? ==> Generation(n).value < MAX - 2
      ensures after < MAX - 1
    {
    }

    lemma HealthyHasActive(s: TableState, a: ActiveGenerations)
      requires HealthOf(s, backend.kernel.countsReported, a) == Healthy
      ensures s.Present? && HasActive(s.table, a)
    {
      hide Damaged;
      HealthyIsMarked(s, a);
      if a.inbound.Some? { UndamagedHasSets(s.table, backend.kernel.countsReported, a.inbound.value); }
      if a.outbound.Some? { UndamagedHasSets(s.table, backend.kernel.countsReported, a.outbound.value); }
    }

    /** Chains have no part in health. */
    lemma SameHealth(s: TableState, r: TableState, a: ActiveGenerations)
      requires s.Present? && r.Present? && s.table.sets == r.table.sets
      ensures HealthOf(s, backend.kernel.countsReported, a) == HealthOf(r, backend.kernel.countsReported, a)
    {
      hide StartCount;
      forall d
        ensures Damaged(s.table, backend.kernel.countsReported, a.Get(d)) ==
          Damaged(r.table, backend.kernel.countsReported, a.Get(d))
      {
        forall g: DirectionGeneration, f
          ensures SetDamaged(s.table, backend.kernel.countsReported, g.Set(f), g.Intervals(f))
               == SetDamaged(r.table, backend.kernel.countsReported, g.Set(f), g.Intervals(f))
        {
        }
      }
      assert a.Get(Inbound) == a.inbound && a.Get(Outbound) == a.outbound;
    }

    lemma DamagedInUse(s: TableState, a: ActiveGenerations)
      requires Configured(a)
      ensures HealthOf(s, backend.kernel.countsReported, a) == InboundDamaged ==> Uses(Inbound)
      ensures HealthOf(s, backend.kernel.countsReported, a) == OutboundDamaged ==> Uses(Outbound)
      ensures HealthOf(s, backend.kernel.countsReported, a) == LayoutDamaged && LAYOUT_MARKER in Names(s) ==>
        Uses(Inbound) && Uses(Outbound)
    {
      assert a.Get(Inbound) == a.inbound && a.Get(Outbound) == a.outbound;
    }

    /** Replacing the only damaged direction leaves everything healthy. */
    lemma OtherStaysHealthy(s: TableState, r: TableState, a: ActiveGenerations, b: Option<ActiveGenerations>,
                            d: Direction, file: Option<seq<Line>>)
      requires Acceptable(HealthOf(s, backend.kernel.countsReported, a),
        Some(if d == Inbound then Outbound else Inbound))
      ensures Replaced(s, r, a, b, d, file) ==> HealthOf(r, backend.kernel.countsReported, b.value) == Healthy
    {
      hide Damaged, Carries, Canonical, IsGeneration;
      if Replaced(s, r, a, b, d, file) {
        var e := if d == Inbound then Outbound else Inbound;
        CarriedIsHealthy(r.table, backend.kernel.countsReported, b.value.Get(d).value, file.value);
        assert b.value.Get(e) == a.Get(e);
        assert a.Get(Inbound) == a.inbound && a.Get(Outbound) == a.outbound;
        assert b.value.Get(Inbound) == b.value.inbound && b.value.Get(Outbound) == b.value.outbound;
        if a.Get(e).Some? {
          var h := a.Get(e).value;
          assert h.ipv4Set in b.value.Keep() && h.ipv6Set in b.value.Keep();
        }
        DamageRetained(s.table, r.table, backend.kernel.countsReported, a.Get(e));
      }
    }

    /** The nftables part of `initial_load`. */
    method InitialLoad(files: Files, ghost bound: nat) returns (error: Option<DaemonError>, collected: bool)
      requires Valid() && active.None?
      modifies this`active, backend, backend.kernel`table, backend.kernel`refused
      ensures Valid()
      ensures (old(backend.nextGeneration) as nat <= bound && old(Numbered(Names(Table()), bound))
               && bound + 2 < MAX as nat) ==>
        && backend.nextGeneration as nat <= bound + 2 && Numbered(Names(Table()), bound + 2)
        && (error.None? && rules != [] ==> Tallied())
      ensures rules == [] ==> error.None? && active.None? && Table() == old(Table())
      ensures error.None? && rules != [] ==>
        && active.Some? && backend.Named() && Undisturbed() && Marked()
        && Holding(Table().table, active.value, files)
        && HealthOf(Table(), backend.kernel.countsReported, active.value) == Healthy
      ensures collected ==> active.Some? && Marked() && Collected(Table().table, active.value)
      ensures backend.kernel.reliable && error.None? && rules != [] ==> collected
      ensures rules != [] && old(Table()).Absent? && backend.kernel.reliable ==> Marked()
      // Until then the chains of an earlier process stay in force.
      ensures error.Some? ==> active.None?
      ensures error.Some? && old(Table()).Present? ==> Grown(old(Table()), Table())
      ensures rules != [] && old(Table()).Present? && !old(Marked()) ==> error.Some? && Table() == old(Table())
      ensures old(Undisturbed()) ==> Undisturbed() && backend.kernel.refused == old(backend.kernel.refused)
      ensures (backend.kernel.reliable && (old(Table()).Absent? || old(Marked())) && AllUsable(files)
               && old(Roomy())) ==> error.None?
    {
      hide Intact, Grown, Fresh, Numbered, Canonical, Render, HealthOf, IsGeneration, Replaced, Holding, Carries;
      error, collected := None, false;
      NumberedSubset(Names(Table()), Names(Table()), bound, bound + 2);
      if rules == [] {
        return;
      }
      GrownReflexive(Table());
      var status := backend.GetLayoutStatus();
      ghost var low := old(backend.nextGeneration) as nat <= bound && Numbered(Names(Table()), bound)
        && bound + 2 < MAX as nat;
      if low {
        Bounded(Table(), old(backend.nextGeneration), backend.nextGeneration, bound);
      }
      if old(Roomy()) {
        RoomLeft(Names(Table()), old(backend.nextGeneration), backend.nextGeneration);
      }
      if status.Err? {
        return Some(Failed(status.error)), false;
      }
      match status.value {
        case NoTable =>
          error, collected := Rebuild(files);
        case Incompatible =>
          error := Some(UnsupportedLayout);
        case Current =>
          ghost var middle;
          error, collected, middle := ReplaceBoth(files);
      }
      if low {
        NumberedSubset(Names(Table()), Names(Table()), backend.nextGeneration as nat, bound + 2);
      }
    }

    lemma Bounded(s: TableState, before: u64, after: u64, bound: nat)
      requires before as nat <= bound < MAX as nat && Numbered(Names(s), bound)
      requires after == before || Observed(Names(s), before, after)
      ensures after as nat <= bound
      ensures s.Absent? || Observed(Names(s), before, after) ==> Numbered(Names(s), after as nat)
    {
      hide Generation;
      if Observed(Names(s), before, after) {
        ObservedBelow(Names(s), before, after, bound);
      }
    }

    // --- Verdicts --------------------------------------------------------------------------------

    /** After a successful reload the direction drops exactly the addresses its file lists. */
    lemma ReplacedDrops(s: TableState, r: TableState, a: ActiveGenerations, b: Option<ActiveGenerations>, d: Direction,
                        file: Option<seq<Line>>, f: Family, source: nat, destination: nat)
      requires Replaced(s, r, a, b, d, file)
      requires source < f.Size() && destination < f.Size()
      ensures Drops(r.table, d, f, source, destination) <==>
        Listed(file.value, f, if d.Inbound? then source else destination)
    {
      hide Carries, Drops, Canonical, Listed;
      DispatchMeaning(r.table, d, b.value.Get(d).value, file.value, f, source, destination);
    }

    /** The verdicts of the other direction do not change, damaged or not. */
    lemma ReplacedElsewhere(s: TableState, r: TableState, a: ActiveGenerations, b: Option<ActiveGenerations>,
                            d: Direction, file: Option<seq<Line>>, e: Direction,
                            f: Family, source: nat, destination: nat)
      requires Replaced(s, r, a, b, d, file) && Intact(s) && Intact(r) && e != d
      ensures Drops(r.table, e, f, source, destination) <==> Drops(s.table, e, f, source, destination)
    {
      hide Carries, Canonical, Matches;
      assert RulesOf(r.table, Dispatch(e)) == RulesOf(s.table, Dispatch(e));
      forall rule | rule in RulesOf(s.table, Dispatch(e)) && rule.DropListed?
        ensures rule.set_ in s.table.sets && rule.set_ in r.table.sets
        ensures s.table.sets[rule.set_] == r.table.sets[rule.set_]
      {
        assert Resolves(s.table, rule) && Resolves(r.table, rule);
      }
    }

    /** The packet meets a rendered rule whose list holds the address that the rule compares. */
    ghost predicate RuleHit(r: RenderedRule, files: Files, c: Chain, ingress: Option<string>, egress: Option<string>,
                            f: Family, source: nat, destination: nat) {
      && r.chain == c && OnInterface(r.ingress, ingress) && OnInterface(r.egress, egress)
      && files.Of(r.direction).Some?
      && Listed(files.Of(r.direction).value, f, if r.direction.Inbound? then source else destination)
    }

    /** From configured rule to packet: a base chain drops a packet exactly when a rule hits it. */
    lemma RuleVerdict(t: Table, a: ActiveGenerations, files: Files, c: BaseChain, ingress: Option<string>,
                      egress: Option<string>, f: Family, source: nat, destination: nat)
      requires Holding(t, a, files) && t.chains == Render(rules, a)
      requires source < f.Size() && destination < f.Size()
      ensures Filters(t, c, ingress, egress, f, source, destination)
         <==> exists r <- rules :: RuleHit(r, files, c, ingress, egress, f, source, destination)
    {
      hide Listed, Drops, BaseRules, Canonical, Carries;
      EveryChain(c);
      var chain := RulesOf(t, c);
      assert chain == BaseRules(rules, c);
      forall r | r in rules
        ensures Drops(t, r.direction, f, source, destination)
           <==> Listed(files.Of(r.direction).value, f, if r.direction.Inbound? then source else destination)
      {
        HoldingDrops(t, a, files, r.direction, f, source, destination);
      }
      forall r | r in rules && r.chain == c
        ensures JumpOf(r) in chain
      {
        BaseRulesMembers(rules, c, JumpOf(r));
      }
      forall j | j in chain
        ensures exists r <- rules :: r.chain == c && JumpOf(r) == j
      {
        BaseRulesMembers(rules, c, j);
      }
    }

    lemma GrownHolds(s: TableState, r: TableState, a: ActiveGenerations, files: Files)
      requires Grown(s, r) && s.Present? && Holding(s.table, a, files)
      ensures Holding(r.table, a, files)
    {
      hide Carries, Canonical, IsGeneration;
      forall d | Uses(d)
        ensures Carries(r.table, a.Get(d).value, files.Of(d).value)
      {
        CarriesSets(s.table, a.Get(d).value, files.Of(d).value);
        CarriesRetained(s.table, r.table, a.Get(d).value, files.Of(d).value);
      }
    }

    lemma CarriesSets(t: Table, g: DirectionGeneration, lines: seq<Line>)
      requires Carries(t, g, lines)
      ensures HasSets(t, g)
    {
    }

    /** A reload of one direction changes its list and keeps the other one. */
    lemma ReplacedHolds(s: TableState, r: TableState, a: ActiveGenerations, b: Option<ActiveGenerations>, d: Direction,
                        file: Option<seq<Line>>, lists: Files)
      requires Replaced(s, r, a, b, d, file) && Holding(s.table, a, lists)
      ensures Holding(r.table, b.value, lists.With(d, file))
    {
      hide Carries, Canonical, IsGeneration;
      var more := b.value;
      forall e | Uses(e) && e != d
        ensures more.Get(e) == a.Get(e) && Carries(r.table, a.Get(e).value, lists.Of(e).value)
      {
        var h := a.Get(e).value;
        assert more.Get(e) == a.Get(e);
        assert h.ipv4Set in more.Keep() && h.ipv6Set in more.Keep();
        CarriesSets(s.table, h, lists.Of(e).value);
        CarriesRetained(s.table, r.table, h, lists.Of(e).value);
      }
    }

    /** While the chains are those of `active`, a direction drops exactly the addresses its file lists. */
    lemma HoldingDrops(t: Table, a: ActiveGenerations, files: Files, d: Direction, f: Family, source: nat,
                       destination: nat)
      requires Holding(t, a, files) && t.chains == Render(rules, a) && Uses(d)
      requires source < f.Size() && destination < f.Size()
      ensures Drops(t, d, f, source, destination) <==>
        Listed(files.Of(d).value, f, if d.Inbound? then source else destination)
    {
      hide Carries, Drops, Canonical, Listed;
      EveryChain(Dispatch(d));
      DispatchMeaning(t, d, a.Get(d).value, files.Of(d).value, f, source, destination);
    }
  }

  // --- Runs --------------------------------------------------------------------------------------

  datatype Event =
    | Start(rules: seq<RenderedRule>, populateBatch: nat, files: Files)
    | Reload(direction: Direction, files: Files)
    | Reconcile(files: Files)

  /** How an event ended, and whether its cleanup of obsolete generations succeeded. */
  datatype Report = Report(ok: bool, collected: bool)

  /** The lists in force after the events; None while no process holds any. */
  function LastLists(events: seq<Event>, reports: seq<Report>): Option<Files>
    requires |reports| == |events|
  {
    if events == [] then
      None
    else
      var n := |events| - 1;
      NextLists(events[n], reports[n], LastLists(events[..n], reports[..n]))
  }

  function NextLists(event: Event, report: Report, before: Option<Files>): Option<Files> {
    match event
    case Start(rules, _, files) => if report.ok && rules != [] then Some(files) else None
    case Reload(d, files) => if report.ok && before.Some? then Some(before.value.With(d, files.Of(d))) else before
    case Reconcile(_) => before
  }

  /** The last event that staged anything ended with a successful cleanup. */
  predicate Swept(events: seq<Event>, reports: seq<Report>)
    requires |reports| == |events|
  {
    events != [] &&
    var n := |events| - 1;
    if events[n].Reconcile? then Swept(events[..n], reports[..n]) else reports[n].collected
  }

  lemma ReportSnoc(events: seq<Event>, reports: seq<Report>, i: nat, r: Report)
    requires |reports| == i < |events|
    ensures |reports + [r]| == |events[..i + 1]|
    ensures LastLists(events[..i + 1], reports + [r]) == NextLists(events[i], r, LastLists(events[..i], reports))
    ensures Swept(events[..i + 1], reports + [r]) ==
      if events[i].Reconcile? then Swept(events[..i], reports) else r.collected
  {
    assert events[..i + 1][..i] == events[..i] && (reports + [r])[..i] == reports;
  }

  /** What holds between two events of a run that nobody disturbs. */
  ghost predicate Running(daemon: Daemon, lists: Option<Files>)
    reads daemon, daemon.backend, daemon.backend.kernel
  {
    && daemon.Valid() && daemon.active.Some? && daemon.Undisturbed() && daemon.Marked() && daemon.backend.Named()
    && lists.Some? && daemon.Holding(daemon.Table().table, daemon.active.value, lists.value)
  }

  /** The counter keeps ahead of the names in the table, and moves by two at most. */
  ghost predicate Onward(daemon: Daemon, before: u64, tallied: bool)
    reads daemon, daemon.backend, daemon.backend.kernel
  {
    && before <= daemon.backend.nextGeneration
    && (tallied && before < MAX - 1 ==> daemon.Tallied() && daemon.backend.nextGeneration <= before + 2)
  }

  /** A reload in a run: a failed one changes no verdict, a successful one that of its direction. */
  method ReloadInRun(daemon: Daemon, d: Direction, files: Files, ghost lists: Option<Files>) returns (r: Report)
    requires Running(daemon, lists)
    modifies daemon`active, daemon.backend, daemon.backend.kernel`table, daemon.backend.kernel`refused
    ensures Running(daemon, if r.ok then Some(lists.value.With(d, files.Of(d))) else lists)
    ensures daemon.backend.kernel.refused == old(daemon.backend.kernel.refused)
    ensures r.collected ==> Collected(daemon.Table().table, daemon.active.value)
    ensures daemon.backend.kernel.reliable && r.ok ==> r.collected
    // While the counter lasts, nothing but the rules and the file can stop it when no request fails.
    ensures daemon.backend.kernel.reliable && old(daemon.backend.nextGeneration) < MAX ==>
      (r.ok <==> daemon.Uses(d) && Usable(files.Of(d)))
    ensures Onward(daemon, old(daemon.backend.nextGeneration), old(daemon.Tallied()))
  {
    hide Intact, Render, Fresh, Daemon.Holding, HealthOf, Daemon.Configured, Grown, Daemon.Replaced, Collected;
    ghost var s, a := daemon.Table(), daemon.active.value;
    var error, collected := daemon.ReloadNftFor(d, files);
    r := Report(error.None?, collected);
    if r.ok {
      daemon.ReplacedDiffers(s, daemon.Table(), a, daemon.active, d, files.Of(d));
      ReplacedHoldsIn(daemon, s, daemon.Table(), a, daemon.active, d, files.Of(d), lists.value);
    } else {
      RefusedReload(daemon, s, daemon.Table(), a, lists.value);
    }
  }

  lemma ReplacedHoldsIn(daemon: Daemon, s: TableState, r: TableState, a: ActiveGenerations,
                        b: Option<ActiveGenerations>, d: Direction, file: Option<seq<Line>>, lists: Files)
    requires daemon.Replaced(s, r, a, b, d, file) && daemon.Holding(s.table, a, lists)
    ensures r.Present? && LAYOUT_MARKER in r.table.sets && b.Some?
      && daemon.Holding(r.table, b.value, lists.With(d, file))
  {
    daemon.ReplacedMarked(s, r, a, b, d, file);
    daemon.ReplacedHolds(s, r, a, b, d, file, lists);
  }

  lemma RefusedReload(daemon: Daemon, s: TableState, r: TableState, a: ActiveGenerations, lists: Files)
    requires Grown(s, r) && s.Present? && daemon.Holding(s.table, a, lists)
    ensures r.Present? && daemon.Holding(r.table, a, lists)
  {
    daemon.GrownHolds(s, r, a, lists);
  }

  /** A reconciliation in a run finds the sets healthy and leaves them alone. */
  method ReconcileInRun(daemon: Daemon, files: Files, ghost lists: Option<Files>) returns (r: Report)
    requires Running(daemon, lists)
    modifies daemon`active, daemon.backend, daemon.backend.kernel`table, daemon.backend.kernel`refused
    ensures Running(daemon, lists)
    ensures daemon.Table().table.sets == old(daemon.Table()).table.sets && daemon.active == old(daemon.active)
    ensures daemon.backend.kernel.refused == old(daemon.backend.kernel.refused)
    ensures daemon.backend.kernel.reliable ==> r.ok
    ensures Onward(daemon, old(daemon.backend.nextGeneration), old(daemon.Tallied()))
  {
    hide Intact, Render, Fresh, Numbered, HealthOf, Carries, Canonical, Daemon.Repaired, Daemon.Touched;
    ghost var s, a := daemon.Table(), daemon.active.value;
    daemon.HoldingIsHealthy(s.table, a, lists.value);
    var error := daemon.ReconcileNft(files);
    SameSetsHold(daemon, s.table, daemon.Table().table, a, lists.value);
    r := Report(error.None?, false);
  }

  lemma SameSetsHold(daemon: Daemon, t: Table, u: Table, a: ActiveGenerations, lists: Files)
    requires daemon.Holding(t, a, lists) && u.sets == t.sets
    ensures daemon.Holding(u, a, lists)
  {
  }

  /** A process starts in place of whatever ran before; `bound` lies above every number in the table. */
  method StartInRun(kernel: Kernel, rules: seq<RenderedRule>, populateBatch: nat, files: Files, ghost bound: nat)
    returns (daemon: Daemon?, r: Report)
    requires Intact(kernel.table) && (kernel.table.Present? ==> LAYOUT_MARKER in kernel.table.table.sets)
    requires populateBatch > 0
    modifies kernel`table, kernel`refused
    ensures Intact(kernel.table) && (kernel.table.Present? ==> LAYOUT_MARKER in kernel.table.table.sets)
    ensures kernel.refused == old(kernel.refused)
    ensures daemon != null <==> r.ok && rules != []
    ensures daemon != null ==>
      && fresh(daemon) && fresh(daemon.backend) && daemon.backend.kernel == kernel && daemon.rules == rules
      && Running(daemon, Some(files))
    ensures r.collected ==> daemon != null && Collected(kernel.table.table, daemon.active.value)
    ensures r.ok ==> forall rule <- rules :: Usable(files.Of(rule.direction))
    ensures old(Numbered(Names(kernel.table), bound)) && 1 <= bound && bound + 2 < MAX as nat ==>
      && Numbered(Names(kernel.table), bound + 2)
      && (daemon != null ==> daemon.Tallied() && daemon.backend.nextGeneration as nat <= bound + 2)
      && (kernel.reliable && (forall rule <- rules :: Usable(files.Of(rule.direction))) ==>
            r.ok && (rules != [] ==> r.collected))
  {
    hide Intact, Render, Fresh, Numbered, Generation, Daemon.Holding, HealthOf, Grown, Daemon.Configured, Collected,
      Usable;
    ghost var names := Names(kernel.table);
    if Numbered(names, bound) && bound + 2 < MAX as nat {
      RoomBelow(names, bound);
    }
    var backend := new NftnlBackend(kernel);
    var next := new Daemon(backend, rules, populateBatch);
    var error, collected := next.InitialLoad(files, bound);
    daemon, r := null, Report(error.None?, collected);
    if error.None? && rules != [] {
      next.HoldingIsUsable(kernel.table.table, next.active.value, files);
      daemon := next;
    }
  }

  lemma RoomBelow(names: set<string>, bound: nat)
    requires Numbered(names, bound) && bound + 2 < MAX as nat
    ensures forall n <- names :: Generation(n).Some? ==> Generation(n).value < MAX - 2
  {
    hide Generation;
  }

  /** The rules of the process at work after the events. */
  function LastRules(events: seq<Event>, reports: seq<Report>): Option<seq<RenderedRule>>
    requires |reports| == |events|
  {
    if events == [] then
      None
    else
      var n := |events| - 1;
      NextRules(events[n], reports[n], LastRules(events[..n], reports[..n]))
  }

  function NextRules(event: Event, report: Report, before: Option<seq<RenderedRule>>): Option<seq<RenderedRule>> {
    if event.Start? then if report.ok && event.rules != [] then Some(event.rules) else None else before
  }

  /** How an event ends when no request fails, told from the event and the rules of the process at work. */
  ghost predicate Settles(event: Event, rules: Option<seq<RenderedRule>>, r: Report) {
    match event
    case Start(configured, _, files) =>
      && (r.ok <==> forall rule <- configured :: Usable(files.Of(rule.direction)))
      && (r.ok && configured != [] ==> r.collected)
    case Reload(d, files) =>
      && (r.ok <==> rules.Some? && (exists rule <- rules.value :: rule.direction == d) && Usable(files.Of(d)))
      && (r.ok ==> r.collected)
    case Reconcile(_) => r.ok <==> rules.Some?
  }

  ghost predicate Settled(events: seq<Event>, reports: seq<Report>, i: nat)
    requires i < |events| && i < |reports|
  {
    Settles(events[i], LastRules(events[..i], reports[..i]), reports[i])
  }

  lemma RulesSnoc(events: seq<Event>, reports: seq<Report>, i: nat, r: Report)
    requires |reports| == i < |events|
    ensures |reports + [r]| == |events[..i + 1]|
    ensures LastRules(events[..i + 1], reports + [r]) == NextRules(events[i], r, LastRules(events[..i], reports))
    ensures forall k :: 0 <= k < i ==> (Settled(events, reports, k) <==> Settled(events, reports + [r], k))
    ensures Settled(events, reports + [r], i) <==> Settles(events[i], LastRules(events[..i], reports), r)
  {
    hide LastRules, Settles;
    assert events[..i + 1][..i] == events[..i] && (reports + [r])[..i] == reports;
    RulesUnfold(events[..i + 1], reports + [r]);
    assert forall k :: 0 <= k < i ==> (reports + [r])[..k] == reports[..k];
  }

  lemma RulesUnfold(events: seq<Event>, reports: seq<Report>)
    requires |reports| == |events| && events != []
    ensures var n := |events| - 1;
      LastRules(events, reports) == NextRules(events[n], reports[n], LastRules(events[..n], reports[..n]))
  {
  }

  /** The numbers handed out so far, and those of the process at work. */
  ghost predicate Numbers(kernel: Kernel, daemon: Daemon?, bound: nat)
    reads kernel, daemon, if daemon == null then {} else {daemon.backend, daemon.backend.kernel}
  {
    && Numbered(Names(kernel.table), bound)
    && (daemon != null ==> daemon.Tallied() && daemon.backend.nextGeneration as nat <= bound)
  }

  /** Between two events of a run: the kernel is in order, and a process at work holds `lists`. */
  ghost predicate Standing(kernel: Kernel, daemon: Daemon?, lists: Option<Files>)
    reads kernel, daemon, if daemon == null then {} else {daemon.backend, daemon.backend.kernel}
  {
    && Intact(kernel.table) && (kernel.table.Present? ==> LAYOUT_MARKER in kernel.table.table.sets)
    && (daemon != null <==> lists.Some?)
    && (daemon != null ==> daemon.backend.kernel == kernel && Running(daemon, lists))
  }

  /** A process is at work, and its active generation sets are all there are. */
  ghost predicate Tidy(kernel: Kernel, daemon: Daemon?)
    reads kernel, daemon
  {
    daemon != null && daemon.active.Some? && kernel.table.Present? && Collected(kernel.table.table, daemon.active.value)
  }

  ghost function RulesOfProcess(daemon: Daemon?): Option<seq<RenderedRule>> {
    if daemon == null then None else Some(daemon.rules)
  }

  /** One event of a run; no request fails in it if it is `steady`. */
  method Happen(kernel: Kernel, daemon: Daemon?, event: Event, steady: bool, ghost lists: Option<Files>,
                ghost bound: nat)
    returns (next: Daemon?, r: Report)
    requires Standing(kernel, daemon, lists) && (event.Start? ==> event.populateBatch > 0)
    modifies kernel, if daemon == null then {} else {daemon, daemon.backend}
    ensures Standing(kernel, next, NextLists(event, r, lists)) && kernel.refused == old(kernel.refused)
    ensures next != null && next != daemon ==> fresh(next) && fresh(next.backend)
    ensures RulesOfProcess(next) == NextRules(event, r, RulesOfProcess(daemon))
    // A successful cleanup leaves the active generation sets only, and a reconciliation leaves them alone.
    ensures if event.Reconcile? then old(Tidy(kernel, daemon)) ==> Tidy(kernel, next)
      else r.collected ==> Tidy(kernel, next)
    ensures old(Numbers(kernel, daemon, bound)) && 1 <= bound && bound + 2 < MAX as nat ==>
      Numbers(kernel, next, bound + 2) && (steady ==> Settles(event, RulesOfProcess(daemon), r))
  {
    hide Intact, Render, Fresh, Numbered, Daemon.Holding, HealthOf, Grown, Daemon.Replaced, Daemon.Configured, Usable;
    kernel.reliable := *;
    if steady {
      kernel.reliable := true;
    }
    next, r := daemon, Report(false, false);
    NumberedSubset(Names(kernel.table), Names(kernel.table), bound, bound + 2);
    match event {
      case Start(rules, populateBatch, files) =>
        next, r := StartInRun(kernel, rules, populateBatch, files, bound);
      case Reload(d, files) =>
        if daemon != null {
          r := ReloadInRun(daemon, d, files, lists);
          NumberedSubset(Names(kernel.table), Names(kernel.table), daemon.backend.nextGeneration as nat, bound + 2);
        }
      case Reconcile(files) =>
        if daemon != null {
          r := ReconcileInRun(daemon, files, lists);
          NumberedSubset(Names(kernel.table), Names(kernel.table), daemon.backend.nextGeneration as nat, bound + 2);
        }
    }
  }

  /**
   Any run of processes over one kernel that nobody else touches, each request failing or not
   as the kernel likes. Every set a rule looks up exists, no batch is ever refused, and a
   process that holds generations has exactly their chains in place, over sets that hold
   exactly the lists last loaded; after a successful cleanup there are no other generation sets.
   When no request fails the events alone decide every outcome, as long as there are
   generation numbers left for two per event.
   */
  method Life(kernel: Kernel, events: seq<Event>, steady: bool) returns (daemon: Daemon?, reports: seq<Report>)
    requires kernel.table == Absent && kernel.refused == 0
    requires forall e <- events :: e.Start? ==> e.populateBatch > 0
    modifies kernel
    ensures Intact(kernel.table) && kernel.refused == 0 && |reports| == |events|
    ensures kernel.table.Present? ==> LAYOUT_MARKER in kernel.table.table.sets
    ensures daemon != null <==> LastLists(events, reports).Some?
    ensures daemon != null ==> daemon.backend.kernel == kernel && Running(daemon, LastLists(events, reports))
    ensures daemon != null ==> HasActive(kernel.table.table, daemon.active.value)
    ensures Swept(events, reports) ==> daemon != null && Collected(kernel.table.table, daemon.active.value)
    ensures LastRules(events, reports) == RulesOfProcess(daemon)
    ensures steady && 2 * |events| + 3 < MAX as nat ==> forall i :: 0 <= i < |events| ==> Settled(events, reports, i)
  {
    hide Standing, Running, Numbers, Tidy, LastLists, LastRules, Swept, Settled, Settles, NextRules, NextLists,
      Collected;
    daemon, reports := null, [];
    assert events[..0] == [];
    NothingHappened(kernel);
    for i := 0 to |events|
      invariant |reports| == i && kernel.refused == 0
      invariant daemon != null ==> fresh(daemon) && fresh(daemon.backend)
      invariant Standing(kernel, daemon, LastLists(events[..i], reports))
      invariant Swept(events[..i], reports) ==> Tidy(kernel, daemon)
      invariant LastRules(events[..i], reports) == RulesOfProcess(daemon)
      invariant 2 * |events| + 3 < MAX as nat ==>
        Numbers(kernel, daemon, 2 * i + 1) && (steady ==> forall k :: 0 <= k < i ==> Settled(events, reports, k))
    {
      assert events[i] in events;
      var r;
      daemon, r := Happen(kernel, daemon, events[i], steady, LastLists(events[..i], reports), 2 * i + 1);
      ReportSnoc(events, reports, i, r);
      RulesSnoc(events, reports, i, r);
      reports := reports + [r];
    }
    assert events[..|events|] == events;
    InOrder(kernel, daemon, LastLists(events, reports));
    Tidied(kernel, daemon);
  }

  lemma NothingHappened(kernel: Kernel)
    requires kernel.table == Absent
    ensures Standing(kernel, null, LastLists([], [])) && !Swept([], []) && Numbers(kernel, null, 1)
    ensures LastRules([], []) == RulesOfProcess(null)
  {
  }

  lemma Tidied(kernel: Kernel, daemon: Daemon?)
    ensures Tidy(kernel, daemon) ==>
      && daemon != null && daemon.active.Some? && kernel.table.Present?
      && Collected(kernel.table.table, daemon.active.value)
  {
  }

  lemma InOrder(kernel: Kernel, daemon: Daemon?, lists: Option<Files>)
    requires Standing(kernel, daemon, lists)
    ensures Intact(kernel.table) && (kernel.table.Present? ==> LAYOUT_MARKER in kernel.table.table.sets)
    ensures daemon != null <==> lists.Some?
    ensures daemon != null ==> daemon.backend.kernel == kernel && Running(daemon, lists)
    ensures daemon != null ==> HasActive(kernel.table.table, daemon.active.value)
  {
    hide Intact, Fresh, Daemon.Holding, Render;
    if daemon != null {
      RenderedHasActive(kernel.table.table, daemon.rules, daemon.active.value);
    }
  }

  // --- Convergence -------------------------------------------------------------------------------

  /**
   Two undisturbed passes repair any damage, whatever has happened to the sets and the rules,
   exactly when the table kept its marker or has gone while generations are held.
   */
  method Converge(daemon: Daemon, first: Files, second: Files) returns (ok: bool)
    requires daemon.Valid() && (daemon.active.None? ==> daemon.backend.Named())
    requires daemon.backend.kernel.reliable && daemon.AllUsable(first) && daemon.Roomy()
    modifies daemon`active, daemon.backend, daemon.backend.kernel`table, daemon.backend.kernel`refused
    ensures daemon.Valid() && (ok <==> old(daemon.Recoverable()))
    ensures ok ==>
      && daemon.active.Some? && daemon.Undisturbed() && daemon.Marked()
      && forall d, f | daemon.active.value.Get(d).Some? ::
           var g, sets := daemon.active.value.Get(d).value, daemon.Table().table.sets;
           && g.Set(f) in sets
           && (daemon.backend.kernel.countsReported ==> StartCount(sets[g.Set(f)].elements) == g.Intervals(f))
    ensures !ok ==> daemon.Table() == old(daemon.Table()) && daemon.active == old(daemon.active)
  {
    hide Intact, Fresh, Daemon.Configured, Daemon.AllUsable, Render, HealthOf, Grown, StartCount, Generation,
      Daemon.Repaired, Daemon.Touched;
    var _ := daemon.ReconcileNft(first);
    if daemon.active.Some? {
      daemon.HealthyIsMarked(daemon.Table(), daemon.active.value);
    }
    ghost var s, a := daemon.Table(), daemon.active;
    var error := daemon.ReconcileNft(second);
    ok := error.None?;
    if ok {
      daemon.SameHealth(s, daemon.Table(), a.value);
      daemon.HealthyIsMarked(daemon.Table(), a.value);
      HealthySets(daemon.Table(), daemon.backend.kernel.countsReported, a.value);
    }
  }

  lemma HealthySets(s: TableState, counts: bool, a: ActiveGenerations)
    requires s.Present? && LAYOUT_MARKER in s.table.sets && HealthOf(s, counts, a) == Healthy
    ensures forall d, f | a.Get(d).Some? ::
      var g, sets := a.Get(d).value, s.table.sets;
      g.Set(f) in sets && (counts ==> StartCount(sets[g.Set(f)].elements) == g.Intervals(f))
  {
    hide HealthOf, StartCount;
    forall d: Direction {
      HealthMeans(s, counts, a, d);
    }
  }

  /**
   A process can lose its way for good. The table goes while generations are held, the
   rebuild fails because a file is not usable, and the table goes again: now no generation
   is held, `reconcile_nft` neither looks for the table nor bootstraps it, and no later pass
   succeeds, with usable files and a kernel that never fails.
   */
  method LosesTableTwice(daemon: Daemon, first: Files, later: seq<Files>) returns (outcomes: seq<bool>)
    requires daemon.Valid() && daemon.active.Some? && daemon.Table().Absent?
    requires daemon.backend.kernel.reliable && !daemon.AllUsable(first)
    modifies daemon`active, daemon.backend, daemon.backend.kernel`table, daemon.backend.kernel`refused
    ensures daemon.Valid() && daemon.active.None? && daemon.Table().Absent?
    ensures |outcomes| == |later| && forall ok <- outcomes :: !ok
  {
    hide Intact, Daemon.Configured, Daemon.AllUsable, Render, HealthOf, Daemon.Repaired, Daemon.Touched;
    var _ := daemon.ReconcileNft(first);
    daemon.backend.kernel.table := Absent;
    daemon.NothingIntact();
    outcomes := [];
    for i := 0 to |later|
      invariant daemon.Valid() && daemon.backend.Named() && daemon.active.None? && daemon.Table().Absent?
      invariant |outcomes| == i && forall ok <- outcomes :: !ok
    {
      var error := daemon.ReconcileNft(later[i]);
      outcomes := outcomes + [error.None?];
    }
  }

  // --- Lost acknowledgements ---------------------------------------------------------------------

  /**
   A batch was applied and its acknowledgement lost, so the daemon was told of a failure. No
   rule looks up a missing set, and two undisturbed passes bring the chains of `active` back.
   */
  method LostAcknowledgement(daemon: Daemon, batch: seq<Op>, first: Files, second: Files) returns (ok: bool)
    requires daemon.Valid() && daemon.active.Some? && daemon.backend.kernel.reliable && daemon.AllUsable(first)
    requires var after := Commit(daemon.Table(), batch);
      && after.Some? && LAYOUT_MARKER in Names(after.value) && daemon.backend.nextGeneration < MAX - 1
      && forall n <- Names(after.value) :: Generation(n).Some? ==> Generation(n).value < MAX - 2
    modifies daemon`active, daemon.backend, daemon.backend.kernel`table, daemon.backend.kernel`refused
    ensures ok && daemon.Valid() && daemon.active.Some? && daemon.Undisturbed() && daemon.Marked()
    ensures forall d, f | daemon.active.value.Get(d).Some? ::
      var g, sets := daemon.active.value.Get(d).value, daemon.Table().table.sets;
      && g.Set(f) in sets
      && (daemon.backend.kernel.countsReported ==> StartCount(sets[g.Set(f)].elements) == g.Intervals(f))
  {
    hide Intact, Commit, Daemon.Configured, Daemon.AllUsable, Render, HealthOf, Fresh, Generation, StartCount;
    CommitKeepsIntact(daemon.Table(), batch);
    daemon.backend.kernel.table := Commit(daemon.backend.kernel.table, batch).value;
    ok := Converge(daemon, first, second);
  }

  /**
   When it was the activation of one direction that was lost, the sets of the generations the
   daemon holds are untouched, and a single pass restores the table as it was.
   */
  method LostActivation(daemon: Daemon, d: Direction, g: DirectionGeneration, files: Files, ghost lists: Option<Files>)
    returns (error: Option<DaemonError>)
    requires Running(daemon, lists) && HasSets(daemon.Table().table, g)
    modifies daemon`active, daemon.backend, daemon.backend.kernel`table, daemon.backend.kernel`refused
    ensures daemon.Valid() && daemon.active == old(daemon.active)
    ensures daemon.backend.kernel.reliable ==> error.None?
    ensures error.None? ==> Running(daemon, lists) && daemon.Table() == old(daemon.Table())
  {
    hide Intact, Commit, Render, HealthOf, Carries, Canonical, Daemon.Repaired, Daemon.Touched;
    ghost var t, a := daemon.Table().table, daemon.active.value;
    DispatchReplaced(t, d, g);
    CommitKeepsIntact(Present(t), ReplaceDispatchOps(d, g));
    daemon.HoldingIsHealthy(t, a, lists.value);
    daemon.backend.kernel.table := Commit(daemon.backend.kernel.table, ReplaceDispatchOps(d, g)).value;
    ghost var s := daemon.Table();
    daemon.SameHealth(Present(t), s, a);
    error := daemon.ReconcileNft(files);
    if error.None? {
      assert daemon.Table().table == t;
    }
  }
}
