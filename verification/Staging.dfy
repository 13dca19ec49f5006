/** What staging, activating and collecting do to the kernel table, stated on tables. */
module Staging {
  import opened Wrappers
  import opened Bits
  import opened Addresses
  import opened Blocklist
  import opened Stream
  import opened IntervalSets
  import opened GenerationNames
  import opened Netfilter
  import opened Generations
  import opened Backend

  /** The table with the sets of `g` holding the boundaries of `ivs`. */
  ghost function Filled(t: Table, g: DirectionGeneration, ivs: Chunk): Table {
    t.(sets := t.sets[g.ipv4Set := SetBody(V4, ElementSet(ivs, V4))][g.ipv6Set := SetBody(V6, ElementSet(ivs, V6))])
  }

  lemma FreshStageIsFilled(t: Table, g: DirectionGeneration)
    ensures WithStage(t, g) == Filled(t, g, [])
  {
    assert ElementSet([], V4) == {} && ElementSet([], V6) == {};
  }

  lemma {:induction false} OtherFamily(c: Chunk, f: Family, g: Family)
    requires OneFamily(c, f) && f != g
    ensures Elements(c, g) == []
  {
    if c != [] {
      OtherFamily(c[..|c| - 1], f, g);
    }
  }

  /** Populating one more single-family chunk. */
  lemma {:induction false} FilledStep(t: Table, g: DirectionGeneration, ivs: Chunk, c: Chunk)
    requires g.ipv4Set != g.ipv6Set && c != [] && OneFamily(c, c[0].family)
    ensures var f := c[0].family;
      && g.Set(f) in Filled(t, g, ivs).sets
      && WithElements(Filled(t, g, ivs), g.Set(f), f, Elements(c, f)) == Filled(t, g, ivs + c)
  {
    hide Elements;
    var f := c[0].family;
    ElementsJoin(ivs, c, V4);
    ElementsJoin(ivs, c, V6);
    OtherFamily(c, f, if f == V4 then V6 else V4);
    var x, z := Filled(t, g, ivs), Filled(t, g, ivs + c);
    assert ElementSet(ivs + c, f) == ElementSet(ivs, f) + set e <- Elements(c, f);
    assert f == V4 ==> Elements(ivs + c, V6) == Elements(ivs, V6);
    assert f == V6 ==> Elements(ivs + c, V4) == Elements(ivs, V4);
    assert x.sets[g.Set(f)].elements == ElementSet(ivs, f);
    assert WithElements(x, g.Set(f), f, Elements(c, f)).sets == z.sets;
  }

  /** The stage is a generation for the file: numbered `number`, with the file's statistics. */
  function GenerationFor(d: Direction, number: u64, lines: seq<Line>): DirectionGeneration {
    NewGeneration(d, number).ApplyStats(StatsOf(Entries(lines), SealAll(Runs(lines))))
  }

  lemma FilledCarries(t: Table, d: Direction, number: u64, lines: seq<Line>)
    ensures var g := GenerationFor(d, number, lines);
      g.ipv4Set != g.ipv6Set && Carries(Filled(t, g, SealAll(Runs(lines))), g, lines)
  {
    hide SealAll, Runs, ElementSet, Count, Boundaries, SetName;
    NamesAreDistinct(d, V4, number, d, V6, number);
    var g := GenerationFor(d, number, lines);
    assert g.Set(V4) == g.ipv4Set && g.Set(V6) == g.ipv6Set;
    assert g.ipv4Set != g.ipv6Set;
  }

  /** Discarding a stage undoes it. */
  lemma DiscardUndoes(t: Table, g: DirectionGeneration, ivs: Chunk)
    requires NotYet(t, g)
    ensures Without(Filled(t, g, ivs), {g.ipv4Set, g.ipv6Set}) == t
  {
    assert Without(Filled(t, g, ivs), {g.ipv4Set, g.ipv6Set}).sets == t.sets;
  }

  /** A stage adds names of its own number only. */
  lemma FilledNumbered(t: Table, d: Direction, number: u64, g: DirectionGeneration, ivs: Chunk)
    requires g.ipv4Set == SetName(d, V4, number) && g.ipv6Set == SetName(d, V6, number)
    requires Numbered(t.sets.Keys, number as nat)
    ensures Numbered(Filled(t, g, ivs).sets.Keys, number as nat + 1)
  {
    hide Generation, SetName, ElementSet;
    GenerationOfName(d, V4, number);
    GenerationOfName(d, V6, number);
  }

  lemma NotLookedUp(t: Table, name: string)
    requires Intact(Present(t)) && name !in t.sets
    ensures !LooksUp(t, name)
  {
    forall c, r | c in t.chains && r in t.chains[c]
      ensures !(r.DropListed? && r.set_ == name)
    {
      assert Resolves(t, r);
    }
  }

  lemma StageDeletable(t: Table, g: DirectionGeneration, ivs: Chunk)
    requires Intact(Present(t)) && NotYet(t, g)
    ensures Deletable(Present(Filled(t, g, ivs)), StageNames(g))
  {
    NotLookedUp(t, g.ipv4Set);
    NotLookedUp(t, g.ipv6Set);
    SameLookups(t, Filled(t, g, ivs), g.ipv4Set);
    SameLookups(t, Filled(t, g, ivs), g.ipv6Set);
  }

  // --- How tables may differ after a call --------------------------------------------------------

  /** Every set of `names` that `t` has is in `u` with the same contents. */
  ghost predicate Retains(t: Table, u: Table, names: set<string>) {
    forall n <- names :: n in t.sets ==> n in u.sets && u.sets[n] == t.sets[n]
  }

  /** Same chains, every set retained; at most left-over generation sets are new. */
  ghost predicate Grown(s: TableState, r: TableState) {
    match s
    case Absent => r.Absent?
    case Present(t) =>
      && r.Present? && r.table.chains == t.chains
      && Retains(t, r.table, t.sets.Keys)
      && (forall n <- r.table.sets :: n in t.sets || IsGeneration(n))
  }

  /** Sets other than generations stay. */
  ghost predicate KeepsForeign(t: Table, u: Table) {
    forall n <- t.sets :: !IsGeneration(n) ==> n in u.sets && u.sets[n] == t.sets[n]
  }

  lemma GrownTransitive(s: TableState, r: TableState, q: TableState)
    requires Grown(s, r) && Grown(r, q)
    ensures Grown(s, q)
  {
  }

  lemma FilledGrows(t: Table, d: Direction, number: u64, g: DirectionGeneration, ivs: Chunk)
    requires g.ipv4Set == SetName(d, V4, number) && g.ipv6Set == SetName(d, V6, number) && NotYet(t, g)
    ensures Grown(Present(t), Present(Filled(t, g, ivs)))
  {
    NamesAreDistinct(d, V4, number, d, V6, number);
    NamesAreDistinct(d, V6, number, d, V4, number);
  }

  /** Fewer names are as fresh. */
  lemma FreshSubset(a: set<string>, b: set<string>, next: u64, later: u64)
    requires Fresh(b, next) && a <= b && next <= later
    ensures Fresh(a, later)
  {
  }

  lemma CarriesRetained(t: Table, u: Table, g: DirectionGeneration, lines: seq<Line>)
    requires Carries(t, g, lines) && Retains(t, u, {g.ipv4Set, g.ipv6Set})
    ensures Carries(u, g, lines)
  {
    hide SealAll, Runs, ElementSet, Count, Boundaries;
    forall f: Family
      ensures g.Set(f) in {g.ipv4Set, g.ipv6Set}
    {
    }
  }

  lemma DamageRetained(t: Table, u: Table, counts: bool, g: Option<DirectionGeneration>)
    requires !Damaged(t, counts, g) && (g.Some? ==> Retains(t, u, {g.value.ipv4Set, g.value.ipv6Set}))
    ensures !Damaged(u, counts, g)
  {
    if g.Some? {
      forall f
        ensures !SetDamaged(u, counts, g.value.Set(f), g.value.Intervals(f))
      {
        assert g.value.Set(f) in {g.value.ipv4Set, g.value.ipv6Set};
        assert !SetDamaged(t, counts, g.value.Set(f), g.value.Intervals(f));
      }
    }
  }

  lemma UndamagedHasSets(t: Table, counts: bool, g: DirectionGeneration)
    requires !Damaged(t, counts, Some(g))
    ensures HasSets(t, g)
  {
    assert !SetDamaged(t, counts, g.Set(V4), g.Intervals(V4)) && !SetDamaged(t, counts, g.Set(V6), g.Intervals(V6));
  }

  lemma CollectRetains(t: Table, active: ActiveGenerations)
    ensures var u := Without(t, Obsolete(t, active));
      && Retains(t, u, active.Keep()) && KeepsForeign(t, u) && u.sets.Keys <= t.sets.Keys
  {
  }

  /** After a successful collection the generation sets present are exactly the active ones. */
  ghost predicate Collected(t: Table, active: ActiveGenerations) {
    (set n <- t.sets | IsGeneration(n)) == active.Keep()
  }

  lemma CollectedExactly(t: Table, active: ActiveGenerations)
    requires HasActive(t, active) && forall n <- active.Keep() :: IsGeneration(n)
    ensures Collected(Without(t, Obsolete(t, active)), active)
  {
  }

  /** Replacing one dispatch chain of a rendered table is rendering the new generation. */
  lemma RenderReplaced(rules: seq<RenderedRule>, active: ActiveGenerations, d: Direction, g: DirectionGeneration)
    ensures Render(rules, active)[Dispatch(d) := DispatchRules(d, g)] == Render(rules, active.Set(g, d))
  {
    hide BaseRules, CHAINS;
    EveryChain(Dispatch(d));
    forall c
      ensures RenderChain(rules, active.Set(g, d), c) ==
        if c == Dispatch(d) then DispatchRules(d, g) else RenderChain(rules, active, c)
    {
    }
  }

  /** A rendered and intact table has every set it renders. */
  lemma RenderedHasActive(t: Table, rules: seq<RenderedRule>, active: ActiveGenerations)
    requires Intact(Present(t)) && t.chains == Render(rules, active)
    ensures HasActive(t, active)
  {
    forall n <- active.Keep()
      ensures n in t.sets
    {
      RenderLooksUp(t, rules, active, n);
      if n !in t.sets { NotLookedUp(t, n); }
    }
    assert active.inbound.Some? ==>
      active.inbound.value.ipv4Set in active.Keep() && active.inbound.value.ipv6Set in active.Keep();
    assert active.outbound.Some? ==>
      active.outbound.value.ipv4Set in active.Keep() && active.outbound.value.ipv6Set in active.Keep();
  }

  lemma ObsoleteUnused(t: Table, rules: seq<RenderedRule>, active: ActiveGenerations)
    requires t.chains == Render(rules, active)
    ensures forall n <- Obsolete(t, active) :: !LooksUp(t, n)
  {
    forall n <- Obsolete(t, active)
      ensures !LooksUp(t, n)
    {
      RenderLooksUp(t, rules, active, n);
    }
  }

  // --- Loading several directions before the first activation ------------------------------------

  ghost predicate Usable(file: Option<seq<Line>>) {
    file.Some? && Canonical(file.value)
  }

  /** The stage is the only change, and it holds exactly the file. */
  ghost predicate Staged(s: TableState, r: TableState, g: DirectionGeneration, d: Direction, number: u64,
                         file: Option<seq<Line>>) {
    && Usable(file) && s.Present? && number < MAX
    && g == GenerationFor(d, number, file.value) && NotYet(s.table, g)
    && r == Present(Filled(s.table, g, SealAll(Runs(file.value))))
  }

  /** What the two blocklist files hold when they are opened; None when opening fails. */
  datatype Files = Files(inbound: Option<seq<Line>>, outbound: Option<seq<Line>>) {
    function Of(d: Direction): Option<seq<Line>> {
      match d
      case Inbound => inbound
      case Outbound => outbound
    }

    function With(d: Direction, file: Option<seq<Line>>): Files {
      match d
      case Inbound => this.(inbound := file)
      case Outbound => this.(outbound := file)
    }
  }

  ghost predicate NewSets(t: Table, u: Table, g: DirectionGeneration) {
    && NotYet(t, g) && HasSets(u, g)
    && IsGeneration(g.ipv4Set) && IsGeneration(g.ipv6Set)
  }

  /** `u` is `t` plus the staged sets of `candidate`, which hold exactly the files. */
  ghost predicate Loaded(t: Table, u: Table, candidate: ActiveGenerations, files: Files) {
    && u.chains == t.chains
    && Without(u, candidate.Keep()) == t
    && (forall d :: candidate.Get(d).Some? ==>
          && NewSets(t, u, candidate.Get(d).value)
          && Usable(files.Of(d)) && Carries(u, candidate.Get(d).value, files.Of(d).value))
    && (candidate.inbound.Some? && candidate.outbound.Some? ==>
         Disjoint(candidate.inbound.value, candidate.outbound.value))
  }

  ghost predicate Disjoint(a: DirectionGeneration, b: DirectionGeneration) {
    {a.ipv4Set, a.ipv6Set} !! {b.ipv4Set, b.ipv6Set}
  }

  ghost predicate Loading(s: TableState, r: TableState, candidate: ActiveGenerations, files: Files) {
    match s
    case Absent => r.Absent? && candidate == NONE
    case Present(t) => r.Present? && Loaded(t, r.table, candidate, files)
  }

  lemma NothingLoaded(s: TableState, files: Files)
    ensures Loading(s, s, NONE, files)
  {
    if s.Present? {
      assert Without(s.table, NONE.Keep()) == s.table;
    }
  }

  lemma LoadedStep(t: Table, u: Table, c: ActiveGenerations, files: Files, v: Table, g: DirectionGeneration,
                   d: Direction, number: u64)
    requires Loaded(t, u, c, files) && c.Get(d).None?
    requires Staged(Present(u), Present(v), g, d, number, files.Of(d))
    ensures Loaded(t, v, c.Set(g, d), files)
  {
    hide Carries, ElementSet, SealAll, Runs, Canonical, SetName, IsGeneration;
    var e := if d == Inbound then Outbound else Inbound;
    var more := c.Set(g, d);
    StagedNames(u, v, g, d, number, files.Of(d));
    assert t.sets == u.sets - c.Keep();
    assert Without(v, more.Keep()).sets == t.sets;
    assert more.Get(d) == Some(g) && more.Get(e) == c.Get(e);
    if c.Get(e).Some? {
      var h := c.Get(e).value;
      assert h.ipv4Set in u.sets && h.ipv6Set in u.sets;
      assert Disjoint(g, h);
      CarriesRetained(u, v, h, files.Of(e).value);
    }
  }

  lemma StagedNames(u: Table, v: Table, g: DirectionGeneration, d: Direction, number: u64, file: Option<seq<Line>>)
    requires Staged(Present(u), Present(v), g, d, number, file)
    ensures NewSets(u, v, g) && Carries(v, g, file.value)
    ensures v.chains == u.chains && Retains(u, v, u.sets.Keys)
    ensures v.sets.Keys == u.sets.Keys + {g.ipv4Set, g.ipv6Set}
    ensures v.sets - {g.ipv4Set, g.ipv6Set} == u.sets
  {
    hide Carries, ElementSet, SealAll, Runs, Canonical, SetName, IsGeneration;
    NamesAreDistinct(d, V4, number, d, V6, number);
    NamesAreDistinct(d, V6, number, d, V4, number);
    FilledCarries(u, d, number, file.value);
  }

  /** Deleting sets that were not there before keeps what was. */
  lemma GrownWithout(s: TableState, x: Table, names: set<string>)
    requires Grown(s, Present(x)) && s.Present? && names !! s.table.sets.Keys
    ensures Grown(s, Present(Without(x, names)))
  {
  }

  lemma NewSetsDeletable(t: Table, x: Table, g: DirectionGeneration)
    requires Intact(Present(t)) && x.chains == t.chains && NotYet(t, g) && HasSets(x, g)
    ensures Deletable(Present(x), StageNames(g))
  {
    NotLookedUp(t, g.ipv4Set);
    NotLookedUp(t, g.ipv6Set);
    SameLookups(t, x, g.ipv4Set);
    SameLookups(t, x, g.ipv6Set);
  }

  lemma LoadedGrown(t: Table, u: Table, c: ActiveGenerations, files: Files)
    requires Loaded(t, u, c, files)
    ensures Grown(Present(t), Present(u))
  {
    hide Carries, Canonical, IsGeneration;
    forall n | n in u.sets && n !in t.sets
      ensures IsGeneration(n)
    {
      assert n in c.Keep();
      assert c.Get(Inbound) == c.inbound && c.Get(Outbound) == c.outbound;
    }
    assert forall n <- t.sets :: n in Without(u, c.Keep()).sets;
  }

  /** A loaded candidate is healthy as soon as the layout marker is there. */
  lemma LoadedIsHealthy(t: Table, u: Table, counts: bool, c: ActiveGenerations, files: Files)
    requires Loaded(t, u, c, files) && LAYOUT_MARKER in t.sets
    ensures HealthOf(Present(u), counts, c) == Healthy
  {
    hide Carries, Canonical, IsGeneration, Damaged;
    assert LAYOUT_MARKER in Without(u, c.Keep()).sets;
    assert c.Get(Inbound) == c.inbound && c.Get(Outbound) == c.outbound;
    UnusedIsHealthy(u, counts);
    if c.inbound.Some? {
      CarriedIsHealthy(u, counts, c.inbound.value, files.inbound.value);
    }
    if c.outbound.Some? {
      CarriedIsHealthy(u, counts, c.outbound.value, files.outbound.value);
    }
  }

  lemma UnusedIsHealthy(t: Table, counts: bool)
    ensures !Damaged(t, counts, None)
  {
  }
}
