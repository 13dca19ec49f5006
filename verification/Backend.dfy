/** `NftnlBackend`: staging, activating, collecting and checking generations of sets. */
module Backend {
  import opened Wrappers
  import opened Bits
  import opened Requests
  import opened Addresses
  import opened Blocklist
  import opened Stream
  import opened IntervalSets
  import opened GenerationNames
  import opened Netfilter
  import opened Generations

  datatype LayoutStatus = NoTable | Current | Incompatible

  datatype Health = Healthy | InboundDamaged | OutboundDamaged | LayoutDamaged

  datatype BackendError = Netlink | CounterExhausted | MixedFamilies

  function Names(s: TableState): set<string> {
    if s.Present? then s.table.sets.Keys else {}
  }

  // --- Health --------------------------------------------------------------------------------

  /** A set is missing, or its reported count differs from the recorded number of intervals. */
  ghost predicate SetDamaged(t: Table, counts: bool, name: string, intervals: nat) {
    name !in t.sets || (counts && StartCount(t.sets[name].elements) != intervals)
  }

  ghost predicate Damaged(t: Table, counts: bool, g: Option<DirectionGeneration>) {
    g.Some? && exists f :: SetDamaged(t, counts, g.value.Set(f), g.value.Intervals(f))
  }

  ghost function HealthOf(s: TableState, counts: bool, active: ActiveGenerations): Health {
    if LAYOUT_MARKER !in Names(s) then LayoutDamaged
    else
      match (Damaged(s.table, counts, active.inbound), Damaged(s.table, counts, active.outbound))
      case (false, false) => Healthy
      case (true, false) => InboundDamaged
      case (false, true) => OutboundDamaged
      case (true, true) => LayoutDamaged
  }

  /**
   A direction passes if each of its sets is there and, where counts are reported, counts as many intervals as
   recorded. Which directions pass decides the answer.
   */
  lemma HealthMeans(s: TableState, counts: bool, active: ActiveGenerations, d: Direction)
    ensures s.Absent? || LAYOUT_MARKER !in s.table.sets ==> HealthOf(s, counts, active) == LayoutDamaged
    ensures s.Present? && LAYOUT_MARKER in s.table.sets ==>
      var h, other := HealthOf(s, counts, active), if d.Inbound? then OutboundDamaged else InboundDamaged;
      h == Healthy || h == other
      <==>
      (active.Get(d).Some? ==>
         forall f ::
           var name := active.Get(d).value.Set(f);
           && name in s.table.sets
           && (counts ==> StartCount(s.table.sets[name].elements) == active.Get(d).value.Intervals(f)))
  {
    assert active.Get(Inbound) == active.inbound && active.Get(Outbound) == active.outbound;
    if s.Present? && active.Get(d).Some? {
      var g := active.Get(d).value;
      assert forall f :: SetDamaged(s.table, counts, g.Set(f), g.Intervals(f)) <==>
          !(g.Set(f) in s.table.sets
            && (counts ==> StartCount(s.table.sets[g.Set(f)].elements) == g.Intervals(f)));
    }
  }

  // --- Contents of a staged generation ---------------------------------------------------------

  /** The sets of `g` hold exactly the boundaries of the file, and `g` records their numbers. */
  ghost predicate Carries(t: Table, g: DirectionGeneration, lines: seq<Line>) {
    var ivs := SealAll(Runs(lines));
    && HasSets(t, g)
    && (forall f :: t.sets[g.Set(f)] == SetBody(f, ElementSet(ivs, f)))
    && (forall f :: g.Intervals(f) == Count(ivs, f))
    && g.ipv4Boundaries == Boundaries(ivs, V4) && g.ipv6Boundaries == Boundaries(ivs, V6)
  }

  /** A generation that carries a canonical file passes its health check, whether or not counts are reported. */
  lemma CarriedIsHealthy(t: Table, counts: bool, g: DirectionGeneration, lines: seq<Line>)
    requires Canonical(lines) && Carries(t, g, lines)
    ensures !Damaged(t, counts, Some(g))
  {
    RunsAreNormal(lines);
    forall f
      ensures !SetDamaged(t, counts, g.Set(f), g.Intervals(f))
    {
      assert g.Set(f) in t.sets;
      StartsAreIntervals(Runs(lines), f);
    }
  }

  /** The dispatch rules of a generation that carries a file drop exactly the listed addresses. */
  lemma DispatchMeaning(t: Table, d: Direction, g: DirectionGeneration, lines: seq<Line>, f: Family, source: nat,
                        destination: nat)
    requires Canonical(lines) && Carries(t, g, lines)
    requires Dispatch(d) in t.chains && t.chains[Dispatch(d)] == DispatchRules(d, g)
    requires source < f.Size() && destination < f.Size()
    ensures Drops(t, d, f, source, destination) <==> Listed(lines, f, if d.Inbound? then source else destination)
  {
    hide Matches, ElementSet, Runs, SealAll, Listed;
    var a := if d.Inbound? then source else destination;
    RunsAreNormal(lines);
    MatchesIffInRuns(Runs(lines), f, a);
    var rules := DispatchRules(d, g);
    var mine := DropListed(f, d, g.Set(f));
    assert rules[if f.V4? then 0 else 1] == mine;
    assert mine in RulesOf(t, Dispatch(d));
  }

  // --- Collection ------------------------------------------------------------------------------

  function Without(t: Table, names: set<string>): Table {
    t.(sets := t.sets - names)
  }

  ghost function Obsolete(t: Table, active: ActiveGenerations): set<string> {
    set n <- t.sets | IsGeneration(n) && n !in active.Keep()
  }

  /** A delete batch for these names cannot be refused. */
  ghost predicate Deletable(s: TableState, names: seq<string>) {
    && s.Present?
    && (forall n <- names :: n in s.table.sets && !LooksUp(s.table, n))
    && (forall i, j :: 0 <= i < j < |names| ==> names[i] != names[j])
  }

  /** Deleting one more set that `front` does not name. */
  lemma DeleteStep(t: Table, front: seq<string>, last: string)
    requires (set n <- front) <= t.sets.Keys
    ensures var u := Without(t, set n <- front);
      && (Apply(DeleteSet(last), Present(u)).Some? ==>
            Apply(DeleteSet(last), Present(u)).value == Present(Without(t, set n <- front + [last])))
      && (last in t.sets && last !in front && !LooksUp(t, last) ==> Apply(DeleteSet(last), Present(u)).Some?)
  {
    hide LooksUp;
    var u := Without(t, set n <- front);
    SameLookups(t, u, last);
    assert (set n <- front + [last]) == (set n <- front) + {last};
    assert u.sets - {last} == t.sets - (set n <- front + [last]);
  }

  lemma SameLookups(t: Table, u: Table, name: string)
    requires t.chains == u.chains
    ensures LooksUp(t, name) <==> LooksUp(u, name)
  {
  }

  lemma DeletablePrefix(s: TableState, front: seq<string>, last: string)
    requires Deletable(s, front + [last])
    ensures Deletable(s, front) && last in s.table.sets && last !in front && !LooksUp(s.table, last)
  {
    hide LooksUp;
    var all := front + [last];
    assert all[|front|] == last;
    forall n | n in front
      ensures n in all && n != last
    {
      var i :| 0 <= i < |front| && front[i] == n;
      assert all[i] == n;
    }
    assert forall i :: 0 <= i < |front| ==> all[i] == front[i];
  }

  lemma {:induction false} SetsDeleted(s: TableState, names: seq<string>)
    requires s.Present?
    ensures var batch := DeleteOps(names);
      && (Commit(s, batch).Some? ==>
            && Commit(s, batch).value == Present(Without(s.table, set n <- names))
            && (set n <- names) <= s.table.sets.Keys)
      && (Deletable(s, names) ==> Commit(s, batch).Some?)
  {
    hide LooksUp, Commit, Apply, Deletable, Without;
    if names == [] {
      NothingDeleted(s);
    } else {
      var k := |names| - 1;
      var front, last := names[..k], names[k];
      assert names == front + [last];
      SetsDeleted(s, front);
      assert DeleteOps(names) == DeleteOps(front) + [DeleteSet(last)];
      CommitSnoc(s, DeleteOps(front), DeleteSet(last));
      if Commit(s, DeleteOps(front)).Some? {
        DeleteStep(s.table, front, last);
        DeletePresent(Without(s.table, set n <- front), last);
        WithoutKeys(s.table, set n <- front);
      }
      if Deletable(s, names) {
        DeletablePrefix(s, front, last);
      }
    }
  }

  lemma NothingDeleted(s: TableState)
    requires s.Present?
    ensures Commit(s, DeleteOps([])) == Some(s) && Without(s.table, set n: string <- []) == s.table
  {
    assert Without(s.table, {}).sets == s.table.sets;
  }

  lemma DeletePresent(u: Table, name: string)
    ensures Apply(DeleteSet(name), Present(u)).Some? ==> name in u.sets
  {
  }

  lemma WithoutKeys(t: Table, names: set<string>)
    ensures Without(t, names).sets.Keys <= t.sets.Keys
  {
  }

  function DeleteOps(names: seq<string>): seq<Op> {
    seq(|names|, i requires 0 <= i < |names| => DeleteSet(names[i]))
  }

  // --- The backend -----------------------------------------------------------------------------

  class NftnlBackend {
    const kernel: Kernel
    var nextGeneration: u64

    constructor (kernel: Kernel)
      ensures this.kernel == kernel && nextGeneration == 1
    {
      this.kernel := kernel;
      nextGeneration := 1;
    }

    /** No name the counter can still produce is in the table. */
    ghost predicate Named()
      reads this, kernel
    {
      Fresh(Names(kernel.table), nextGeneration)
    }

    method ObserveGenerations(names: set<string>)
      modifies this
      ensures Observed(names, old(nextGeneration), nextGeneration)
    {
      var left := names;
      while left != {}
        invariant left <= names && Observed(names - left, old(nextGeneration), nextGeneration)
        decreases left
      {
        var name :| name in left;
        var generation := Generation(name);
        ghost var before := nextGeneration;
        if generation.Some? && nextGeneration < SaturatingNext(generation.value) {
          nextGeneration := SaturatingNext(generation.value);
        }
        OneMoreObserved(names - left, name, old(nextGeneration), before, nextGeneration);
        assert names - (left - {name}) == names - left + {name};
        left := left - {name};
      }
      assert names - {} == names;
    }

    method GetLayoutStatus() returns (r: Result<LayoutStatus, BackendError>)
      modifies this
      ensures r.Ok? || old(Named()) ==> Named()
      ensures r.Ok? ==> r.value == match kernel.table {
                case Absent => NoTable
                case Present(t) => if LAYOUT_MARKER in t.sets then Current else Incompatible
              }
      ensures kernel.reliable ==> r.Ok?
      ensures r.Ok? && kernel.table.Present? ==> Observed(Names(kernel.table), old(nextGeneration), nextGeneration)
      ensures
        || nextGeneration == old(nextGeneration)
        || Observed(Names(kernel.table), old(nextGeneration), nextGeneration)
    {
      var ok := Request(kernel.reliable);
      if !ok {
        return Err(Netlink);
      }
      if kernel.table.Absent? {
        return Ok(NoTable);
      }
      ok := Request(kernel.reliable);
      if !ok {
        return Err(Netlink);
      }
      var sets := kernel.table.table.sets.Keys;
      ObserveGenerations(sets);
      ObservedIsFresh(sets, old(nextGeneration), nextGeneration);
      return Ok(if LAYOUT_MARKER in sets then Current else Incompatible);
    }

    method Bootstrap(rules: seq<RenderedRule>) returns (ok: bool)
      requires kernel.table.Absent?
      modifies kernel`table, kernel`refused
      ensures kernel.table == if ok then Present(FRESH_TABLE.(chains := Render(rules, NONE))) else Absent
      ensures kernel.refused == old(kernel.refused) && (kernel.reliable ==> ok)
      ensures Intact(old(kernel.table)) ==> Intact(kernel.table)
      ensures old(Named()) ==> Named()
    {
      Bootstrapped(rules);
      ok := kernel.Send(BootstrapOps(rules));
      if ok {
        forall d, f, g: u64
          ensures SetName(d, f, g) != LAYOUT_MARKER
        {
          NamesAreDistinct(d, f, g, d, f, g);
        }
      }
    }

    method BeginStage(d: Direction) returns (r: Result<DirectionGeneration, BackendError>)
      requires Named()
      modifies this, kernel`table, kernel`refused
      ensures Named() && (Intact(old(kernel.table)) ==> Intact(kernel.table))
      ensures if old(nextGeneration) == MAX then r == Err(CounterExhausted) && nextGeneration == MAX
              else nextGeneration == old(nextGeneration) + 1 && r != Err(CounterExhausted)
      ensures r.Ok? ==>
        && r.value == NewGeneration(d, old(nextGeneration)) && old(kernel.table).Present?
        && NotYet(old(kernel.table).table, r.value)
        && kernel.table == Present(WithStage(old(kernel.table).table, r.value))
      ensures r.Err? ==> kernel.table == old(kernel.table)
      ensures old(kernel.table).Present? ==> kernel.refused == old(kernel.refused)
      ensures old(kernel.table).Present? && kernel.reliable && old(nextGeneration) < MAX ==> r.Ok?
    {
      var number := nextGeneration;
      if number == MAX {
        return Err(CounterExhausted);
      }
      nextGeneration := nextGeneration + 1;
      var stage := NewGeneration(d, number);
      NamesAreDistinct(d, V4, number, d, V6, number);
      if kernel.table.Present? {
        StageAdded(kernel.table.table, stage);
      } else {
        NoTableNoStage(stage);
      }
      var ok := kernel.Send(StageOps(stage));
      if !ok {
        return Err(Netlink);
      }
      StageKeepsFresh(old(kernel.table.table), d, number);
      return Ok(stage);
    }

    method Populate(stage: DirectionGeneration, intervals: Chunk) returns (error: Option<BackendError>)
      modifies kernel`table, kernel`refused
      ensures intervals == [] ==> error.None?
      ensures error == Some(MixedFamilies) <==> intervals != [] && !OneFamily(intervals, intervals[0].family)
      ensures intervals == [] || error.Some? ==> kernel.table == old(kernel.table)
      ensures error.None? && intervals != [] ==>
        var f := intervals[0].family;
        && old(kernel.table).Present? && stage.Set(f) in old(kernel.table).table.sets
        && kernel.table == Present(WithElements(old(kernel.table).table, stage.Set(f), f, Elements(intervals, f)))
      ensures Intact(old(kernel.table)) ==> Intact(kernel.table)
      ensures old(Accepts(stage)) ==> kernel.refused == old(kernel.refused)
      ensures old(Accepts(stage)) && kernel.reliable && error.Some? ==> error == Some(MixedFamilies)
    {
      if intervals == [] {
        return None;
      }
      var f := intervals[0].family;
      var elements: seq<Boundary> := [];
      for i := 0 to |intervals|
        invariant elements == Elements(intervals[..i], f) && OneFamily(intervals[..i], f)
      {
        assert intervals[..i + 1] == intervals[..i] + [intervals[i]];
        assert intervals[..i + 1][..i] == intervals[..i];
        if intervals[i].family != f {
          return Some(MixedFamilies);
        }
        elements := elements + AddRange(intervals[i].first, intervals[i].afterLast);
      }
      assert intervals[..|intervals|] == intervals;
      ghost var before := kernel.table;
      ElementsAdded(before, stage.Set(f), f, elements);
      var ok := kernel.Send([AddElements(stage.Set(f), f, elements)]);
      return if ok then None else Some(Netlink);
    }

    /** Both sets of the stage are there, with the right key types. */
    ghost predicate Accepts(stage: DirectionGeneration)
      reads kernel
    {
      && kernel.table.Present?
      && forall f ::
           var name := stage.Set(f);
           name in kernel.table.table.sets && kernel.table.table.sets[name].family == f
    }

    /** `replace_rules`: first activation of both directions, and repair. */
    method ReplaceRules(rules: seq<RenderedRule>, active: ActiveGenerations) returns (ok: bool)
      modifies kernel`table, kernel`refused
      ensures Intact(old(kernel.table)) ==> Intact(kernel.table)
      ensures !ok ==> kernel.table == old(kernel.table)
      ensures old(kernel.table).Present? && HasActive(old(kernel.table).table, active) ==>
        && kernel.refused == old(kernel.refused) && (kernel.reliable ==> ok)
        && (ok ==> kernel.table == Present(old(kernel.table).table.(chains := Render(rules, active))))
    {
      if kernel.table.Present? && HasActive(kernel.table.table, active) {
        RulesReplaced(kernel.table.table, rules, active);
      }
      ok := kernel.Send(ReplaceRulesOps(rules, active));
    }

    /** `replace_dispatch` */
    method ActivateDirection(d: Direction, g: DirectionGeneration) returns (ok: bool)
      modifies kernel`table, kernel`refused
      ensures Intact(old(kernel.table)) ==> Intact(kernel.table)
      ensures !ok ==> kernel.table == old(kernel.table)
      ensures old(kernel.table).Present? && HasSets(old(kernel.table).table, g) ==>
        && kernel.refused == old(kernel.refused) && (kernel.reliable ==> ok)
        && var t := old(kernel.table).table;
        && (ok ==> kernel.table == Present(t.(chains := t.chains[Dispatch(d) := DispatchRules(d, g)])))
    {
      if kernel.table.Present? && HasSets(kernel.table.table, g) {
        DispatchReplaced(kernel.table.table, d, g);
      }
      ok := kernel.Send(ReplaceDispatchOps(d, g));
    }

    method DeleteSets(names: seq<string>) returns (ok: bool)
      requires kernel.table.Present?
      modifies kernel`table, kernel`refused
      ensures Intact(old(kernel.table)) ==> Intact(kernel.table)
      ensures kernel.table ==
        if ok then Present(Without(old(kernel.table).table, set n <- names)) else old(kernel.table)
      ensures names == [] ==> ok && kernel.refused == old(kernel.refused)
      ensures Deletable(old(kernel.table), names) ==> kernel.refused == old(kernel.refused) && (kernel.reliable ==> ok)
    {
      ghost var before := kernel.table;
      SetsDeleted(kernel.table, names);
      if names == [] {
        assert Without(before.table, set n <- names) == before.table;
        return true;
      }
      var batch: seq<Op> := [];
      for i := 0 to |names|
        invariant batch == DeleteOps(names[..i])
      {
        batch := batch + [DeleteSet(names[i])];
      }
      assert names[..|names|] == names;
      ok := kernel.Send(batch);
    }

    method Discard(stage: DirectionGeneration) returns (ok: bool)
      requires kernel.table.Present?
      modifies kernel`table, kernel`refused
      ensures Intact(old(kernel.table)) ==> Intact(kernel.table)
      ensures kernel.table ==
        if ok then Present(Without(old(kernel.table).table, {stage.ipv4Set, stage.ipv6Set})) else old(kernel.table)
      ensures Deletable(old(kernel.table), StageNames(stage)) ==>
        kernel.refused == old(kernel.refused) && (kernel.reliable ==> ok)
    {
      var names := StageNames(stage);
      assert (set n <- names) == {stage.ipv4Set, stage.ipv6Set};
      ok := DeleteSets(names);
    }

    /** Delete every generation set that no active generation names. */
    method CleanupObsolete(active: ActiveGenerations) returns (ok: bool)
      requires kernel.table.Present?
      modifies kernel`table, kernel`refused
      ensures Intact(old(kernel.table)) ==> Intact(kernel.table)
      ensures kernel.table ==
        if ok then Present(Without(old(kernel.table).table, Obsolete(old(kernel.table).table, active)))
        else old(kernel.table)
      // A set that does not begin like a generation name is never touched ...
      ensures forall n <- old(kernel.table).table.sets :: (forall d, f :: !(Stem(d, f) + "_g" <= n)) ==>
        n in kernel.table.table.sets && kernel.table.table.sets[n] == old(kernel.table).table.sets[n]
      // ... and after a success one that does is there only if it is active.
      ensures ok ==> forall n <- kernel.table.table.sets, d, f | Stem(d, f) + "_g" <= n :: n in active.Keep()
      ensures (forall n <- Obsolete(old(kernel.table).table, active) :: !LooksUp(old(kernel.table).table, n)) ==>
        kernel.refused == old(kernel.refused) && (kernel.reliable ==> ok)
    {
      ok := Request(kernel.reliable);
      if !ok {
        return;
      }
      var keep := active.Keep();
      var sets := kernel.table.table.sets.Keys;
      var obsolete := Listing(set n <- sets | IsGeneration(n) && n !in keep);
      assert (set n <- obsolete) == Obsolete(kernel.table.table, active);
      if forall n <- Obsolete(kernel.table.table, active) :: !LooksUp(kernel.table.table, n) {
        forall n | n in obsolete
          ensures n in kernel.table.table.sets && !LooksUp(kernel.table.table, n)
        {
          assert n in (set m <- obsolete);
          assert n in Obsolete(kernel.table.table, active);
        }
        assert Deletable(kernel.table, obsolete);
      }
      forall n
        ensures IsGeneration(n) <==> exists d, f :: Stem(d, f) + "_g" <= n
      {
        GenerationPrefix(n);
      }
      ok := DeleteSets(obsolete);
    }

    method GetHealth(active: ActiveGenerations) returns (r: Result<Health, BackendError>)
      ensures r.Ok? ==> r.value == HealthOf(kernel.table, kernel.countsReported, active)
      // Without the marker the layout is damaged; with it, each direction passes or not, and so decides the answer.
      ensures r.Ok? && LAYOUT_MARKER !in Names(kernel.table) ==> r.value == LayoutDamaged
      ensures r.Ok? && LAYOUT_MARKER in Names(kernel.table) ==> forall d: Direction ::
        r.value == Healthy || r.value == (if d.Inbound? then OutboundDamaged else InboundDamaged)
        <==>
        (active.Get(d).Some? ==>
           forall f ::
             var name := active.Get(d).value.Set(f);
             && name in kernel.table.table.sets
             && (kernel.countsReported ==>
                   StartCount(kernel.table.table.sets[name].elements) == active.Get(d).value.Intervals(f)))
      ensures kernel.reliable ==> r.Ok?
    {
      var ok := Request(kernel.reliable);
      if !ok {
        return Err(Netlink);
      }
      forall d: Direction {
        HealthMeans(kernel.table, kernel.countsReported, active, d);
      }
      var sets := if kernel.table.Present? then kernel.table.table.sets else map[];
      if LAYOUT_MARKER !in sets {
        return Ok(LayoutDamaged);
      }
      var inbound := InspectDirection(sets, active.inbound);
      var outbound := InspectDirection(sets, active.outbound);
      assert kernel.table.table.sets == sets;
      return Ok(match (inbound, outbound)
                case (false, false) => Healthy
                case (true, false) => InboundDamaged
                case (false, true) => OutboundDamaged
                case (true, true) => LayoutDamaged);
    }

    predicate Inspect(sets: map<string, SetBody>, name: string, expected: nat) {
      if name !in sets then true
      else if kernel.countsReported then StartCount(sets[name].elements) != expected
      else false
    }

    predicate InspectDirection(sets: map<string, SetBody>, value: Option<DirectionGeneration>): (damaged: bool)
      ensures forall chains :: damaged == Damaged(Table(sets, chains), kernel.countsReported, value)
    {
      if value.None? then false
      else
        var ipv4 := Inspect(sets, value.value.ipv4Set, value.value.ipv4Intervals);
        var ipv6 := Inspect(sets, value.value.ipv6Set, value.value.ipv6Intervals);
        assert forall t: Table | t.sets == sets ::
            SetDamaged(t, kernel.countsReported, value.value.Set(V4), value.value.Intervals(V4)) == ipv4
            && SetDamaged(t, kernel.countsReported, value.value.Set(V6), value.value.Intervals(V6)) == ipv6;
        ipv4 || ipv6
    }
  }

  // --- Effects of the batches --------------------------------------------------------------------

  function NewGeneration(d: Direction, number: u64): DirectionGeneration {
    DirectionGeneration(d, SetName(d, V4, number), SetName(d, V6, number), 0, 0, 0, 0)
  }

  function StageNames(stage: DirectionGeneration): seq<string> {
    [stage.ipv4Set, stage.ipv6Set]
  }

  /** The names of a stage are new. */
  predicate NotYet(t: Table, stage: DirectionGeneration) {
    stage.ipv4Set !in t.sets && stage.ipv6Set !in t.sets && stage.ipv4Set != stage.ipv6Set
  }

  function WithStage(t: Table, stage: DirectionGeneration): Table {
    t.(sets := t.sets[stage.ipv4Set := SetBody(V4, {})][stage.ipv6Set := SetBody(V6, {})])
  }

  function StageOps(stage: DirectionGeneration): seq<Op> {
    [AddSet(stage.ipv4Set, V4), AddSet(stage.ipv6Set, V6)]
  }

  lemma StageAdded(t: Table, stage: DirectionGeneration)
    requires NotYet(t, stage)
    ensures Commit(Present(t), StageOps(stage)) == Some(Present(WithStage(t, stage)))
  {
    var first, second := AddSet(stage.ipv4Set, V4), AddSet(stage.ipv6Set, V6);
    CommitNothing(Present(t));
    CommitSnoc(Present(t), [], first);
    assert [] + [first] == [first];
    CommitSnoc(Present(t), [first], second);
    assert [first] + [second] == StageOps(stage);
  }

  lemma NoTableNoStage(stage: DirectionGeneration)
    ensures Commit(Absent, StageOps(stage)).None?
  {
    var first, second := AddSet(stage.ipv4Set, V4), AddSet(stage.ipv6Set, V6);
    CommitNothing(Absent);
    CommitSnoc(Absent, [], first);
    assert [] + [first] == [first];
    CommitSnoc(Absent, [first], second);
    assert [first] + [second] == StageOps(stage);
  }

  lemma StageKeepsFresh(t: Table, d: Direction, number: u64)
    requires number < MAX && Fresh(t.sets.Keys, number)
    ensures Fresh(WithStage(t, NewGeneration(d, number)).sets.Keys, number + 1)
  {
    forall e, f, g: u64 | number + 1 <= g < MAX
      ensures SetName(e, f, g) !in WithStage(t, NewGeneration(d, number)).sets
    {
      NamesAreDistinct(e, f, g, d, V4, number);
      NamesAreDistinct(e, f, g, d, V6, number);
    }
  }

  function WithElements(t: Table, name: string, f: Family, es: seq<Boundary>): Table
    requires name in t.sets
  {
    t.(sets := t.sets[name := SetBody(f, t.sets[name].elements + set e <- es)])
  }

  lemma ElementsAdded(s: TableState, name: string, f: Family, es: seq<Boundary>)
    ensures Commit(s, [AddElements(name, f, es)]) ==
      if s.Present? && name in s.table.sets && s.table.sets[name].family == f then
        Some(Present(WithElements(s.table, name, f, es)))
      else None
  {
    CommitNothing(s);
    CommitSnoc(s, [], AddElements(name, f, es));
    assert [] + [AddElements(name, f, es)] == [AddElements(name, f, es)];
  }

  method Listing(names: set<string>) returns (out: seq<string>)
    ensures (set n <- out) == names
    ensures forall i, j :: 0 <= i < j < |out| ==> out[i] != out[j]
  {
    out := [];
    var left := names;
    while left != {}
      invariant left <= names && (set n <- out) == names - left
      invariant forall i, j :: 0 <= i < j < |out| ==> out[i] != out[j]
      decreases left
    {
      var name :| name in left;
      assert forall n <- out :: n in names - left;
      assert (set n <- out + [name]) == (set n <- out) + {name};
      assert names - (left - {name}) == names - left + {name};
      out := out + [name];
      left := left - {name};
    }
  }

  lemma OneMoreObserved(names: set<string>, name: string, before: u64, now: u64, after: u64)
    requires Observed(names, before, now)
    requires after == if Generation(name).Some? && now < SaturatingNext(Generation(name).value)
                      then SaturatingNext(Generation(name).value) else now
    ensures Observed(names + {name}, before, after)
  {
    var more := names + {name};
    forall n <- more | Generation(n).Some?
      ensures after == MAX || Generation(n).value < after
    {
    }
    if after != before {
      var n :| n in more && Generation(n).Some? && after == SaturatingNext(Generation(n).value);
    }
  }
}
