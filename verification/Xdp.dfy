/**
 `XdpManager`: the reload procedure over the pinned maps. Each kernel call may fail; a
 failed call changes nothing. The ghost trail records every state the kernel passes
 through, so a crash anywhere in a reload is a cut of the trail.
 */
module Xdp {
  import opened Wrappers
  import opened Requests
  import opened Addresses
  import opened Decomposition
  import opened Blocklist
  import opened Stream
  import opened StreamTheorems
  import opened XdpProtocol

  datatype XdpError =
    | Incompatible
    | Kernel
    | NoFile
    | Stream(error: StreamError)
    | Capacity(family: Family)

  // --- What a file publishes ---------------------------------------------------------------

  ghost function Target(lines: seq<Line>): Trie {
    PrefixSet(PrefixList(Runs(lines)))
  }

  /** Prefixes of the intervals, in order. */
  ghost function PrefixesOf(ivs: Chunk): seq<AddressPrefix>
    requires forall iv <- ivs :: iv.Valid()
  {
    if ivs == [] then []
    else
      var iv := ivs[|ivs| - 1];
      assert iv in ivs && iv.Valid();
      PrefixesOf(ivs[..|ivs| - 1]) + Decompose(iv.family, iv.first, iv.Stop())
  }

  lemma PrefixesJoin(a: Chunk, iv: AddressInterval)
    requires (forall x <- a :: x.Valid()) && iv.Valid()
    ensures forall x <- a + [iv] :: x.Valid()
    ensures PrefixesOf(a + [iv]) == PrefixesOf(a) + Decompose(iv.family, iv.first, iv.Stop())
  {
    assert (a + [iv])[..|a|] == a;
  }

  lemma {:induction false} SealedPrefixes(runs: seq<Run>)
    requires Normal(runs)
    ensures forall iv <- SealAll(runs) :: iv.Valid()
    ensures PrefixesOf(SealAll(runs)) == PrefixList(runs)
  {
    hide Normal, Decompose, Stream.CheckedAdd;
    if runs != [] {
      var n := |runs| - 1;
      NormalSnoc(runs);
      AllRunsValid(runs);
      SealedPrefixes(runs[..n]);
      SealIsExact(runs[n]);
      SealSnoc(runs[..n], runs[n]);
      assert runs == runs[..n] + [runs[n]];
      PrefixesJoin(SealAll(runs[..n]), Seal(runs[n]));
    }
  }

  lemma {:induction false} PrefixesMonotone(a: Chunk, b: Chunk)
    requires a <= b && forall iv <- b :: iv.Valid()
    ensures (forall iv <- a :: iv.Valid()) && PrefixesOf(a) <= PrefixesOf(b)
  {
    if a != b {
      assert b == b[..|b| - 1] + [b[|b| - 1]];
      PrefixesMonotone(a, b[..|b| - 1]);
    } else {
      assert a == b;
    }
  }

  /** One more interval of a chunk. */
  lemma ChunkStep(before: Chunk, chunk: Chunk, i: nat)
    requires i < |chunk| && forall iv <- before + chunk :: iv.Valid()
    ensures (forall iv <- before + chunk[..i] :: iv.Valid()) && (forall iv <- before + chunk[..i + 1] :: iv.Valid())
    ensures chunk[i].Valid()
    ensures PrefixesOf(before + chunk[..i + 1]) ==
      PrefixesOf(before + chunk[..i]) + Decompose(chunk[i].family, chunk[i].first, chunk[i].Stop())
    ensures PrefixesOf(before + chunk[..i + 1]) <= PrefixesOf(before + chunk)
  {
    hide PrefixesOf, Decompose;
    var so := before + chunk[..i];
    assert so + [chunk[i]] == before + chunk[..i + 1];
    assert chunk[i] in before + chunk;
    assert so + [chunk[i]] <= before + chunk;
    PrefixesMonotone(so + [chunk[i]], before + chunk);
    PrefixesMonotone(so, before + chunk);
    PrefixesJoin(so, chunk[i]);
  }

  lemma CountMonotone(a: seq<AddressPrefix>, b: seq<AddressPrefix>, f: Family)
    requires a <= b
    ensures CountF(a, f) <= CountF(b, f)
  {
    CountJoin(a, b[|a|..], f);
    assert a + b[|a|..] == b;
  }

  ghost function CountF(ps: seq<AddressPrefix>, f: Family): nat {
    if ps == [] then 0 else CountF(ps[..|ps| - 1], f) + if ps[|ps| - 1].family == f then 1 else 0
  }

  lemma {:induction false} CountJoin(a: seq<AddressPrefix>, b: seq<AddressPrefix>, f: Family)
    ensures CountF(a + b, f) == CountF(a, f) + CountF(b, f)
  {
    if b == [] {
      assert a + b == a;
    } else {
      var n := |b| - 1;
      assert (a + b)[..|a + b| - 1] == a + b[..n];
      CountJoin(a, b[..n], f);
    }
  }

  lemma {:induction false} CountOne(ps: seq<AddressPrefix>, g: Family, f: Family)
    requires forall p <- ps :: p.family == g
    ensures CountF(ps, f) == if f == g then |ps| else 0
  {
    if ps != [] {
      CountOne(ps[..|ps| - 1], g, f);
    }
  }

  lemma RunPrefixesFamily(r: Run)
    ensures forall p <- RunPrefixes(r) :: p.family == r.family
  {
    hide Prefixes.Greedy;
    forall i | 0 <= i < |RunPrefixes(r)|
      ensures RunPrefixes(r)[i].family == r.family
    {
      assert NamesBlock(RunPrefixes(r)[i], r.family, Prefixes.Greedy(r.first, r.last + 1)[i]);
    }
  }

  /** The prefixes of a family in the list are what `Need` counts. */
  lemma {:induction false} NeedCounts(runs: seq<Run>, f: Family)
    ensures CountF(PrefixList(runs), f) == Need(runs, f)
  {
    hide RunPrefixes;
    if runs != [] {
      var n := |runs| - 1;
      NeedCounts(runs[..n], f);
      CountJoin(PrefixList(runs[..n]), RunPrefixes(runs[n]), f);
      RunPrefixesFamily(runs[n]);
      CountOne(RunPrefixes(runs[n]), runs[n].family, f);
    }
  }

  // --- The pinned maps ---------------------------------------------------------------------

  ghost predicate Recorded(history: seq<Maps>, states: seq<State>) {
    |history| == |states| && forall i :: 0 <= i < |history| ==> history[i] == states[i].maps
  }

  class PinnedMaps {
    var maps: Maps
    /** When set, no kernel call fails. */
    var reliable: bool
    /** The maps after every step, so that a crash can take them from there. */
    var history: seq<Maps>
    ghost var states: seq<State>
    ghost var steps: seq<Step>

    ghost predicate Valid()
      reads this
    {
      Behaviour(states, steps) && Now().maps == maps && Recorded(history, states)
    }

    ghost function Now(): State
      requires |states| > 0
      reads this
    {
      states[|states| - 1]
    }

    ghost predicate Extends(states0: seq<State>, steps0: seq<Step>)
      reads this
    {
      states0 <= states && steps0 <= steps
    }

    constructor ()
      ensures Valid() && Now() == FRESH
    {
      maps := EMPTY;
      reliable := false;
      history, states, steps := [EMPTY], [FRESH], [];
    }

    method Record(ghost step: Step, ghost t: State)
      requires Behaviour(states, steps) && Next(Now(), step, t) && t.maps == maps && Recorded(history, states)
      modifies this`history, this`states, this`steps
      ensures states == old(states) + [t] && steps == old(steps) + [step]
      ensures Valid() && Now() == t
    {
      hide Next;
      ghost var more := states + [t];
      forall i, j | 0 <= i && j == i + 1 < |more|
        ensures Next(more[i], (steps + [step])[i], more[j])
      {
        assert j < |states| ==> more[j] == states[j] && (steps + [step])[i] == steps[i];
        assert more[i] == states[i];
      }
      history := history + [maps];
      states, steps := more, steps + [step];
    }

    /** The process dies after step `n`; the maps stay as they were then. */
    method CrashAt(n: nat)
      requires Valid() && n < |states|
      modifies this`maps, this`history, this`states, this`steps
      ensures Valid() && states == old(states[..n + 1]) + [Now()] && steps == old(steps[..n]) + [Crash]
      ensures Now() == old(states[n]).(phase := Down)
    {
      hide Next;
      CrashAnywhere(states, steps, n);
      maps := history[n];
      history := history[..n + 1] + [maps];
      states, steps := states[..n + 1] + [states[n].(phase := Down)], steps[..n] + [Crash];
    }

    method InsertPrefix(slot: nat, p: AddressPrefix) returns (ok: bool)
      requires Valid() && Now().phase.Filling? && slot == Now().Spare()
      modifies this`maps, this`history, this`states, this`steps
      ensures Valid() && Extends(old(states), old(steps)) && (reliable ==> ok)
      ensures Now().phase == old(Now().phase) && Now().published == old(Now().published)
      ensures maps.control == old(maps.control)
      ensures maps.Slot(slot) == old(maps.Slot(slot)) + if ok then {p} else {}
      ensures steps == old(steps) + if ok then [Insert(slot, p)] else []
    {
      ok := Request(reliable);
      if ok {
        AlwaysSafe(states, steps, |states| - 1);
        maps := maps.SetTrie(p.family, slot, maps.TrieOf(p.family, slot) + {p});
        Record(Insert(slot, p), Now().(maps := maps));
      }
    }

    method RemovePrefix(slot: nat, p: AddressPrefix) returns (ok: bool)
      requires Valid() && slot == Now().Spare() && p in maps.TrieOf(p.family, slot)
      requires Now().phase.Clearing? || Now().phase.Rejecting? || Now().phase.Sweeping?
      modifies this`maps, this`history, this`states, this`steps
      ensures Valid() && Extends(old(states), old(steps)) && (reliable ==> ok)
      ensures Now().phase == old(Now().phase) && Now().published == old(Now().published)
      ensures maps.control == old(maps.control)
      ensures forall f :: maps.TrieOf(f, slot) == old(maps.TrieOf(f, slot)) - if ok && f == p.family then {p} else {}
      ensures steps == old(steps) + if ok then [Remove(slot, p)] else []
    {
      ok := Request(reliable);
      if ok {
        maps := maps.SetTrie(p.family, slot, maps.TrieOf(p.family, slot) - {p});
        Record(Remove(slot, p), Now().(maps := maps));
      }
    }

    method SetControl(slot: nat) returns (ok: bool)
      requires Valid() && Now().phase.Filling? && slot == Now().Spare()
      requires Now().phase.list == Some(maps.Slot(slot))
      modifies this`maps, this`history, this`states, this`steps
      ensures Valid() && Extends(old(states), old(steps)) && (reliable ==> ok)
      ensures ok ==>
        Now() == State(old(maps).(control := Control(LAYOUT_VERSION, slot)), Sweeping, old(Now().phase.list.value))
      ensures !ok ==> Now() == old(Now())
      ensures steps == old(steps) + if ok then [Publish] else []
    {
      ok := Request(reliable);
      if ok {
        ghost var list := Now().phase.list.value;
        maps := maps.(control := Control(LAYOUT_VERSION, slot));
        Record(Publish, State(maps, Sweeping, list));
      }
    }
  }

  /** No step of `steps` from index `n` on begins a reload. */
  ghost predicate NoBegin(steps: seq<Step>, n: nat) {
    forall k :: n <= k < |steps| ==> !steps[k].Begin?
  }

  datatype XdpConfig = XdpConfig(ipv4MaxEntries: nat, ipv6MaxEntries: nat, populateBatch: nat) {
    function Capacity(f: Family): nat {
      match f
      case V4 => ipv4MaxEntries
      case V6 => ipv6MaxEntries
    }
  }

  /** A control word that no cidrwall of this layout has written. */
  predicate Foreign(control: Control) {
    control.layoutVersion > 1 || (control.layoutVersion == 1 && control.activeSlot > 1)
  }

  /** Prefixes inserted so far, by family. */
  datatype Counts = Counts(ipv4: nat, ipv6: nat) {
    function Of(f: Family): nat {
      match f
      case V4 => ipv4
      case V6 => ipv6
    }

    function Add(f: Family): Counts {
      match f
      case V4 => this.(ipv4 := ipv4 + 1)
      case V6 => this.(ipv6 := ipv6 + 1)
    }
  }

  class XdpManager {
    const pinned: PinnedMaps
    const config: XdpConfig

    ghost predicate Valid()
      reads pinned
    {
      pinned.Valid() && config.populateBatch > 0
    }

    constructor (pinned: PinnedMaps, config: XdpConfig)
      ensures this.pinned == pinned && this.config == config
    {
      this.pinned, this.config := pinned, config;
    }

    /** The control part of `new`: adopt pinned maps, initialise fresh ones, refuse others. */
    static method Open(pinned: PinnedMaps, config: XdpConfig) returns (r: Result<XdpManager, XdpError>)
      requires (pinned.Valid() && pinned.Now().phase.Down?) || Foreign(pinned.maps.control)
      requires config.populateBatch > 0
      modifies pinned
      ensures old(pinned.Valid()) ==>
        && pinned.Valid() && pinned.Extends(old(pinned.states), old(pinned.steps))
        && pinned.Now().published == old(pinned.Now().published)
        && (r.Err? ==> pinned.Now() == old(pinned.Now()))
        && (r.Ok? ==>
              r.value.Valid() && r.value.pinned == pinned && r.value.config == config && pinned.Now().phase.Idle?)
        && pinned.steps == old(pinned.steps) + (if r.Ok? then [Restart] else [])
        && (pinned.reliable ==> r.Ok?)
      // Maps of another layout are refused and left alone.
      ensures old(Foreign(pinned.maps.control)) ==>
        r.Err? && unchanged(pinned) && (pinned.reliable ==> r == Err(Incompatible))
      ensures pinned.reliable == old(pinned.reliable)
    {
      if pinned.Valid() {
        AlwaysSafe(pinned.states, pinned.steps, |pinned.states| - 1);
      }
      var ok := Request(pinned.reliable);
      if !ok {
        return Err(Kernel);
      }
      var current := pinned.maps.control;
      if current.layoutVersion == 0 {
        ok := Request(pinned.reliable);
        if !ok {
          return Err(Kernel);
        }
        pinned.maps := pinned.maps.(control := Control(LAYOUT_VERSION, 0));
      } else if current.layoutVersion != LAYOUT_VERSION || current.activeSlot >= SLOT_COUNT {
        return Err(Incompatible);
      }
      pinned.Record(Restart, pinned.Now().(phase := Idle, maps := pinned.maps));
      var manager := new XdpManager(pinned, config);
      return Ok(manager);
    }

    /** The control check of `reconcile`: in no run is a map of ours found incompatible, and any other one is. */
    method Reconcile() returns (r: Result<(), XdpError>)
      requires
        || (Valid() && pinned.Now().phase.Idle?)
        || Foreign(pinned.maps.control) || pinned.maps.control.layoutVersion == 0
      ensures Valid() && pinned.Now().phase.Idle? ==> (r.Ok? || r == Err(Kernel)) && (pinned.reliable ==> r.Ok?)
      ensures Foreign(pinned.maps.control) || pinned.maps.control.layoutVersion == 0 ==>
        r.Err? && (pinned.reliable ==> r == Err(Incompatible))
    {
      if Valid() {
        AlwaysSafe(pinned.states, pinned.steps, |pinned.states| - 1);
      }
      var ok := Request(pinned.reliable);
      if !ok {
        return Err(Kernel);
      }
      var state := pinned.maps.control;
      if state.layoutVersion != LAYOUT_VERSION || state.activeSlot >= SLOT_COUNT {
        return Err(Incompatible);
      }
      return Ok(());
    }

    /** What the steps of one call may do: extend the trail, publish nothing, begin nothing. */
    twostate predicate Kept()
      reads pinned
    {
      && old(Valid()) && Valid() && pinned.Extends(old(pinned.states), old(pinned.steps))
      && NoBegin(pinned.steps, |old(pinned.steps)|)
      && pinned.Now().phase == old(pinned.Now().phase)
      && pinned.Now().published == old(pinned.Now().published)
      && pinned.maps.control == old(pinned.maps.control)
      && pinned.reliable == old(pinned.reliable)
    }

    method ClearTrie(f: Family, slot: nat) returns (ok: bool)
      requires Valid() && slot == pinned.Now().Spare()
      requires pinned.Now().phase.Clearing? || pinned.Now().phase.Rejecting? || pinned.Now().phase.Sweeping?
      modifies pinned
      ensures Kept() && (pinned.reliable ==> ok)
      ensures ok ==> pinned.maps.TrieOf(f, slot) == {}
      ensures forall g :: g != f ==> pinned.maps.TrieOf(g, slot) == old(pinned.maps.TrieOf(g, slot))
    {
      ok := Request(pinned.reliable);
      if !ok {
        return;
      }
      AlwaysSafe(pinned.states, pinned.steps, |pinned.states| - 1);
      var keys := pinned.maps.TrieOf(f, slot);
      while keys != {}
        invariant Kept()
        invariant slot == pinned.Now().Spare()
        invariant keys == pinned.maps.TrieOf(f, slot) && forall p <- keys :: p.family == f
        invariant forall g :: g != f ==> pinned.maps.TrieOf(g, slot) == old(pinned.maps.TrieOf(g, slot))
        decreases keys
      {
        var key :| key in keys;
        ok := pinned.RemovePrefix(slot, key);
        if !ok {
          return;
        }
        keys := keys - {key};
      }
    }

    method ClearSlot(slot: nat) returns (ok: bool)
      requires Valid() && slot == pinned.Now().Spare()
      requires pinned.Now().phase.Clearing? || pinned.Now().phase.Rejecting? || pinned.Now().phase.Sweeping?
      modifies pinned
      ensures Kept() && (pinned.reliable ==> ok)
      ensures ok ==> pinned.maps.Slot(slot) == {}
    {
      ok := ClearTrie(V4, slot);
      if ok {
        ok := ClearTrie(V6, slot);
      }
    }

    /** The spare slot holds exactly `done`, and the counters count it. */
    ghost predicate Filled(slot: nat, done: seq<AddressPrefix>, n: Counts)
      reads pinned
    {
      && pinned.maps.Slot(slot) == PrefixSet(done)
      && (forall f :: n.Of(f) == CountF(done, f) <= config.Capacity(f))
    }

    method InsertOne(slot: nat, p: AddressPrefix, n: Counts, ghost done: seq<AddressPrefix>)
      returns (m: Counts, error: Option<XdpError>)
      requires Valid() && slot == pinned.Now().Spare() && pinned.Now().phase.Filling? && Filled(slot, done, n)
      modifies pinned
      ensures Kept()
      ensures error.None? ==> Filled(slot, done + [p], m)
      ensures error.Some? ==> error.value == Kernel || error.value == Capacity(p.family)
      ensures error == Some(Kernel) ==> !pinned.reliable
      ensures error == Some(Capacity(p.family)) ==> CountF(done + [p], p.family) > config.Capacity(p.family)
    {
      assert (done + [p])[..|done|] == done;
      assert PrefixSet(done + [p]) == PrefixSet(done) + {p};
      m, error := n, None;
      if n.Of(p.family) >= config.Capacity(p.family) {
        return n, Some(Capacity(p.family));
      }
      var ok := pinned.InsertPrefix(slot, p);
      if !ok {
        return n, Some(Kernel);
      }
      m := n.Add(p.family);
    }

    /** Insertion stopped somewhere in `all`, for one of two reasons. */
    ghost predicate Refused(error: XdpError, all: seq<AddressPrefix>)
      reads pinned
    {
      || (error == Kernel && !pinned.reliable)
      || (error.Capacity? && CountF(all, error.family) > config.Capacity(error.family))
    }

    lemma RefusedLater(error: XdpError, all: seq<AddressPrefix>, more: seq<AddressPrefix>)
      requires Refused(error, all) && all <= more
      ensures Refused(error, more)
    {
      if error.Capacity? {
        CountMonotone(all, more, error.family);
      }
    }

    method InsertInterval(slot: nat, interval: AddressInterval, n: Counts, ghost done: seq<AddressPrefix>)
      returns (m: Counts, error: Option<XdpError>)
      requires Valid() && slot == pinned.Now().Spare() && pinned.Now().phase.Filling? && Filled(slot, done, n)
      requires interval.Valid()
      modifies pinned
      ensures Kept()
      ensures var all := done + Decompose(interval.family, interval.first, interval.Stop());
        if error.None? then Filled(slot, all, m) else Refused(error.value, all)
    {
      var prefixes := IntervalPrefixes(interval);
      m, error := n, None;
      assert done + prefixes[..0] == done;
      for i := 0 to |prefixes|
        invariant error.None?
        invariant Kept() && slot == pinned.Now().Spare()
        invariant Filled(slot, done + prefixes[..i], m)
      {
        ghost var so := done + prefixes[..i];
        assert done + prefixes[..i + 1] == so + [prefixes[i]];
        m, error := InsertOne(slot, prefixes[i], m, so);
        if error.Some? {
          RefusedLater(error.value, so + [prefixes[i]], done + prefixes);
          return;
        }
      }
      assert prefixes[..|prefixes|] == prefixes;
    }

    method InsertChunk(slot: nat, chunk: Chunk, n: Counts, ghost before: Chunk)
      returns (m: Counts, error: Option<XdpError>)
      requires Valid() && slot == pinned.Now().Spare() && pinned.Now().phase.Filling?
      requires (forall iv <- before + chunk :: iv.Valid()) && (forall iv <- before :: iv.Valid())
      requires Filled(slot, PrefixesOf(before), n)
      modifies pinned
      ensures Kept()
      ensures if error.None? then Filled(slot, PrefixesOf(before + chunk), m)
        else Refused(error.value, PrefixesOf(before + chunk))
    {
      hide PrefixesOf, XdpManager.Filled, XdpManager.Refused, CountF, PrefixSet;
      m, error := n, None;
      assert before + chunk[..0] == before;
      for i := 0 to |chunk|
        invariant error.None?
        invariant Kept() && slot == pinned.Now().Spare()
        invariant forall iv <- before + chunk[..i] :: iv.Valid()
        invariant Filled(slot, PrefixesOf(before + chunk[..i]), m)
      {
        ChunkStep(before, chunk, i);
        ghost var so := PrefixesOf(before + chunk[..i]);
        m, error := InsertInterval(slot, chunk[i], m, so);
        if error.Some? {
          RefusedLater(error.value, PrefixesOf(before + chunk[..i + 1]), PrefixesOf(before + chunk));
          return;
        }
      }
      assert chunk[..|chunk|] == chunk;
    }

    /** The chunks handed to the callback, inserted in order until one is refused. */
    method InsertAll(slot: nat, sent: seq<Chunk>) returns (error: Option<XdpError>)
      requires Valid() && slot == pinned.Now().Spare() && pinned.Now().phase.Filling?
      requires pinned.maps.Slot(slot) == {}
      requires forall iv <- Flatten(sent) :: iv.Valid()
      modifies pinned
      ensures Kept()
      ensures if error.None? then exists n :: Filled(slot, PrefixesOf(Flatten(sent)), n)
              else Refused(error.value, PrefixesOf(Flatten(sent)))
    {
      hide XdpManager.Refused;
      var n := Counts(0, 0);
      error := None;
      assert sent[..0] == [] && Flatten([]) == [];
      assert forall f :: n.Of(f) == 0;
      for i := 0 to |sent|
        invariant error.None?
        invariant Kept() && slot == pinned.Now().Spare()
        invariant forall iv <- Flatten(sent[..i]) :: iv.Valid()
        invariant Filled(slot, PrefixesOf(Flatten(sent[..i])), n)
      {
        ghost var so := Flatten(sent[..i]);
        FlattenTake(sent, i);
        assert Flatten(sent[..i + 1]) == so + sent[i];
        assert forall iv <- so + sent[i] :: iv.Valid();
        n, error := InsertChunk(slot, sent[i], n, so);
        if error.Some? {
          PrefixesMonotone(so + sent[i], Flatten(sent));
          RefusedLater(error.value, PrefixesOf(so + sent[i]), PrefixesOf(Flatten(sent)));
          return;
        }
      }
      assert sent[..|sent|] == sent;
    }
  
    /** A phase change; the kernel is not touched. */
    method Enter(ghost step: Step, ghost phase: Phase)
      requires Valid() && Next(pinned.Now(), step, pinned.Now().(phase := phase))
      modifies pinned`history, pinned`states, pinned`steps
      ensures Valid() && pinned.Now() == old(pinned.Now()).(phase := phase)
      ensures pinned.states == old(pinned.states) + [pinned.Now()] && pinned.steps == old(pinned.steps) + [step]
    {
      pinned.Record(step, pinned.Now().(phase := phase));
    }

    /** Read the file and fill the spare slot. On success the slot holds exactly what the file publishes. */
    method Stage(slot: nat, file: Option<seq<Line>>) returns (error: Option<XdpError>)
      requires file.Some?
      requires Valid() && slot == pinned.Now().Spare() && pinned.Now().phase.Filling?
      requires pinned.maps.Slot(slot) == {}
      modifies pinned
      ensures Kept()
      ensures error.None? ==> Publishes(file) == Some(pinned.maps.Slot(slot)) && Fits(file.value, config)
      ensures Publishes(file).Some? && error.Some? ==>
        (error == Some(Kernel) && !pinned.reliable)
        || (error.value.Capacity? && Need(Runs(file.value), error.value.family) > config.Capacity(error.value.family))
    {
      hide Outcome, Canonical, Runs, Need, SealAll, WellPacked, StatsOf;
      var lines := file.value;
      var sent, result := StreamChunks(lines, config.populateBatch, k => true);
      StreamFacts(lines, config.populateBatch, k => true, sent, result);
      StreamedAreValid(lines, config.populateBatch, k => true, sent, result);
      error := InsertAll(slot, sent);
      if error.None? && result.Err? {
        error := Some(Stream(result.error));
      }
      if Publishes(file).Some? {
        RunsAreNormal(lines);
        SealedPrefixes(Runs(lines));
        NeedCounts(Runs(lines), V4);
        NeedCounts(Runs(lines), V6);
      }
    }

    method Reload(file: Option<seq<Line>>) returns (r: Result<(), XdpError>)
      requires Valid() && pinned.Now().phase.Idle?
      modifies pinned
      ensures Valid() && pinned.Now().phase.Idle? && pinned.Extends(old(pinned.states), old(pinned.steps))
      // One reload: exactly one step begins one.
      ensures |pinned.steps| > |old(pinned.steps)| && NoBegin(pinned.steps, |old(pinned.steps)| + 1)
      ensures pinned.steps[|old(pinned.steps)|] == Begin(Publishes(file))
      // All or nothing, and success is the control write.
      ensures r.Ok? <==> pinned.maps.Active() != old(pinned.maps.Active())
      ensures r.Ok? ==> Publishes(file) == Some(pinned.Now().published) && Fits(file.value, config)
      ensures r.Err? ==> pinned.Now().published == old(pinned.Now().published)
      // With a kernel that does not fail, exactly the canonical files that fit are published.
      ensures pinned.reliable == old(pinned.reliable)
      ensures pinned.reliable && Publishes(file).Some? ==> (r.Ok? <==> Fits(file.value, config))
      ensures pinned.reliable && Publishes(file).Some? && r.Err? ==>
        r.error.Capacity? && Need(Runs(file.value), r.error.family) > config.Capacity(r.error.family)
      // Nothing of the other list is left behind.
      ensures pinned.reliable ==> pinned.maps.Slot(pinned.Now().Spare()) == {}
    {
      hide Publishes, Fits, Need, Behaviour, Maps.Slot;
      Enter(Begin(Publishes(file)), Clearing(Publishes(file)));
      r := Attempt(file);
      Enter(Return, Idle);
    }

    /** A reload after it has begun; the trail shows what it did whichever way it ends. */
    method Attempt(file: Option<seq<Line>>) returns (r: Result<(), XdpError>)
      requires Valid() && pinned.Now().phase == Clearing(Publishes(file))
      modifies pinned
      ensures Progressed()
      ensures r.Ok? <==> pinned.maps.Active() != old(pinned.maps.Active())
      ensures r.Ok? ==> Publishes(file) == Some(pinned.Now().published) && Fits(file.value, config)
      ensures r.Err? ==> pinned.Now().published == old(pinned.Now().published)
      ensures pinned.reliable && Publishes(file).Some? ==> (r.Ok? <==> Fits(file.value, config))
      ensures pinned.reliable && Publishes(file).Some? && r.Err? ==>
        r.error.Capacity? && Need(Runs(file.value), r.error.family) > config.Capacity(r.error.family)
      ensures pinned.reliable ==> pinned.maps.Slot(pinned.Now().Spare()) == {}
    {
      hide Publishes, Need, Maps.Slot, Behaviour;
      var slots := SpareReady();
      if slots.None? {
        return Err(Kernel);
      }
      var (active, inactive) := slots.value;
      OpenSlot(file);
      if file.None? {
        NothingToPublish(file);
        return Err(NoFile);
      }
      var error := Stage(inactive, file);
      if error.Some? {
        Discard(inactive);
        return Err(error.value);
      }
      var ok := Commit(active, inactive);
      r := if ok then Ok(()) else Err(Kernel);
    }

    lemma NothingToPublish(file: Option<seq<Line>>)
      ensures file.None? ==> Publishes(file).None?
    {
    }

    method OpenSlot(ghost file: Option<seq<Line>>)
      requires Valid() && pinned.Now().phase == Clearing(Publishes(file))
      requires pinned.maps.Slot(pinned.Now().Spare()) == {}
      modifies pinned`history, pinned`states, pinned`steps
      ensures Progressed() && pinned.maps == old(pinned.maps) && pinned.Now().published == old(pinned.Now().published)
      ensures pinned.Now().phase == Filling(Publishes(file))
    {
      Enter(Cleared, Filling(Publishes(file)));
    }

    /** The reload is still under way: the trail grew, without beginning another one. */
    twostate predicate Progressed()
      reads pinned
    {
      && old(Valid()) && Valid() && pinned.Extends(old(pinned.states), old(pinned.steps))
      && NoBegin(pinned.steps, |old(pinned.steps)|)
      && !pinned.Now().phase.Quiet()
      && pinned.reliable == old(pinned.reliable)
    }

    /** A rejected list: clear what was staged, as far as the kernel lets us. */
    method Discard(slot: nat)
      requires Valid() && slot == pinned.Now().Spare() && pinned.Now().phase.Filling?
      modifies pinned
      ensures Progressed() && pinned.Now().published == old(pinned.Now().published)
      ensures pinned.maps.control == old(pinned.maps.control)
      ensures pinned.reliable ==> pinned.maps.Slot(pinned.Now().Spare()) == {}
    {
      Enter(Reject, Rejecting);
      var _ := ClearSlot(slot);
    }

    /** Flip the control word, then clear the slot that went out of use. */
    method Commit(active: nat, inactive: nat) returns (ok: bool)
      requires Valid() && active == pinned.maps.Active() < SLOT_COUNT && inactive == pinned.Now().Spare()
      requires pinned.Now().phase.Filling? && pinned.Now().phase.list == Some(pinned.maps.Slot(inactive))
      modifies pinned
      ensures Progressed() && (pinned.reliable ==> ok)
      ensures pinned.maps.Active() == if ok then inactive else active
      ensures pinned.Now().published == if ok then old(pinned.Now().phase.list.value) else old(pinned.Now().published)
      ensures pinned.reliable ==> pinned.maps.Slot(pinned.Now().Spare()) == {}
    {
      ok := pinned.SetControl(inactive);
      if ok {
        var _ := ClearSlot(active);
      }
    }

    /** Read which slot is active and clear the other one. */
    method SpareReady() returns (slots: Option<(nat, nat)>)
      requires Valid() && pinned.Now().phase.Clearing?
      modifies pinned
      ensures Kept() && (pinned.reliable ==> slots.Some?)
      ensures slots.Some? ==>
        && slots.value.0 == pinned.maps.Active() && slots.value.1 == pinned.Now().Spare() && slots.value.0 < SLOT_COUNT
        && pinned.maps.Slot(slots.value.1) == {}
    {
      var ok := Request(pinned.reliable);
      if !ok {
        return None;
      }
      AlwaysSafe(pinned.states, pinned.steps, |pinned.states| - 1);
      var active := pinned.maps.control.activeSlot;
      var inactive := 1 - active;
      ok := ClearSlot(inactive);
      slots := if ok then Some((active, inactive)) else None;
    }
  }

  /** Whatever the outcome, the callback only ever sees well-formed intervals. */
  lemma StreamedAreValid(lines: seq<Line>, limit: nat, emitOk: nat -> bool,
                         sent: seq<Chunk>, result: Result<StreamStats, StreamError>)
    requires Outcome(lines, limit, emitOk, sent, result)
    ensures forall iv <- Flatten(sent) :: iv.Valid()
  {
    var i :=
      if result.Ok? then |lines|
      else if result.error.Rejected? then result.error.line - 1
      else FailedAt(lines, limit, emitOk, sent);
    assert lines[..|lines|] == lines;
    RunsAreNormal(lines[..i]);
    SealedPrefixes(Runs(lines[..i]));
  }

  ghost function FailedAt(lines: seq<Line>, limit: nat, emitOk: nat -> bool, sent: seq<Chunk>): (i: nat)
    requires Outcome(lines, limit, emitOk, sent, Err(EmitFailed))
    ensures i <= |lines| && Canonical(lines[..i]) && Stopped(sent, SealAll(Runs(lines[..i])), limit, emitOk)
  {
    var i: nat :| i <= |lines| && Canonical(lines[..i]) && Stopped(sent, SealAll(Runs(lines[..i])), limit, emitOk);
    i
  }

  /** The prefix set a canonical file publishes; a file that will be rejected publishes nothing. */
  ghost function Publishes(file: Option<seq<Line>>): Option<Trie> {
    if file.Some? && Canonical(file.value) then Some(Target(file.value)) else None
  }

  /** Enough room for every family of a canonical file. */
  ghost predicate Fits(lines: seq<Line>, config: XdpConfig) {
    forall f :: Need(Runs(lines), f) <= config.Capacity(f)
  }

  lemma {:induction false} FlattenTake(sent: seq<Chunk>, i: nat)
    requires i < |sent|
    ensures Flatten(sent[..i + 1]) == Flatten(sent[..i]) + sent[i]
    ensures Flatten(sent[..i + 1]) <= Flatten(sent)
    decreases |sent| - i
  {
    assert sent[..i + 1] == sent[..i] + [sent[i]];
    FlattenSnoc(sent[..i], sent[i]);
    if i + 1 < |sent| {
      FlattenTake(sent, i + 1);
    } else {
      assert sent[..i + 1] == sent;
    }
  }

  // --- Runs --------------------------------------------------------------------------------

  /** How far the reload that began at `i` has got at `k`, told from the control word. */
  ghost predicate Underway(s: State, t: State, list: Option<Trie>) {
    if t.maps.Active() == s.maps.Active() then
      && t.published == s.published
      && (t.phase.Clearing? || t.phase.Filling? ==> t.phase.list == list)
    else
      list.Some? && t.published == list.value && !t.phase.Clearing? && !t.phase.Filling?
  }

  lemma UnderwayStep(s: State, t: State, step: Step, u: State, list: Option<Trie>)
    requires Safe(t) && Underway(s, t, list) && Next(t, step, u) && !step.Begin?
    ensures Underway(s, u, list)
    ensures u.maps.Active() != s.maps.Active() <==> t.maps.Active() != s.maps.Active() || step.Publish?
  {
  }

  /** A control write of a reload is among the steps `i .. k`. */
  ghost predicate Written(steps: seq<Step>, i: nat, k: nat) {
    exists n :: i <= n < k && n < |steps| && steps[n].Publish?
  }

  lemma WrittenStep(steps: seq<Step>, i: nat, k: nat)
    requires i <= k < |steps|
    ensures !Written(steps, i, i)
    ensures Written(steps, i, k + 1) <==> Written(steps, i, k) || steps[k].Publish?
  {
    if steps[k].Publish? {
      assert i <= k < k + 1 && steps[k].Publish?;
    }
    if Written(steps, i, k) {
      var n :| i <= n < k && n < |steps| && steps[n].Publish?;
      assert i <= n < k + 1;
    }
  }

  /** Adding steps at the end does not touch what is told of the earlier ones. */
  lemma WrittenKept(steps: seq<Step>, more: seq<Step>, i: nat, k: nat)
    requires steps <= more && k <= |steps|
    ensures Written(more, i, k) <==> Written(steps, i, k)
  {
  }

  /**
   Between its begin and the next one, a reload has published its list exactly when its
   control write has been made, which is when the control word has moved.
   */
  lemma {:induction false} ReloadInTrail(states: seq<State>, steps: seq<Step>, i: nat, k: nat, list: Option<Trie>)
    requires Behaviour(states, steps) && i < k <= |steps|
    requires steps[i] == Begin(list) && forall n :: i < n < k ==> !steps[n].Begin?
    ensures Underway(states[i], states[k], list)
    ensures Written(steps, i, k) <==> states[k].maps.Active() != states[i].maps.Active()
  {
    hide Safe, Underway, Written;
    WrittenStep(steps, i, k - 1);
    if k == i + 1 {
      Begins(states[i], states[k], list);
    } else {
      ReloadInTrail(states, steps, i, k - 1, list);
      AlwaysSafe(states, steps, k - 1);
      UnderwayStep(states[i], states[k - 1], steps[k - 1], states[k], list);
    }
  }

  lemma Begins(s: State, t: State, list: Option<Trie>)
    requires Next(s, Begin(list), t)
    ensures Underway(s, t, list) && t.maps.Active() == s.maps.Active()
  {
  }

  /** `crash` is the number of steps after which the process dies in the middle of the reload. */
  datatype Event =
    | Start(config: XdpConfig)
    | Reload(file: Option<seq<Line>>, crash: Option<nat>)

  /** The list of the last reload whose control write was made. */
  ghost function LastPublished(events: seq<Event>, written: seq<bool>): Trie
    requires |written| == |events|
  {
    if events == [] then
      {}
    else
      var n := |events| - 1;
      NextPublished(events[n], written[n], LastPublished(events[..n], written[..n]))
  }

  ghost function NextPublished(event: Event, written: bool, before: Trie): Trie {
    if event.Reload? && written && Publishes(event.file).Some? then Publishes(event.file).value else before
  }

  lemma PublishedSnoc(events: seq<Event>, written: seq<bool>, i: nat, w: bool)
    requires |written| == i < |events|
    ensures |written + [w]| == |events[..i + 1]|
    ensures LastPublished(events[..i + 1], written + [w]) ==
      NextPublished(events[i], w, LastPublished(events[..i], written))
  {
    assert events[..i + 1][..i] == events[..i] && (written + [w])[..i] == written;
  }

  /** The process at work after the events when no kernel call fails, by its configuration. */
  function Serving(events: seq<Event>): Option<XdpConfig> {
    if events == [] then
      None
    else
      var n := |events| - 1;
      NextServing(events[n], Serving(events[..n]))
  }

  function NextServing(event: Event, before: Option<XdpConfig>): Option<XdpConfig> {
    match event
    case Start(config) => Some(config)
    case Reload(_, crash) => if crash.Some? then None else before
  }

  lemma ServingSnoc(events: seq<Event>, i: nat)
    requires i < |events|
    ensures Serving(events[..i + 1]) == NextServing(events[i], Serving(events[..i]))
  {
    assert events[..i + 1][..i] == events[..i];
  }

  /** A reload of the file can succeed: it is canonical and fits. */
  ghost predicate Accepts(file: Option<seq<Line>>, config: XdpConfig) {
    Publishes(file).Some? && Fits(file.value, config)
  }

  /** The flag of a reload that a process at work brings to its end, when no kernel call fails. */
  ghost predicate FlagDecided(events: seq<Event>, written: seq<bool>, i: nat)
    requires i < |events| && i < |written|
  {
    events[i].Reload? && events[i].crash.None? && Serving(events[..i]).Some? ==>
      (written[i] <==> Accepts(events[i].file, Serving(events[..i]).value))
  }

  lemma DecidedSnoc(events: seq<Event>, written: seq<bool>, i: nat, w: bool)
    requires |written| == i < |events|
    ensures forall k :: 0 <= k < i ==> (FlagDecided(events, written, k) <==> FlagDecided(events, written + [w], k))
    ensures FlagDecided(events, written + [w], i) <==>
      (events[i].Reload? && events[i].crash.None? && Serving(events[..i]).Some? ==>
         (w <==> Accepts(events[i].file, Serving(events[..i]).value)))
  {
    hide Serving, Accepts;
    assert forall k :: 0 <= k < i ==> (written + [w])[k] == written[k];
  }

  /** A reload in a run, cut short by a crash or not; `written` tells whether its control write was made. */
  method ReloadInRun(manager: XdpManager, file: Option<seq<Line>>, crash: Option<nat>)
    returns (written: bool, ok: bool)
    requires manager.Valid() && manager.pinned.Now().phase.Idle?
    modifies manager.pinned
    ensures manager.pinned.Valid()
    ensures if crash.None? then manager.pinned.Now().phase.Idle? else manager.pinned.Now().phase.Down?
    ensures manager.pinned.Extends(old(manager.pinned.states), old(manager.pinned.steps))
    ensures written <==> Written(manager.pinned.steps, |old(manager.pinned.steps)|, |manager.pinned.steps|)
    ensures written ==> Publishes(file) == Some(manager.pinned.Now().published)
    ensures !written ==> manager.pinned.Now().published == old(manager.pinned.Now().published)
    // A reload that runs to its end is begun, succeeds exactly if its control write was made, and that whenever it can.
    ensures crash.None? ==>
      && |manager.pinned.steps| > |old(manager.pinned.steps)|
      && manager.pinned.steps[|old(manager.pinned.steps)|] == Begin(Publishes(file))
    ensures crash.None? ==> (ok <==> written)
    ensures manager.pinned.reliable == old(manager.pinned.reliable)
    ensures crash.None? && manager.pinned.reliable ==> (written <==> Accepts(file, manager.config))
  {
    hide Behaviour, Safe, Publishes, Fits, Maps.Slot, Next;
    var pinned := manager.pinned;
    Counted(pinned);
    var start := |pinned.history| - 1;
    var r := manager.Reload(file);
    ok := r.Ok?;
    Counted(pinned);
    var end := |pinned.history| - 1;
    var n := if crash.Some? && start + crash.value < end then start + crash.value else end;
    ghost var steps := pinned.steps;
    if n > start {
      ReloadInTrail(pinned.states, steps, start, n, Publishes(file));
    } else {
      WrittenStep(steps, start, n);
    }
    written := pinned.history[n].Active() != pinned.history[start].Active();
    if crash.Some? {
      pinned.CrashAt(n);
      CrashWritesNothing(steps, pinned.steps, start, n);
    }
  }

  lemma CrashWritesNothing(steps: seq<Step>, cut: seq<Step>, i: nat, n: nat)
    requires i <= n <= |steps| && cut == steps[..n] + [Crash]
    ensures Written(cut, i, |cut|) <==> Written(steps, i, n)
  {
    hide Written;
    WrittenStep(cut, i, n);
    WrittenKept(steps[..n], steps, i, n);
    WrittenKept(steps[..n], cut, i, n);
  }

  lemma Counted(pinned: PinnedMaps)
    requires pinned.Valid()
    ensures |pinned.history| == |pinned.states| == |pinned.steps| + 1
    ensures forall i :: 0 <= i < |pinned.history| ==> pinned.history[i] == pinned.states[i].maps
  {
  }

  /** Event `i` took the steps `marks[i] .. marks[i + 1]`, and its flag says whether a control write is among them. */
  ghost predicate Flagged(steps: seq<Step>, marks: seq<nat>, written: seq<bool>) {
    && |marks| == |written| + 1 && marks[|written|] == |steps|
    && (forall i, j :: 0 <= i < j < |marks| ==> marks[i] <= marks[j])
    && (forall i, j :: 0 <= i && j == i + 1 < |marks| ==> (written[i] <==> Written(steps, marks[i], marks[j])))
  }

  lemma FlagSnoc(steps: seq<Step>, marks: seq<nat>, written: seq<bool>, more: seq<Step>, w: bool)
    requires Flagged(steps, marks, written) && steps <= more
    requires w <==> Written(more, |steps|, |more|)
    ensures Flagged(more, marks + [|more|], written + [w])
  {
    hide Written;
    var out, flags := marks + [|more|], written + [w];
    forall i, j | 0 <= i && j == i + 1 < |out|
      ensures flags[i] <==> Written(more, out[i], out[j])
    {
      if j < |marks| {
        assert marks[j] <= marks[|written|];
        WrittenKept(steps, more, marks[i], marks[j]);
      }
    }
  }

  lemma NothingWritten(steps: seq<Step>)
    ensures !Written(steps, |steps|, |steps|)
  {
  }

  /** `Open` takes at most one step, and it is not a control write of a reload. */
  lemma OpenWritesNothing(steps: seq<Step>, more: seq<Step>, i: nat)
    requires i <= |steps| && (more == steps || more == steps + [Restart])
    ensures Written(more, i, |more|) <==> Written(steps, i, |steps|)
  {
    hide Written;
    if more != steps {
      WrittenStep(more, i, |steps|);
      WrittenKept(steps, more, i, |steps|);
    }
  }

  /** A new process takes the place of whatever ran before. */
  method StartInRun(pinned: PinnedMaps, config: XdpConfig) returns (manager: XdpManager?)
    requires pinned.Valid() && config.populateBatch > 0
    modifies pinned
    ensures pinned.Valid() && pinned.Extends(old(pinned.states), old(pinned.steps))
    ensures !Written(pinned.steps, |old(pinned.steps)|, |pinned.steps|)
    ensures pinned.Now().published == old(pinned.Now().published)
    ensures manager != null ==>
      manager.pinned == pinned && manager.config == config && manager.Valid() && pinned.Now().phase.Idle?
    ensures manager == null ==> pinned.Now().phase.Down?
    ensures pinned.reliable == old(pinned.reliable) && (pinned.reliable ==> manager != null)
  {
    hide Behaviour, Next, Written, Safe;
    ghost var steps := pinned.steps;
    Counted(pinned);
    NothingWritten(steps);
    pinned.CrashAt(|pinned.history| - 1);
    CrashWritesNothing(steps, pinned.steps, |steps|, |steps|);
    ghost var crashed := pinned.steps;
    var started := XdpManager.Open(pinned, config);
    manager := if started.Ok? then started.value else null;
    OpenWritesNothing(crashed, pinned.steps, |steps|);
  }

  lemma NoFlags(steps: seq<Step>)
    ensures Flagged(steps, [|steps|], [])
  {
  }

  /**
   Any run of processes over one set of pinned maps, each dying wherever it likes, each kernel
   call failing or not: every process finds the maps in order, and the list in force is that of
   the last reload whose control write was made.
   */
  method Life(pinned: PinnedMaps, events: seq<Event>, steady: bool)
    returns (manager: XdpManager?, written: seq<bool>, ghost marks: seq<nat>)
    requires pinned.Valid() && pinned.Now() == FRESH
    requires forall e <- events :: e.Start? ==> e.config.populateBatch > 0
    modifies pinned
    ensures pinned.Valid() && Safe(pinned.Now()) && |written| == |events|
    ensures Flagged(pinned.steps, marks, written) && marks[0] == |old(pinned.steps)|
    ensures pinned.Now().published == LastPublished(events, written) == InForce(pinned.steps)
    ensures manager != null ==> manager.pinned == pinned && manager.Valid() && pinned.Now().phase.Idle?
    // When no kernel call fails the events decide: a reload counts exactly if its file is canonical and fits.
    ensures steady ==>
      && (manager != null <==> Serving(events).Some?)
      && forall i :: 0 <= i < |events| ==> FlagDecided(events, written, i)
  {
    hide Safe, InForce, Next, Recorded, Flagged, Written, Publishes, Fits;
    manager, written, marks := null, [], [|pinned.steps|];
    assert events[..0] == [];
    NoFlags(pinned.steps);
    for i := 0 to |events|
      invariant pinned.Valid() && |written| == i && |marks| == i + 1
      invariant Flagged(pinned.steps, marks, written) && marks[0] == |old(pinned.steps)|
      invariant pinned.Now().published == LastPublished(events[..i], written)
      invariant manager != null ==> manager.pinned == pinned && manager.Valid() && pinned.Now().phase.Idle?
      invariant steady ==> Serving(events[..i]) == if manager != null then Some(manager.config) else None
      invariant steady ==> forall k :: 0 <= k < i ==> FlagDecided(events, written, k)
    {
      hide Behaviour, LastPublished, Serving, Accepts, FlagDecided;
      assert events[i] in events;
      pinned.reliable := *;
      if steady {
        pinned.reliable := true;
      }
      var w := false;
      ghost var steps := pinned.steps;
      NothingWritten(steps);
      ServingSnoc(events, i);
      match events[i] {
        case Start(config) =>
          manager := StartInRun(pinned, config);
        case Reload(file, crash) =>
          if manager != null {
            var ok;
            w, ok := ReloadInRun(manager, file, crash);
            if crash.Some? {
              manager := null;
            }
          }
      }
      PublishedSnoc(events, written, i, w);
      FlagSnoc(steps, marks, written, pinned.steps, w);
      DecidedSnoc(events, written, i, w);
      written, marks := written + [w], marks + [|pinned.steps|];
    }
    assert events[..|events|] == events;
    Orderly(pinned);
  }

  lemma Orderly(pinned: PinnedMaps)
    requires pinned.Valid()
    ensures Safe(pinned.Now()) && pinned.Now().published == InForce(pinned.steps)
  {
    hide Next, Safe, InForce;
    LastWriteRules(pinned.states, pinned.steps, |pinned.states| - 1);
    assert pinned.steps[..|pinned.steps|] == pinned.steps;
    AlwaysSafe(pinned.states, pinned.steps, |pinned.states| - 1);
  }
}
