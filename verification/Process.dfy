/**
 The whole process with both backends: any run of processes, reloads and reconciliations,
 and what the two encodings hold at the end of it.
 */
module Process {
  import opened Wrappers
  import opened Addresses
  import opened Blocklist
  import opened GenerationNames
  import opened Netfilter
  import opened Generations
  import opened Backend
  import opened Staging
  import opened Daemon
  import opened XdpProtocol
  import opened Xdp
  import opened EndToEnd
  import Nftables = Daemon
  import Tries = Xdp

  datatype Event =
    | Start(rules: seq<RenderedRule>, populateBatch: nat, config: XdpConfig, files: Files)
    | Reload(direction: Direction, files: Files, crash: Option<nat>)
    | Reconcile(files: Files)

  /** Whether the nftables part of an event succeeded, and whether its XDP part made its control write. */
  datatype Ending = Ending(nft: bool, written: bool)

  /** The files last loaded: into the sets of the running process, and into the slot in force. */
  datatype Loaded = Loaded(sets: Option<Files>, slot: Option<seq<Line>>)

  function AfterEvent(event: Event, r: Ending, before: Loaded): Loaded {
    match event
    case Start(rules, _, _, files) =>
      Loaded(if r.nft && rules != [] then Some(files) else None, if r.written then files.inbound else before.slot)
    case Reload(d, files, crash) =>
      Loaded(
        if crash.Some? then None
        else if r.nft && before.sets.Some? then Some(before.sets.value.With(d, files.Of(d)))
        else before.sets,
        if r.written then files.inbound else before.slot)
    case Reconcile(_) => before
  }

  function LastLoaded(events: seq<Event>, endings: seq<Ending>): Loaded
    requires |events| == |endings|
  {
    if events == [] then
      Loaded(None, None)
    else
      var n := |events| - 1;
      AfterEvent(events[n], endings[n], LastLoaded(events[..n], endings[..n]))
  }

  lemma LoadedSnoc(events: seq<Event>, endings: seq<Ending>, i: nat, r: Ending)
    requires |endings| == i < |events|
    ensures |endings + [r]| == |events[..i + 1]|
    ensures LastLoaded(events[..i + 1], endings + [r]) == AfterEvent(events[i], r, LastLoaded(events[..i], endings))
  {
    assert events[..i + 1][..i] == events[..i] && (endings + [r])[..i] == endings;
  }

  /** The slot in force publishes the file. */
  ghost predicate InSlot(published: Trie, slot: Option<seq<Line>>) {
    if slot.Some? then Publishes(slot) == Some(published) else published == {}
  }

  /** One process at work: the nftables side holds its files, the XDP side is idle over the same maps. */
  ghost predicate Working(daemon: Daemon, xdp: XdpManager, kernel: Kernel, pinned: PinnedMaps, sets: Option<Files>)
    reads daemon, daemon.backend, daemon.backend.kernel, xdp.pinned
  {
    && daemon.backend.kernel == kernel && Running(daemon, sets)
    && xdp.pinned == pinned && xdp.Valid() && pinned.Now().phase.Idle?
  }

  /** When both sides hold the same inbound file, they agree on every frame. */
  lemma SameFileAgrees(daemon: Daemon, xdp: XdpManager, kernel: Kernel, pinned: PinnedMaps, sets: Option<Files>,
                       slot: Option<seq<Line>>)
    requires Working(daemon, xdp, kernel, pinned, sets) && InSlot(pinned.Now().published, slot)
    requires daemon.Uses(Inbound) && slot.Some? && sets.value.inbound == slot
    ensures Agree(pinned.Now(), kernel.table.table, slot.value)
  {
    hide Agree, Safe, Fresh, Intact, BaseRules;
    AlwaysSafe(pinned.states, pinned.steps, |pinned.states| - 1);
    EveryChain(Dispatch(Inbound));
    Agreement(pinned.Now(), kernel.table.table, daemon.active.value.inbound.value, slot.value);
  }

  /** The first step taken since `steps` begins a reload of the file. */
  ghost predicate Begun(pinned: PinnedMaps, steps: seq<Step>, file: Option<seq<Line>>)
    reads pinned
  {
    steps < pinned.steps && pinned.steps[|steps|] == Begin(Publishes(file))
  }

  /** Every file that a start loads can be loaded: into the sets of the rules, and into the tries. */
  ghost predicate Loadable(event: Event)
    requires event.Start?
  {
    (forall rule <- event.rules :: Usable(event.files.Of(rule.direction))) && Accepts(event.files.inbound, event.config)
  }

  /** The XDP part of an event, for a process that may die in the middle of it. */
  method ReloadTries(xdp: XdpManager, file: Option<seq<Line>>, crash: Option<nat>, ghost slot: Option<seq<Line>>)
    returns (written: bool, ok: bool)
    requires xdp.Valid() && xdp.pinned.Now().phase.Idle? && InSlot(xdp.pinned.Now().published, slot)
    modifies xdp.pinned
    ensures xdp.pinned.Valid()
    ensures if crash.None? then xdp.pinned.Now().phase.Idle? else xdp.pinned.Now().phase.Down?
    ensures InSlot(xdp.pinned.Now().published, if written then file else slot)
    ensures written ==> file.Some?
    // Unless the process dies it is begun, succeeds exactly if its control write was made, and that whenever it can.
    ensures crash.None? ==> Begun(xdp.pinned, old(xdp.pinned.steps), file) && (ok <==> written)
    ensures crash.None? && xdp.pinned.reliable ==> (written <==> Accepts(file, xdp.config))
    ensures xdp.pinned.reliable == old(xdp.pinned.reliable)
  {
    written, ok := Tries.ReloadInRun(xdp, file, crash);
  }

  /**
   Start a process: the XDP side adopts the maps, the nftables side loads, then the tries are loaded.
   No request fails in it if it is `steady`; `bound` lies above every number in the table.
   */
  method Launch(kernel: Kernel, pinned: PinnedMaps, event: Event, steady: bool, ghost slot: Option<seq<Line>>,
                ghost bound: nat)
    returns (daemon: Daemon?, xdp: XdpManager?, r: Ending)
    requires event.Start? && event.populateBatch > 0 && event.config.populateBatch > 0 && event.rules != []
    requires Settled(kernel) && pinned.Valid() && InSlot(pinned.Now().published, slot)
    modifies kernel, pinned
    ensures Settled(kernel) && pinned.Valid()
    ensures InSlot(pinned.Now().published, if r.written then event.files.inbound else slot)
    ensures (daemon != null <==> xdp != null) && (daemon != null <==> r.nft)
    ensures daemon != null ==>
      && fresh(daemon) && fresh(daemon.backend) && Working(daemon, xdp, kernel, pinned, Some(event.files))
      && daemon.rules == event.rules && xdp.config == event.config
    // A process is up only once the tries are loaded ...
    ensures daemon != null ==>
      r.written && event.files.inbound.Some? && Publishes(event.files.inbound) == Some(pinned.Now().published)
    // ... which are not touched before nftables has taken its files ...
    ensures r.written ==> forall rule <- event.rules :: Usable(event.files.Of(rule.direction))
    // ... and when no request fails it comes up exactly if its files can be loaded.
    ensures old(Numbered(Names(kernel.table), bound)) && 1 <= bound && bound + 2 < MAX as nat ==>
      Numbers(kernel, daemon, bound + 2) && (steady ==> (r.nft <==> Loadable(event)))
  {
    hide Intact, Running, Behaviour, Accepts, Publishes, Numbered, Daemon.Tallied, Usable;
    daemon, xdp, r := null, null, Ending(false, false);
    kernel.reliable, pinned.reliable := *, *;
    if steady {
      kernel.reliable, pinned.reliable := true, true;
    }
    NumberedSubset(Names(kernel.table), Names(kernel.table), bound, bound + 2);
    var adopted := Tries.StartInRun(pinned, event.config);
    if adopted == null {
      return;
    }
    var next, loaded := Nftables.StartInRun(kernel, event.rules, event.populateBatch, event.files, bound);
    if next == null {
      return;
    }
    var written, ok := ReloadTries(adopted, event.files.inbound, None, slot);
    r := Ending(ok, written);
    if ok {
      daemon, xdp := next, adopted;
    }
  }

  /** A reload in a working process, and the end of the process if it dies in its XDP part. */
  method ReloadEvent(daemon: Daemon, xdp: XdpManager, d: Direction, files: Files, crash: Option<nat>, steady: bool,
                     ghost before: Loaded)
    returns (r: Ending)
    requires Working(daemon, xdp, daemon.backend.kernel, xdp.pinned, before.sets)
    requires InSlot(xdp.pinned.Now().published, before.slot)
    modifies daemon`active, daemon.backend, daemon.backend.kernel, xdp.pinned
    ensures Settled(daemon.backend.kernel) && xdp.pinned.Valid()
    ensures r.written ==> files.inbound.Some?
    // Each backend is reloaded, whatever becomes of the other, ...
    ensures d == Inbound && crash.None? ==> Begun(xdp.pinned, old(xdp.pinned.steps), files.inbound)
    // ... and when no request fails each one exactly if its file can be loaded.
    ensures steady && crash.None? ==> (r.written <==> d == Inbound && Accepts(files.inbound, xdp.config))
    ensures steady && old(daemon.backend.nextGeneration) < MAX ==>
      (r.nft <==> daemon.Uses(d) && Usable(files.Of(d)))
    ensures Onward(daemon, old(daemon.backend.nextGeneration), old(daemon.Tallied()))
    ensures var after := AfterEvent(Event.Reload(d, files, crash), r, before);
      && InSlot(xdp.pinned.Now().published, after.slot)
      && (crash.None? ==> Working(daemon, xdp, daemon.backend.kernel, xdp.pinned, after.sets))
  {
    hide Intact, Render, Fresh, Numbered, Daemon.Holding, Behaviour, InSlot, Accepts, Publishes, Daemon.Configured;
    Unsettle(daemon, xdp, steady, before.sets);
    var nft, written, done := false, false, false;
    if daemon.Uses(d) {
      var outcome := Nftables.ReloadInRun(daemon, d, files, before.sets);
      nft := outcome.ok;
    }
    if d == Inbound {
      written, done := ReloadTries(xdp, files.inbound, crash, before.slot);
    } else if crash.Some? {
      Counted(xdp.pinned);
      xdp.pinned.CrashAt(|xdp.pinned.history| - 1);
    }
    r := Ending(nft, written);
  }

  /** A reconciliation in a working process. */
  method ReconcileEvent(daemon: Daemon, xdp: XdpManager, files: Files, steady: bool, ghost before: Loaded)
    returns (r: Ending)
    requires Working(daemon, xdp, daemon.backend.kernel, xdp.pinned, before.sets)
    requires InSlot(xdp.pinned.Now().published, before.slot)
    modifies daemon`active, daemon.backend, daemon.backend.kernel, xdp.pinned
    ensures Settled(daemon.backend.kernel) && xdp.pinned.Valid() && InSlot(xdp.pinned.Now().published, before.slot)
    ensures Working(daemon, xdp, daemon.backend.kernel, xdp.pinned, before.sets)
    ensures !r.written && (steady ==> r.nft)
    ensures Onward(daemon, old(daemon.backend.nextGeneration), old(daemon.Tallied()))
  {
    hide Intact, Render, Fresh, Numbered, Daemon.Holding, Behaviour, InSlot, Daemon.Configured;
    Unsettle(daemon, xdp, steady, before.sets);
    var outcome := Nftables.ReconcileInRun(daemon, files, before.sets);
    var checked := xdp.Reconcile();
    r := Ending(outcome.ok && checked.Ok?, false);
  }

  /** From here on the kernel answers requests as it likes, or all of them. */
  method Unsettle(daemon: Daemon, xdp: XdpManager, steady: bool, ghost sets: Option<Files>)
    requires Working(daemon, xdp, daemon.backend.kernel, xdp.pinned, sets)
    modifies daemon.backend.kernel`reliable, xdp.pinned`reliable
    ensures Working(daemon, xdp, daemon.backend.kernel, xdp.pinned, sets)
    ensures xdp.pinned.Now() == old(xdp.pinned.Now())
    ensures daemon.Tallied() == old(daemon.Tallied())
    ensures steady ==> daemon.backend.kernel.reliable && xdp.pinned.reliable
  {
    hide Intact, Render, Fresh, Numbered, Daemon.Holding, Behaviour, Daemon.Configured;
    daemon.backend.kernel.reliable := *;
    xdp.pinned.reliable := *;
    if steady {
      daemon.backend.kernel.reliable := true;
      xdp.pinned.reliable := true;
    }
  }

  /** The table is intact, and marked if it is there. */
  ghost predicate Settled(kernel: Kernel)
    reads kernel
  {
    Intact(kernel.table) && (kernel.table.Present? ==> LAYOUT_MARKER in kernel.table.table.sets)
  }

  // --- Runs --------------------------------------------------------------------------------------

  /** What the process at work was started with. */
  datatype Setup = Setup(rules: seq<RenderedRule>, config: XdpConfig)

  function NextSetup(event: Event, r: Ending, before: Option<Setup>): Option<Setup> {
    match event
    case Start(rules, _, config, _) => if r.nft then Some(Setup(rules, config)) else None
    case Reload(_, _, crash) => if crash.Some? then None else before
    case Reconcile(_) => before
  }

  function LastSetup(events: seq<Event>, endings: seq<Ending>): Option<Setup>
    requires |events| == |endings|
  {
    if events == [] then
      None
    else
      var n := |events| - 1;
      NextSetup(events[n], endings[n], LastSetup(events[..n], endings[..n]))
  }

  /** How an event ends when no request fails, told from the event and the setup of the process at work. */
  ghost predicate Ends(event: Event, setup: Option<Setup>, r: Ending) {
    match event
    case Start(_, _, _, _) => (r.nft <==> Loadable(event)) && (r.nft ==> r.written)
    case Reload(d, files, crash) =>
      && (r.nft <==> setup.Some? && (exists rule <- setup.value.rules :: rule.direction == d) && Usable(files.Of(d)))
      && (crash.None? ==>
            (r.written <==> setup.Some? && d == Inbound && Accepts(files.inbound, setup.value.config)))
    case Reconcile(_) => (r.nft <==> setup.Some?) && !r.written
  }

  ghost predicate Decided(events: seq<Event>, endings: seq<Ending>, i: nat)
    requires i < |events| && i < |endings|
  {
    Ends(events[i], LastSetup(events[..i], endings[..i]), endings[i])
  }

  lemma SetupSnoc(events: seq<Event>, endings: seq<Ending>, i: nat, r: Ending)
    requires |endings| == i < |events|
    ensures |endings + [r]| == |events[..i + 1]|
    ensures LastSetup(events[..i + 1], endings + [r]) == NextSetup(events[i], r, LastSetup(events[..i], endings))
    ensures forall k :: 0 <= k < i ==> (Decided(events, endings, k) <==> Decided(events, endings + [r], k))
    ensures Decided(events, endings + [r], i) <==> Ends(events[i], LastSetup(events[..i], endings), r)
  {
    hide LastSetup, Ends, NextSetup;
    assert events[..i + 1][..i] == events[..i] && (endings + [r])[..i] == endings;
    SetupUnfold(events[..i + 1], endings + [r]);
    assert forall k :: 0 <= k < i ==> (endings + [r])[..k] == endings[..k];
  }

  lemma SetupUnfold(events: seq<Event>, endings: seq<Ending>)
    requires |endings| == |events| && events != []
    ensures var n := |events| - 1;
      LastSetup(events, endings) == NextSetup(events[n], endings[n], LastSetup(events[..n], endings[..n]))
  {
  }

  ghost function SetupOf(daemon: Daemon?, xdp: XdpManager?): Option<Setup> {
    if daemon == null || xdp == null then None else Some(Setup(daemon.rules, xdp.config))
  }

  /** Between two events of a run: kernel and maps are in order and hold what was loaded last. */
  ghost predicate Standing(kernel: Kernel, pinned: PinnedMaps, daemon: Daemon?, xdp: XdpManager?, loaded: Loaded)
    reads kernel, pinned, daemon, if daemon == null then {} else {daemon.backend, daemon.backend.kernel},
          if xdp == null then {} else {xdp.pinned}
  {
    && Settled(kernel) && pinned.Valid() && InSlot(pinned.Now().published, loaded.slot)
    && (daemon != null <==> xdp != null) && (daemon != null <==> loaded.sets.Some?)
    && (daemon != null ==> Working(daemon, xdp, kernel, pinned, loaded.sets) && loaded.slot.Some?)
  }

  /** One event of a run; no request fails in it if it is `steady`. */
  method Happen(kernel: Kernel, pinned: PinnedMaps, daemon: Daemon?, xdp: XdpManager?, event: Event, steady: bool,
                ghost before: Loaded, ghost bound: nat)
    returns (next: Daemon?, tries: XdpManager?, r: Ending)
    requires Standing(kernel, pinned, daemon, xdp, before)
    requires event.Start? ==> event.populateBatch > 0 && event.config.populateBatch > 0 && event.rules != []
    modifies kernel, pinned, if daemon == null then {} else {daemon, daemon.backend}
    ensures Standing(kernel, pinned, next, tries, AfterEvent(event, r, before))
    ensures next != null && next != daemon ==> fresh(next) && fresh(next.backend)
    ensures SetupOf(next, tries) == NextSetup(event, r, SetupOf(daemon, xdp))
    ensures event.Start? && r.nft ==> r.written
    ensures old(Numbers(kernel, daemon, bound)) && 1 <= bound && bound + 2 < MAX as nat ==>
      Numbers(kernel, next, bound + 2) && (steady ==> Ends(event, SetupOf(daemon, xdp), r))
  {
    hide Intact, Render, Fresh, Numbered, Daemon.Holding, Behaviour, InSlot, Accepts, Publishes, Usable, Loadable,
      Daemon.Configured;
    next, tries, r := daemon, xdp, Ending(false, false);
    NumberedSubset(Names(kernel.table), Names(kernel.table), bound, bound + 2);
    match event {
      case Start(rules, populateBatch, config, files) =>
        next, tries, r := Launch(kernel, pinned, event, steady, before.slot, bound);
      case Reload(d, files, crash) =>
        if daemon != null {
          r := ReloadEvent(daemon, xdp, d, files, crash, steady, before);
          NumberedSubset(Names(kernel.table), Names(kernel.table), daemon.backend.nextGeneration as nat, bound + 2);
        }
        if crash.Some? {
          next, tries := null, null;
        }
      case Reconcile(files) =>
        if daemon != null {
          r := ReconcileEvent(daemon, xdp, files, steady, before);
          NumberedSubset(Names(kernel.table), Names(kernel.table), daemon.backend.nextGeneration as nat, bound + 2);
        }
    }
  }

  /**
   Any run of processes with both backends over one kernel and one set of pinned maps that
   nobody else touches. Whatever fails and wherever a process dies, the sets hold exactly the
   files last loaded into them and the slot in force exactly the inbound file last written;
   while these are the same inbound file, both backends agree on every frame. When no request
   fails the events alone decide every outcome, as long as there are generation numbers left
   for two per event.
   */
  method Life(kernel: Kernel, pinned: PinnedMaps, events: seq<Event>, steady: bool)
    returns (daemon: Daemon?, xdp: XdpManager?, endings: seq<Ending>)
    requires kernel.table == Absent && pinned.Valid() && pinned.Now() == FRESH
    requires forall e <- events :: e.Start? ==> e.populateBatch > 0 && e.config.populateBatch > 0 && e.rules != []
    modifies kernel, pinned
    ensures |endings| == |events| && pinned.Valid()
    ensures (daemon != null <==> xdp != null) && (daemon != null <==> LastLoaded(events, endings).sets.Some?)
    ensures var last := LastLoaded(events, endings);
      && InSlot(pinned.Now().published, last.slot)
      && (daemon != null ==> Working(daemon, xdp, kernel, pinned, last.sets))
      && (daemon != null && daemon.Uses(Inbound) && last.slot.Some? && last.sets.value.inbound == last.slot ==>
            Agree(pinned.Now(), kernel.table.table, last.slot.value))
    // No process works before its tries are loaded, and one that has just come up has both backends agree on its file.
    ensures daemon != null ==> LastLoaded(events, endings).slot.Some?
    ensures forall i :: 0 <= i < |events| && events[i].Start? && endings[i].nft ==> endings[i].written
    ensures events != [] && daemon != null && daemon.Uses(Inbound) ==>
      var event := events[|events| - 1];
      event.Start? ==> event.files.inbound.Some? && Agree(pinned.Now(), kernel.table.table, event.files.inbound.value)
    ensures LastSetup(events, endings) == SetupOf(daemon, xdp)
    ensures steady && 2 * |events| + 3 < MAX as nat ==> forall i :: 0 <= i < |events| ==> Decided(events, endings, i)
  {
    hide Standing, Working, Running, InSlot, Numbers, LastLoaded, AfterEvent, LastSetup, NextSetup, Decided, Ends,
      Behaviour, Agree;
    daemon, xdp, endings := null, null, [];
    assert events[..0] == [];
    NothingHappened(kernel, pinned);
    for i := 0 to |events|
      invariant |endings| == i
      invariant daemon != null ==> fresh(daemon) && fresh(daemon.backend)
      invariant Standing(kernel, pinned, daemon, xdp, LastLoaded(events[..i], endings))
      invariant forall k :: 0 <= k < i && events[k].Start? && endings[k].nft ==> endings[k].written
      invariant LastSetup(events[..i], endings) == SetupOf(daemon, xdp)
      invariant 2 * |events| + 3 < MAX as nat ==>
        Numbers(kernel, daemon, 2 * i + 1) && (steady ==> forall k :: 0 <= k < i ==> Decided(events, endings, k))
    {
      assert events[i] in events;
      ghost var before := LastLoaded(events[..i], endings);
      var r;
      daemon, xdp, r := Happen(kernel, pinned, daemon, xdp, events[i], steady, before, 2 * i + 1);
      LoadedSnoc(events, endings, i, r);
      SetupSnoc(events, endings, i, r);
      endings := endings + [r];
    }
    assert events[..|events|] == events;
    ghost var last := LastLoaded(events, endings);
    InOrder(kernel, pinned, daemon, xdp, last);
    if daemon != null && daemon.Uses(Inbound) && last.slot.Some? && last.sets.value.inbound == last.slot {
      SameFileAgrees(daemon, xdp, kernel, pinned, last.sets, last.slot);
    }
    StartedLast(events, endings, daemon, xdp);
  }

  lemma NothingHappened(kernel: Kernel, pinned: PinnedMaps)
    requires kernel.table == Absent && pinned.Valid() && pinned.Now() == FRESH
    ensures Standing(kernel, pinned, null, null, LastLoaded([], [])) && Numbers(kernel, null, 1)
    ensures LastSetup([], []) == SetupOf(null, null)
  {
    hide Behaviour;
  }

  lemma InOrder(kernel: Kernel, pinned: PinnedMaps, daemon: Daemon?, xdp: XdpManager?, loaded: Loaded)
    requires Standing(kernel, pinned, daemon, xdp, loaded)
    ensures pinned.Valid() && InSlot(pinned.Now().published, loaded.slot)
    ensures (daemon != null <==> xdp != null) && (daemon != null <==> loaded.sets.Some?)
    ensures daemon != null ==>
      Working(daemon, xdp, kernel, pinned, loaded.sets) && loaded.slot.Some? && kernel.table.Present?
  {
    hide Behaviour, Intact, Fresh, Daemon.Holding;
  }

  /** A process that has just come up has its inbound file in the sets and in the slot. */
  lemma StartedLast(events: seq<Event>, endings: seq<Ending>, daemon: Daemon?, xdp: XdpManager?)
    requires |events| == |endings| && LastSetup(events, endings) == SetupOf(daemon, xdp)
    requires daemon != null && xdp != null ==> LastLoaded(events, endings).slot.Some?
    requires forall i :: 0 <= i < |events| && events[i].Start? && endings[i].nft ==> endings[i].written
    ensures events != [] && events[|events| - 1].Start? && daemon != null && xdp != null ==>
      var last, file := LastLoaded(events, endings), events[|events| - 1].files.inbound;
      last.slot == file && file.Some? && (last.sets.Some? ==> last.sets.value.inbound == file)
  {
    hide LastLoaded, LastSetup;
    if events != [] {
      var n := |events| - 1;
      SetupUnfold(events, endings);
      LoadedUnfold(events, endings);
    }
  }

  lemma LoadedUnfold(events: seq<Event>, endings: seq<Ending>)
    requires |endings| == |events| && events != []
    ensures var n := |events| - 1;
      LastLoaded(events, endings) == AfterEvent(events[n], endings[n], LastLoaded(events[..n], endings[..n]))
  {
  }
}
