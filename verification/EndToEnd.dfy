/** The two encodings of a list, side by side: the XDP tries and the nftables sets. */
module EndToEnd {
  import opened Wrappers
  import opened Bits
  import opened Addresses
  import opened Blocklist
  import opened StreamTheorems
  import opened GenerationNames
  import opened Netfilter
  import opened Generations
  import opened Backend
  import opened Staging
  import opened Daemon
  import opened XdpProtocol
  import opened Xdp
  import opened Packet

  /** The tries drop a well-formed frame exactly when the list holds its source address. */
  lemma XdpDropsListed(s: State, lines: seq<Line>, macs: Packet.Bytes, tags: seq<Tag>, header: Header, a: nat)
    requires Safe(s) && Canonical(lines) && s.published == Target(lines)
    requires |macs| == 12 && WellTagged(tags) && |tags| <= 2 && header.WellFormed() && From(header, a)
    ensures Verdict(Frame(macs, tags, header), s.maps.Active(), s.maps) == Drop <==> Listed(lines, header.Family(), a)
  {
    hide Safe, Canonical, Runs, Listed, Frame, KeyOf, From, Covered;
    FrameKey(macs, tags, header, a);
    var f := header.Family();
    ActiveLookup(s, f, a);
    RunsAreNormal(lines);
    PrefixListHolds(Runs(lines));
  }

  predicate WellFramed(macs: Packet.Bytes, tags: seq<Tag>, header: Header) {
    |macs| == 12 && WellTagged(tags) && |tags| <= 2 && header.WellFormed()
  }

  /** Both encodings give the frame the verdict the list gives its source address `a`. */
  ghost predicate AgreeOn(s: State, t: Table, lines: seq<Line>, macs: Packet.Bytes, tags: seq<Tag>, header: Header,
                          a: nat, destination: nat) {
    WellFramed(macs, tags, header) && From(header, a) && destination < header.Family().Size() ==>
      var listed := Listed(lines, header.Family(), a);
      && (Verdict(Frame(macs, tags, header), s.maps.Active(), s.maps) == Drop <==> listed)
      && (Drops(t, Inbound, header.Family(), a, destination) <==> listed)
  }

  ghost predicate Agree(s: State, t: Table, lines: seq<Line>) {
    forall macs, tags, header, a: nat, destination: nat :: AgreeOn(s, t, lines, macs, tags, header, a, destination)
  }

  lemma Agreement(s: State, t: Table, g: DirectionGeneration, lines: seq<Line>)
    requires Safe(s) && Canonical(lines) && s.published == Target(lines)
    requires Carries(t, g, lines)
    requires Dispatch(Inbound) in t.chains && t.chains[Dispatch(Inbound)] == DispatchRules(Inbound, g)
    ensures Agree(s, t, lines)
  {
    hide Safe, Canonical, Carries, Listed, Verdict, Frame, Drops, Spells, Target, Header.WellFormed;
    forall macs, tags, header, a: nat, destination: nat
      ensures AgreeOn(s, t, lines, macs, tags, header, a, destination)
    {
      if WellFramed(macs, tags, header) && From(header, a) && destination < header.Family().Size() {
        XdpDropsListed(s, lines, macs, tags, header, a);
        DispatchMeaning(t, Inbound, g, lines, header.Family(), a, destination);
      }
    }
  }

  /**
   `reload_backends` for the inbound list, with both backends configured. Each backend is
   reloaded whatever becomes of the other; when both succeed they agree on every frame.
   */
  method ReloadInbound(daemon: Daemon, xdp: XdpManager, files: Files)
    returns (nft: Option<DaemonError>, tries: Result<(), XdpError>)
    requires daemon.Valid() && daemon.backend.Named() && daemon.Uses(Inbound)
    requires xdp.Valid() && xdp.pinned.Now().phase.Idle?
    modifies daemon`active, daemon.backend, daemon.backend.kernel`table, daemon.backend.kernel`refused, xdp.pinned
    ensures daemon.Valid() && xdp.Valid() && Safe(xdp.pinned.Now())
    ensures nft.Some? ==> daemon.active == old(daemon.active) && Grown(old(daemon.Table()), daemon.Table())
    ensures nft.None? && old(daemon.active).Some? ==>
      daemon.Replaced(old(daemon.Table()), daemon.Table(), old(daemon.active).value, daemon.active, Inbound,
        files.inbound)
    ensures nft.None? && old(daemon.active).None? ==>
      daemon.Undisturbed() && daemon.Marked() && daemon.active.Some?
      && daemon.Holding(daemon.Table().table, daemon.active.value, files)
    ensures tries.Err? ==> xdp.pinned.Now().published == old(xdp.pinned.Now().published)
    ensures tries.Ok? ==> Publishes(files.inbound) == Some(xdp.pinned.Now().published)
    // Neither depends on the other: each is begun in any case and succeeds whenever it can.
    ensures && xdp.pinned.Extends(old(xdp.pinned.states), old(xdp.pinned.steps))
            && |xdp.pinned.steps| > |old(xdp.pinned.steps)|
            && xdp.pinned.steps[|old(xdp.pinned.steps)|] == Begin(Publishes(files.inbound))
    ensures xdp.pinned.reliable && Publishes(files.inbound).Some? ==>
      (tries.Ok? <==> Fits(files.inbound.value, xdp.config))
    ensures (daemon.backend.kernel.reliable && old(daemon.active).Some? && old(daemon.Marked())
             && Usable(files.inbound) && old(daemon.backend.nextGeneration) < MAX) ==> nft.None?
    ensures (daemon.backend.kernel.reliable && old(daemon.active).None? && old(daemon.Marked())
             && daemon.AllUsable(files) && old(daemon.backend.nextGeneration) < MAX - 1) ==> nft.None?
    ensures nft.None? && tries.Ok? ==>
      daemon.Table().Present? && files.inbound.Some?
        && Agree(xdp.pinned.Now(), daemon.Table().table, files.inbound.value)
  {
    hide Intact, Grown, Fresh, Numbered, Canonical, IsGeneration, Agree, Safe, Fits, BaseRules, Next,
      Daemon.Tallied, Daemon.Configured;
    var collected;
    nft, collected := daemon.ReloadNftFor(Inbound, files);
    tries := xdp.Reload(files.inbound);
    AlwaysSafe(xdp.pinned.states, xdp.pinned.steps, |xdp.pinned.states| - 1);
    if nft.None? && tries.Ok? {
      EveryChain(Dispatch(Inbound));
      Agreement(xdp.pinned.Now(), daemon.Table().table, daemon.active.value.inbound.value, files.inbound.value);
    }
  }
}
