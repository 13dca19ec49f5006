/**
 Publication of a list through two LPM-trie slots and a control word. Every trie insert,
 trie remove and control write is one step; a reload may fail and the process may crash
 between any two of them. The maps are pinned and survive.
 */
module XdpProtocol {
  import opened Wrappers
  import opened Addresses

  type Trie = set<AddressPrefix>

  const LAYOUT_VERSION: nat := 1
  const SLOT_COUNT: nat := 2

  datatype Control = Control(layoutVersion: nat, activeSlot: nat)

  datatype Maps = Maps(control: Control, ipv4A: Trie, ipv4B: Trie, ipv6A: Trie, ipv6B: Trie) {
    /** `v4_mut` and `v6_mut` */
    function TrieOf(f: Family, slot: nat): Trie {
      match f
      case V4 => if slot == 0 then ipv4A else ipv4B
      case V6 => if slot == 0 then ipv6A else ipv6B
    }

    function SetTrie(f: Family, slot: nat, t: Trie): Maps {
      match f
      case V4 => if slot == 0 then this.(ipv4A := t) else this.(ipv4B := t)
      case V6 => if slot == 0 then this.(ipv6A := t) else this.(ipv6B := t)
    }

    /** Both tries of a slot. */
    function Slot(slot: nat): Trie {
      TrieOf(V4, slot) + TrieOf(V6, slot)
    }

    function Active(): nat {
      control.activeSlot
    }

    predicate Typed() {
      && (forall p <- ipv4A + ipv4B :: p.family == V4)
      && (forall p <- ipv6A + ipv6B :: p.family == V6)
    }

    /** The packet path's lookup: a full-length key hits when some stored prefix holds the address. */
    ghost predicate Lookup(slot: nat, f: Family, a: nat) {
      Covered(TrieOf(f, slot), f, a)
    }
  }

  const EMPTY := Maps(Control(0, 0), {}, {}, {}, {})

  /** `list` is what a reload will publish; a file that will be rejected has none. */
  datatype Phase =
    | Down
    | Idle
    | Clearing(list: Option<Trie>)
    | Filling(list: Option<Trie>)
    | Rejecting
    | Sweeping
  {
    predicate Quiet() {
      Down? || Idle?
    }
  }

  /** `published` is the prefix set of the last activated list. */
  datatype State = State(maps: Maps, phase: Phase, published: Trie) {
    function Spare(): nat {
      if maps.Active() == 0 then 1 else 0
    }
  }

  datatype Step =
    | Begin(list: Option<Trie>)
    | Remove(slot: nat, prefix: AddressPrefix)
    | Cleared
    | Insert(slot: nat, prefix: AddressPrefix)
    | Publish
    | Reject
    | Return
    | Crash
    | Restart

  const FRESH := State(EMPTY, Down, {})

  ghost predicate Next(s: State, step: Step, t: State) {
    match step
    case Begin(list) =>
      s.phase.Idle? && t == s.(phase := Clearing(list))
    case Remove(slot, p) =>
      && (s.phase.Clearing? || s.phase.Rejecting? || s.phase.Sweeping?)
      && slot == s.Spare()
      && t == s.(maps := s.maps.SetTrie(p.family, slot, s.maps.TrieOf(p.family, slot) - {p}))
    case Cleared =>
      s.phase.Clearing? && s.maps.Slot(s.Spare()) == {} && t == s.(phase := Filling(s.phase.list))
    case Insert(slot, p) =>
      && s.phase.Filling? && slot == s.Spare()
      && t == s.(maps := s.maps.SetTrie(p.family, slot, s.maps.TrieOf(p.family, slot) + {p}))
    case Publish =>
      && s.phase.Filling? && s.phase.list == Some(s.maps.Slot(s.Spare()))
      && t == State(s.maps.(control := Control(LAYOUT_VERSION, s.Spare())), Sweeping, s.phase.list.value)
    case Reject =>
      s.phase.Filling? && t == s.(phase := Rejecting)
    case Return =>
      !s.phase.Quiet() && t == s.(phase := Idle)
    case Crash =>
      t == s.(phase := Down)
    case Restart =>
      && s.phase.Down?
      && (s.maps.control.layoutVersion != 0 ==>
            s.maps.control.layoutVersion == LAYOUT_VERSION && s.maps.control.activeSlot < SLOT_COUNT)
      && t == s.(phase := Idle,
                 maps := if s.maps.control.layoutVersion == 0 then s.maps.(control := Control(LAYOUT_VERSION, 0))
                   else s.maps)
  }

  /** A run from the first load of the pinned maps. */
  ghost predicate Behaviour(states: seq<State>, steps: seq<Step>) {
    && |states| == |steps| + 1
    && states[0] == FRESH
    && forall i, j :: 0 <= i && j == i + 1 < |states| ==> Next(states[i], steps[i], states[j])
  }

  /** A process may crash wherever it is: a cut run followed by a crash is a run again. */
  lemma CrashAnywhere(states: seq<State>, steps: seq<Step>, n: nat)
    requires Behaviour(states, steps) && n <= |steps|
    ensures Behaviour(states[..n + 1] + [states[n].(phase := Down)], steps[..n] + [Crash])
  {
    var cut, down := states[..n + 1], states[n].(phase := Down);
    var more, acts := cut + [down], steps[..n] + [Crash];
    forall i, j | 0 <= i && j == i + 1 < |more|
      ensures Next(more[i], acts[i], more[j])
    {
      assert i < n ==> more[i] == states[i] && more[j] == states[j] && acts[i] == steps[i];
      assert more[n] == states[n];
    }
  }

  // --- Safety ------------------------------------------------------------------------------

  ghost predicate Safe(s: State) {
    && s.maps.Typed()
    && s.maps.Active() < SLOT_COUNT
    && s.maps.Slot(s.maps.Active()) == s.published
    && (s.maps.control.layoutVersion == LAYOUT_VERSION
        || (s.maps == EMPTY && s.phase.Down?))
  }

  lemma SafeStep(s: State, step: Step, t: State)
    requires Safe(s) && Next(s, step, t)
    ensures Safe(t)
  {
  }

  /** At every point of every run the slot named by the control word holds exactly the last activated list. */
  lemma {:induction false} AlwaysSafe(states: seq<State>, steps: seq<Step>, i: nat)
    requires Behaviour(states, steps) && i < |states|
    ensures Safe(states[i])
  {
    if i > 0 {
      AlwaysSafe(states, steps, i - 1);
      SafeStep(states[i - 1], steps[i - 1], states[i]);
    }
  }

  /** The list of the last reload that began. */
  function Announced(steps: seq<Step>): Option<Trie> {
    if steps == [] then
      None
    else
      var n := |steps| - 1;
      if steps[n].Begin? then steps[n].list else Announced(steps[..n])
  }

  /** The list of the last reload whose control write was made; nothing before the first. */
  function InForce(steps: seq<Step>): Trie {
    if steps == [] then
      {}
    else
      var n := |steps| - 1;
      if steps[n].Publish? && Announced(steps[..n]).Some? then Announced(steps[..n]).value else InForce(steps[..n])
  }

  /** At every point of every run the list in force is that of the last reload whose control write was made. */
  lemma {:induction false} LastWriteRules(states: seq<State>, steps: seq<Step>, i: nat)
    requires Behaviour(states, steps) && i < |states|
    ensures states[i].published == InForce(steps[..i])
    ensures states[i].phase.Clearing? || states[i].phase.Filling? ==> states[i].phase.list == Announced(steps[..i])
  {
    if i > 0 {
      LastWriteRules(states, steps, i - 1);
      assert steps[..i][..i - 1] == steps[..i - 1];
      assert Next(states[i - 1], steps[i - 1], states[i]);
    }
  }

  /** The list in force changes only when a reload publishes, and then to the list of that reload. */
  lemma PublishedChanges(s: State, step: Step, t: State)
    requires Safe(s) && Next(s, step, t) && t.published != s.published
    ensures step.Publish? && s.phase.Filling? && s.phase.list == Some(t.published)
    ensures t.maps.Active() != s.maps.Active()
  {
  }

  /** What the packet path finds in the active slot is membership in the list in force. */
  lemma ActiveLookup(s: State, f: Family, a: nat)
    requires Safe(s)
    ensures s.maps.Lookup(s.maps.Active(), f, a) <==> Covered(s.published, f, a)
  {
    SlotLookup(s.maps, s.maps.Active(), f, a);
  }

  lemma SlotLookup(m: Maps, slot: nat, f: Family, a: nat)
    requires m.Typed()
    ensures m.Lookup(slot, f, a) <==> Covered(m.Slot(slot), f, a)
  {
  }

  // --- Readers -----------------------------------------------------------------------------

  /** The steps `i .. j` belong to one reload at most. */
  ghost predicate OneReload(states: seq<State>, steps: seq<Step>, i: nat, j: nat)
    requires i <= j <= |steps| < |states|
  {
    && (!states[i].phase.Quiet() ==> forall k :: i <= k < j ==> !steps[k].Begin?)
    && (forall k, l :: i <= k < l < j && steps[k].Begin? ==> !steps[l].Begin?)
  }

  /** No prefix is removed from `slot` by the steps `i .. j`. */
  ghost predicate NoRemoval(steps: seq<Step>, i: nat, j: nat, slot: nat)
    requires i <= j <= |steps|
  {
    forall k :: i <= k < j ==> !(steps[k].Remove? && steps[k].slot == slot)
  }

  /** The reload of the window has begun by `k`. */
  ghost predicate Begun(states: seq<State>, steps: seq<Step>, i: nat, k: nat)
    requires i <= k <= |steps| < |states|
  {
    !states[i].phase.Quiet() || exists m :: i <= m < k && steps[m].Begin?
  }

  /** What a reader that read its slot at `i` can still find there at `k`. */
  ghost predicate Window(states: seq<State>, steps: seq<Step>, i: nat, k: nat)
    requires i <= k <= |steps| < |states|
  {
    var x, list, s := states[i].maps.Active(), states[i].published, states[k];
    && s.maps.Slot(x) <= list
    && (NoRemoval(steps, i, k, x) ==> s.maps.Slot(x) == list)
    && (s.maps.Active() == x ==> s.maps.Slot(x) == list)
    && (s.maps.Active() != x ==> Begun(states, steps, i, k) && (s.phase.Quiet() || s.phase.Sweeping?))
    && (!s.phase.Quiet() ==> Begun(states, steps, i, k))
  }

  lemma WindowStep(states: seq<State>, steps: seq<Step>, i: nat, k: nat)
    requires Behaviour(states, steps) && i <= k < |steps|
    requires Window(states, steps, i, k) && OneReload(states, steps, i, k + 1)
    ensures Window(states, steps, i, k + 1)
  {
    var s, step, t := states[k], steps[k], states[k + 1];
    AlwaysSafe(states, steps, i);
    AlwaysSafe(states, steps, k);
    assert Next(s, step, t);
    assert step.Begin? ==> !Begun(states, steps, i, k);
    assert step.Begin? ==> Begun(states, steps, i, k + 1);
    assert Begun(states, steps, i, k) ==> Begun(states, steps, i, k + 1);
    assert NoRemoval(steps, i, k + 1, states[i].maps.Active()) ==>
      NoRemoval(steps, i, k, states[i].maps.Active()) && !(step.Remove? && step.slot == states[i].maps.Active());
  }

  lemma {:induction false} WindowHolds(states: seq<State>, steps: seq<Step>, i: nat, k: nat)
    requires Behaviour(states, steps) && i <= k <= |steps| && OneReload(states, steps, i, k)
    ensures Window(states, steps, i, k)
  {
    AlwaysSafe(states, steps, i);
    if k > i {
      WindowHolds(states, steps, i, k - 1);
      WindowStep(states, steps, i, k - 1);
    }
  }

  /**
   A packet reads the slot at `i` and looks its address up at `j`, with the steps of at most
   one reload in between. It is judged by exactly the list in force when it read the slot
   unless a prefix was removed from that slot meanwhile, and even then only a listed
   address is dropped.
   */
  lemma ReaderSeesOneList(states: seq<State>, steps: seq<Step>, i: nat, j: nat, f: Family, a: nat)
    requires Behaviour(states, steps) && i <= j <= |steps| && OneReload(states, steps, i, j)
    ensures var x := states[i].maps.Active();
      && (NoRemoval(steps, i, j, x) ==> (states[j].maps.Lookup(x, f, a) <==> Covered(states[i].published, f, a)))
      && (states[j].maps.Lookup(x, f, a) ==> Covered(states[i].published, f, a))
  {
    WindowHolds(states, steps, i, j);
    AlwaysSafe(states, steps, j);
    SlotLookup(states[j].maps, states[i].maps.Active(), f, a);
  }

  // --- The exception is needed ----------------------------------------------------------------

  lemma BehaviourSnoc(states: seq<State>, steps: seq<Step>, step: Step, t: State)
    requires Behaviour(states, steps) && Next(states[|steps|], step, t)
    ensures Behaviour(states + [t], steps + [step])
  {
    hide Next;
    var more, acts := states + [t], steps + [step];
    forall i, j | 0 <= i && j == i + 1 < |more|
      ensures Next(more[i], acts[i], more[j])
    {
      assert more[i] == states[i];
      assert j < |states| ==> more[j] == states[j] && acts[i] == steps[i];
    }
  }

  /** The steps of a reload of the one-prefix list into an empty spare slot. */
  function ReloadSteps(slot: nat, p: AddressPrefix): seq<Step> {
    [Begin(Some({p})), Cleared, Insert(slot, p), Publish]
  }

  /** A reload goes through whenever the maps are quiet and the spare slot is empty. */
  lemma OneReloadRuns(states: seq<State>, steps: seq<Step>, p: AddressPrefix) returns (more: seq<State>)
    requires Behaviour(states, steps)
    requires var s := states[|steps|]; s.phase.Idle? && s.maps.Slot(s.Spare()) == {} && s.maps.Active() < SLOT_COUNT
    ensures var s := states[|steps|];
      && Behaviour(states + more, steps + ReloadSteps(s.Spare(), p)) && |more| == 4
      && more[3].phase.Sweeping? && more[3].published == {p}
      && more[3].maps.Active() == s.Spare() && more[3].maps.Slot(s.Spare()) == {p}
      && forall f :: more[3].maps.TrieOf(f, s.maps.Active()) == s.maps.TrieOf(f, s.maps.Active())
  {
    hide Behaviour;
    EndOf(states, steps);
    var s := states[|steps|];
    var slot, list := s.Spare(), Some({p});
    var s1 := s.(phase := Clearing(list));
    var s2 := s.(phase := Filling(list));
    var s3 := s2.(maps := s.maps.SetTrie(p.family, slot, s.maps.TrieOf(p.family, slot) + {p}));
    var s4 := State(s3.maps.(control := Control(LAYOUT_VERSION, slot)), Sweeping, {p});
    more := [s1, s2, s3, s4];
    SlotFilled(s.maps, slot, p);
    BehaviourSnoc(states, steps, Begin(list), s1);
    BehaviourSnoc(states + [s1], steps + [Begin(list)], Cleared, s2);
    BehaviourSnoc(states + [s1] + [s2], steps + [Begin(list)] + [Cleared], Insert(slot, p), s3);
    BehaviourSnoc(states + [s1] + [s2] + [s3], steps + [Begin(list)] + [Cleared] + [Insert(slot, p)], Publish, s4);
    assert states + more == states + [s1] + [s2] + [s3] + [s4];
    assert steps + ReloadSteps(slot, p) == steps + [Begin(list)] + [Cleared] + [Insert(slot, p)] + [Publish];
  }

  lemma EndOf(states: seq<State>, steps: seq<Step>)
    requires Behaviour(states, steps)
    ensures |states| == |steps| + 1
  {
  }

  lemma SlotFilled(m: Maps, slot: nat, p: AddressPrefix)
    requires m.Slot(slot) == {} && slot < SLOT_COUNT
    ensures m.SetTrie(p.family, slot, m.TrieOf(p.family, slot) + {p}).Slot(slot) == {p}
  {
    assert m.TrieOf(V4, slot) <= m.Slot(slot) && m.TrieOf(V6, slot) <= m.Slot(slot);
  }

  /**
   What a removal between the two steps of a reader can do: the address is in the list in
   force when the packet reads its slot and in the list in force when it looks up, and the
   packet still passes.
   */
  lemma RemovalHidesAddress() returns (states: seq<State>, steps: seq<Step>, i: nat, j: nat, f: Family, a: nat)
    ensures Behaviour(states, steps) && i <= j <= |steps| && OneReload(states, steps, i, j)
    ensures Covered(states[i].published, f, a) && Covered(states[j].published, f, a)
    ensures !states[j].maps.Lookup(states[i].maps.Active(), f, a)
  {
    hide Behaviour, Covered;
    var p := AddressPrefix(V4, 0, 32);
    f, a := V4, 0;
    HoldsItself(p);
    var s0 := FRESH.(maps := EMPTY.(control := Control(LAYOUT_VERSION, 0)), phase := Idle);
    FreshRuns();
    BehaviourSnoc([FRESH], [], Restart, s0);
    var begun, acts := [FRESH] + [s0], [] + [Restart];
    var first := OneReloadRuns(begun, acts, p);
    var loaded, done := begun + first, acts + ReloadSteps(1, p);
    var s1 := loaded[5].(phase := Idle);
    BehaviourSnoc(loaded, done, Return, s1);
    i := 6;
    var second := OneReloadRuns(loaded + [s1], done + [Return], p);
    var again, twice := loaded + [s1] + second, done + [Return] + ReloadSteps(0, p);
    var s2 := again[10];
    var s3 := s2.(maps := s2.maps.SetTrie(V4, 1, s2.maps.TrieOf(V4, 1) - {p}));
    BehaviourSnoc(again, twice, Remove(1, p), s3);
    states, steps, j := again + [s3], twice + [Remove(1, p)], 11;
    assert states[6] == s1 && states[11] == s3 && |steps| == 11;
    assert s1.maps.Slot(1) == {p} && s1.maps.Active() == 1 && s3.published == {p};
    assert s3.maps.TrieOf(V4, 1) == {};
    assert forall k :: 7 <= k < 11 ==> !steps[k].Begin?;
    NothingCovered(f, a);
  }

  lemma HoldsItself(p: AddressPrefix)
    requires p == AddressPrefix(V4, 0, 32)
    ensures Covered({p}, V4, 0)
  {
    assert p.Valid() && p.Has(V4, 0);
  }

  lemma NothingCovered(f: Family, a: nat)
    ensures !Covered({}, f, a)
  {
  }

  lemma FreshRuns()
    ensures Behaviour([FRESH], [])
  {
  }
}
