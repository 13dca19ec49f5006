/**
 What the daemon remembers about staged and active sets, how chains are rendered from it,
 and the batches that replace them.
 */
module Generations {
  import opened Wrappers
  import opened Addresses
  import opened Stream
  import opened GenerationNames
  import opened Netfilter

  datatype DirectionGeneration = DirectionGeneration(
    direction: Direction,
    ipv4Set: string,
    ipv6Set: string,
    ipv4Intervals: nat,
    ipv6Intervals: nat,
    ipv4Boundaries: nat,
    ipv6Boundaries: nat)
  {
    function Set(f: Family): string {
      match f
      case V4 => ipv4Set
      case V6 => ipv6Set
    }

    function Intervals(f: Family): nat {
      match f
      case V4 => ipv4Intervals
      case V6 => ipv6Intervals
    }

    function ApplyStats(stats: StreamStats): DirectionGeneration {
      this.(ipv4Intervals := stats.ipv4Intervals,
      ipv6Intervals := stats.ipv6Intervals,
      ipv4Boundaries := stats.ipv4Boundaries,
      ipv6Boundaries := stats.ipv6Boundaries)
    }
  }

  datatype ActiveGenerations = ActiveGenerations(
    inbound: Option<DirectionGeneration>,
    outbound: Option<DirectionGeneration>)
  {
    function Get(d: Direction): Option<DirectionGeneration> {
      match d
      case Inbound => inbound
      case Outbound => outbound
    }

    function Set(g: DirectionGeneration, d: Direction): ActiveGenerations {
      match d
      case Inbound => this.(inbound := Some(g))
      case Outbound => this.(outbound := Some(g))
    }

    /** Names of every set of every generation. */
    function Keep(): set<string> {
      (if inbound.Some? then {inbound.value.ipv4Set, inbound.value.ipv6Set} else {})
      + (if outbound.Some? then {outbound.value.ipv4Set, outbound.value.ipv6Set} else {})
    }
  }

  const NONE := ActiveGenerations(None, None)

  type BaseChain = c: Chain | !c.Dispatch? witness Input

  datatype RenderedRule = RenderedRule(chain: BaseChain, direction: Direction, ingress: Option<string>,
                                       egress: Option<string>)

  // --- Rendering -----------------------------------------------------------------------------

  function JumpOf(r: RenderedRule): Rule {
    Jump(r.ingress, r.egress, r.direction)
  }

  /** The rules of a base chain, in order. */
  function BaseRules(rules: seq<RenderedRule>, c: Chain): seq<Rule> {
    if rules == [] then []
    else
      var r := rules[|rules| - 1];
      BaseRules(rules[..|rules| - 1], c) + if r.chain == c then [JumpOf(r)] else []
  }

  function DispatchRules(d: Direction, g: DirectionGeneration): seq<Rule> {
    [DropListed(V4, d, g.ipv4Set), DropListed(V6, d, g.ipv6Set)]
  }

  const CHAINS: seq<Chain> := [Input, Forward, Output, Dispatch(Inbound), Dispatch(Outbound)]

  /** All five chains as they should be. */
  function Render(rules: seq<RenderedRule>, active: ActiveGenerations): map<Chain, seq<Rule>> {
    map c: Chain | c in CHAINS :: RenderChain(rules, active, c)
  }

  function RenderChain(rules: seq<RenderedRule>, active: ActiveGenerations, c: Chain): seq<Rule> {
    match c
    case Dispatch(d) => if active.Get(d).Some? then DispatchRules(d, active.Get(d).value) else []
    case _ => BaseRules(rules, c)
  }

  /** A rendered table looks up the active sets and nothing else. */
  lemma RenderLooksUp(t: Table, rules: seq<RenderedRule>, active: ActiveGenerations, name: string)
    requires t.chains == Render(rules, active)
    ensures LooksUp(t, name) <==> name in active.Keep()
  {
    forall c: Chain | !c.Dispatch?
      ensures forall r <- BaseRules(rules, c) :: r.Jump?
    {
      BaseRulesJump(rules, c);
    }
    forall d: Direction, f: Family | active.Get(d).Some? && active.Get(d).value.Set(f) == name
      ensures LooksUp(t, name)
    {
      var g := active.Get(d).value;
      assert Dispatch(d) in t.chains && t.chains[Dispatch(d)] == DispatchRules(d, g);
      assert DropListed(f, d, g.Set(f)) == DispatchRules(d, g)[if f.V4? then 0 else 1];
    }
    assert active.Get(Inbound) == active.inbound && active.Get(Outbound) == active.outbound;
    assert forall g: DirectionGeneration :: g.Set(V4) == g.ipv4Set && g.Set(V6) == g.ipv6Set;
  }

  lemma {:induction false} BaseRulesJump(rules: seq<RenderedRule>, c: Chain)
    ensures forall r <- BaseRules(rules, c) :: r.Jump?
  {
    if rules != [] {
      BaseRulesJump(rules[..|rules| - 1], c);
    }
  }

  lemma {:induction false} BaseRulesMembers(rules: seq<RenderedRule>, c: Chain, j: Rule)
    ensures j in BaseRules(rules, c) <==> exists r <- rules :: r.chain == c && JumpOf(r) == j
  {
    if rules != [] {
      var n := |rules| - 1;
      BaseRulesMembers(rules[..n], c, j);
      assert rules == rules[..n] + [rules[n]];
    }
  }

  // --- Batches -------------------------------------------------------------------------------

  function AddChainOps(cs: seq<Chain>): (ops: seq<Op>) {
    seq(|cs|, i requires 0 <= i < |cs| => AddChain(cs[i]))
  }

  function FlushOps(cs: seq<Chain>): seq<Op> {
    seq(|cs|, i requires 0 <= i < |cs| => FlushRules(cs[i]))
  }

  function BaseRuleOps(rules: seq<RenderedRule>): seq<Op> {
    seq(|rules|, i requires 0 <= i < |rules| => AddRule(rules[i].chain, JumpOf(rules[i])))
  }

  function DispatchOps(d: Direction, g: DirectionGeneration): seq<Op> {
    [AddRule(Dispatch(d), DispatchRules(d, g)[0]), AddRule(Dispatch(d), DispatchRules(d, g)[1])]
  }

  function OptionalDispatchOps(d: Direction, g: Option<DirectionGeneration>): seq<Op> {
    if g.Some? then DispatchOps(d, g.value) else []
  }

  lemma {:induction false} CommitJoin(s: TableState, a: seq<Op>, b: seq<Op>)
    ensures Commit(s, a + b) == if Commit(s, a).Some? then Commit(Commit(s, a).value, b) else None
  {
    if b == [] {
      assert a + b == a;
    } else {
      var n := |b| - 1;
      assert (a + b)[..|a + b| - 1] == a + b[..n];
      CommitJoin(s, a, b[..n]);
    }
  }

  function WithChains(t: Table, cs: seq<Chain>): Table {
    t.(chains := map c | c in t.chains.Keys + (set x | x in cs) :: if c in t.chains then t.chains[c] else [])
  }

  function WithoutRules(t: Table, cs: seq<Chain>): Table {
    t.(chains := map c | c in t.chains :: if c in cs then [] else t.chains[c])
  }

  function WithBaseRules(t: Table, rules: seq<RenderedRule>): Table {
    t.(chains := map c | c in t.chains :: t.chains[c] + BaseRules(rules, c))
  }

  function WithDispatch(t: Table, d: Direction, g: DirectionGeneration): Table
    requires Dispatch(d) in t.chains
  {
    t.(chains := t.chains[Dispatch(d) := t.chains[Dispatch(d)] + DispatchRules(d, g)])
  }

  lemma {:induction false} ChainsAdded(t: Table, cs: seq<Chain>)
    ensures Commit(Present(t), AddChainOps(cs)) == Some(Present(WithChains(t, cs)))
  {
    hide Commit, WithChains;
    if cs == [] {
      CommitNothing(Present(t));
      NoChains(t);
    } else {
      var n := |cs| - 1;
      ChainsAdded(t, cs[..n]);
      assert AddChainOps(cs) == AddChainOps(cs[..n]) + [AddChain(cs[n])];
      CommitSnoc(Present(t), AddChainOps(cs[..n]), AddChain(cs[n]));
      assert cs == cs[..n] + [cs[n]];
      OneMoreChain(t, cs[..n], cs[n]);
    }
  }

  lemma NoChains(t: Table)
    ensures WithChains(t, []) == t
  {
    assert WithChains(t, []).chains == t.chains;
  }

  lemma OneMoreChain(t: Table, cs: seq<Chain>, c: Chain)
    ensures Apply(AddChain(c), Present(WithChains(t, cs))) == Some(Present(WithChains(t, cs + [c])))
  {
    var u := WithChains(t, cs);
    assert WithChains(t, cs + [c]).chains == if c in u.chains then u.chains else u.chains[c := []];
  }

  lemma {:induction false} ChainsFlushed(t: Table, cs: seq<Chain>)
    requires forall c <- cs :: c in t.chains
    ensures Commit(Present(t), FlushOps(cs)) == Some(Present(WithoutRules(t, cs)))
  {
    hide Commit;
    if cs == [] {
      CommitNothing(Present(t));
      assert t.chains == WithoutRules(t, cs).chains;
    } else {
      var n := |cs| - 1;
      ChainsFlushed(t, cs[..n]);
      assert FlushOps(cs) == FlushOps(cs[..n]) + [FlushRules(cs[n])];
      CommitSnoc(Present(t), FlushOps(cs[..n]), FlushRules(cs[n]));
      assert cs == cs[..n] + [cs[n]];
      assert WithoutRules(t, cs).chains == WithoutRules(t, cs[..n]).chains[cs[n] := []];
    }
  }

  lemma BaseRuleStep(t: Table, rules: seq<RenderedRule>, r: RenderedRule)
    requires r.chain in t.chains
    ensures var u := WithBaseRules(t, rules);
      WithBaseRules(t, rules + [r]) == u.(chains := u.chains[r.chain := u.chains[r.chain] + [JumpOf(r)]])
  {
    var u, v := WithBaseRules(t, rules), WithBaseRules(t, rules + [r]);
    assert (rules + [r])[..|rules|] == rules;
    forall c | c in t.chains
      ensures v.chains[c] == if c == r.chain then u.chains[c] + [JumpOf(r)] else u.chains[c]
    {
      if c == r.chain {
        assert t.chains[c] + BaseRules(rules, c) + [JumpOf(r)] == t.chains[c] + (BaseRules(rules, c) + [JumpOf(r)]);
      } else {
        assert BaseRules(rules, c) + [] == BaseRules(rules, c);
      }
    }
    assert v.chains == u.chains[r.chain := u.chains[r.chain] + [JumpOf(r)]];
  }

  lemma {:induction false} BaseRulesAdded(t: Table, rules: seq<RenderedRule>)
    requires forall c <- CHAINS :: c in t.chains
    ensures Commit(Present(t), BaseRuleOps(rules)) == Some(Present(WithBaseRules(t, rules)))
  {
    hide Commit, BaseRules;
    if rules == [] {
      CommitNothing(Present(t));
      NoBaseRules(t);
    } else {
      var n := |rules| - 1;
      var r := rules[n];
      BaseRulesAdded(t, rules[..n]);
      var ops := BaseRuleOps(rules[..n]);
      assert BaseRuleOps(rules) == ops + [AddRule(r.chain, JumpOf(r))];
      assert rules == rules[..n] + [r];
      CommitSnoc(Present(t), ops, AddRule(r.chain, JumpOf(r)));
      EveryChain(Dispatch(r.direction));
      EveryChain(r.chain);
      BaseRuleStep(t, rules[..n], r);
    }
  }

  lemma NoBaseRules(t: Table)
    ensures WithBaseRules(t, []) == t
  {
    forall c | c in t.chains
      ensures t.chains[c] + BaseRules([], c) == t.chains[c]
    {
    }
    assert WithBaseRules(t, []).chains == t.chains;
  }

  lemma EveryChain(c: Chain)
    ensures c in CHAINS
  {
    assert CHAINS[0] == Input && CHAINS[1] == Forward && CHAINS[2] == Output
        && CHAINS[3] == Dispatch(Inbound) && CHAINS[4] == Dispatch(Outbound);
    match c
    case Dispatch(d) => assert d == Inbound || d == Outbound;
    case _ =>
  }

  /** Both sets of a generation exist. */
  predicate HasSets(t: Table, g: DirectionGeneration) {
    g.ipv4Set in t.sets && g.ipv6Set in t.sets
  }

  lemma DispatchAdded(t: Table, d: Direction, g: DirectionGeneration)
    requires Dispatch(d) in t.chains && HasSets(t, g)
    ensures Commit(Present(t), DispatchOps(d, g)) == Some(Present(WithDispatch(t, d, g)))
  {
    var rules := DispatchRules(d, g);
    CommitNothing(Present(t));
    var first, second := AddRule(Dispatch(d), rules[0]), AddRule(Dispatch(d), rules[1]);
    CommitSnoc(Present(t), [], first);
    assert [] + [first] == [first];
    CommitSnoc(Present(t), [first], second);
    assert [first] + [second] == DispatchOps(d, g);
    var before := t.chains[Dispatch(d)];
    assert before + [rules[0]] + [rules[1]] == before + rules;
    assert t.chains[Dispatch(d) := before + rules] ==
      t.chains[Dispatch(d) := before + [rules[0]]][Dispatch(d) := before + rules];
  }

  // --- Whole batches -------------------------------------------------------------------------

  function BootstrapOps(rules: seq<RenderedRule>): seq<Op> {
    [AddTable] + AddChainOps(CHAINS) + [AddSet(LAYOUT_MARKER, V4)] + BaseRuleOps(rules)
  }

  function ReplaceRulesOps(rules: seq<RenderedRule>, active: ActiveGenerations): seq<Op> {
    AddChainOps(CHAINS) + FlushOps(CHAINS) + BaseRuleOps(rules)
    + OptionalDispatchOps(Inbound, active.inbound) + OptionalDispatchOps(Outbound, active.outbound)
  }

  function ReplaceDispatchOps(d: Direction, g: DirectionGeneration): seq<Op> {
    AddChainOps([Dispatch(d)]) + FlushOps([Dispatch(d)]) + DispatchOps(d, g)
  }

  const FRESH_TABLE := Table(map[LAYOUT_MARKER := SetBody(V4, {})], map[])

  /** The set named by every generation of `active` exists. */
  predicate HasActive(t: Table, active: ActiveGenerations) {
    && (active.inbound.Some? ==> HasSets(t, active.inbound.value))
    && (active.outbound.Some? ==> HasSets(t, active.outbound.value))
  }

  lemma Bootstrapped(rules: seq<RenderedRule>)
    ensures Commit(Absent, BootstrapOps(rules)) == Some(Present(FRESH_TABLE.(chains := Render(rules, NONE))))
  {
    hide BaseRules;
    var empty := Table(map[], map[]);
    CommitNothing(Absent);
    CommitSnoc(Absent, [], AddTable);
    assert [] + [AddTable] == [AddTable];
    ChainsAdded(empty, CHAINS);
    CommitJoin(Absent, [AddTable], AddChainOps(CHAINS));
    CommitSnoc(Absent, [AddTable] + AddChainOps(CHAINS), AddSet(LAYOUT_MARKER, V4));
    var t := WithChains(empty, CHAINS).(sets := FRESH_TABLE.sets);
    BaseRulesAdded(t, rules);
    CommitJoin(Absent, [AddTable] + AddChainOps(CHAINS) + [AddSet(LAYOUT_MARKER, V4)], BaseRuleOps(rules));
    BaseRendered(t, rules);
  }

  /** On five empty chains the base rules alone are the rendering without active generations. */
  lemma BaseRendered(t: Table, rules: seq<RenderedRule>)
    requires t.chains.Keys == (set c <- CHAINS) && forall c <- t.chains :: t.chains[c] == []
    ensures WithBaseRules(t, rules) == t.(chains := Render(rules, NONE))
  {
    hide BaseRules, CHAINS;
    forall c: Chain | c in CHAINS
      ensures t.chains[c] + BaseRules(rules, c) == RenderChain(rules, NONE, c)
    {
      assert [] + BaseRules(rules, c) == BaseRules(rules, c);
      if c.Dispatch? {
        NoDispatchRules(rules, c.direction);
      }
    }
    assert WithBaseRules(t, rules).chains == Render(rules, NONE);
  }

  lemma {:induction false} NoDispatchRules(rules: seq<RenderedRule>, d: Direction)
    ensures BaseRules(rules, Dispatch(d)) == []
  {
    if rules != [] {
      NoDispatchRules(rules[..|rules| - 1], d);
    }
  }

  lemma OptionalDispatchAdded(t: Table, d: Direction, g: Option<DirectionGeneration>)
    requires Dispatch(d) in t.chains && (g.Some? ==> HasSets(t, g.value))
    ensures Commit(Present(t), OptionalDispatchOps(d, g)) ==
      Some(Present(if g.Some? then WithDispatch(t, d, g.value) else t))
  {
    if g.Some? {
      DispatchAdded(t, d, g.value);
    }
  }

  /** `replace_rules` leaves exactly the rendered chains, whatever was there before. */
  lemma RulesReplaced(t: Table, rules: seq<RenderedRule>, active: ActiveGenerations)
    requires HasActive(t, active)
    ensures Commit(Present(t), ReplaceRulesOps(rules, active)) == Some(Present(t.(chains := Render(rules, active))))
  {
    hide BaseRules, Commit, WithDispatch, WithBaseRules, WithChains, WithoutRules, AddChainOps, FlushOps,
      BaseRuleOps, OptionalDispatchOps, Render, CHAINS;
    var u := Flattened(t);
    ChainsCleared(t);
    BaseRulesAdded(u, rules);
    BaseRendered(u, rules);
    var v := u.(chains := Render(rules, NONE));
    var head := AddChainOps(CHAINS) + FlushOps(CHAINS);
    CommitJoin(Present(t), head, BaseRuleOps(rules));
    RenderKeys(rules, NONE);
    OptionalDispatchAdded(v, Inbound, active.inbound);
    CommitJoin(Present(t), head + BaseRuleOps(rules), OptionalDispatchOps(Inbound, active.inbound));
    var w := v.(chains := Render(rules, active.(outbound := None)));
    if active.inbound.Some? {
      RenderOneMore(v, rules, NONE, Inbound, active.inbound.value);
    } else {
      assert active.(outbound := None) == NONE;
    }
    RenderKeys(rules, active.(outbound := None));
    OptionalDispatchAdded(w, Outbound, active.outbound);
    CommitJoin(Present(t), head + BaseRuleOps(rules) + OptionalDispatchOps(Inbound, active.inbound),
      OptionalDispatchOps(Outbound, active.outbound));
    if active.outbound.Some? {
      RenderOneMore(w, rules, active.(outbound := None), Outbound, active.outbound.value);
    } else {
      assert active.(outbound := None) == active;
    }
  }

  /** The table with five empty chains. */
  function Flattened(t: Table): Table {
    t.(chains := map c: Chain | c in CHAINS :: [])
  }

  lemma ChainsCleared(t: Table)
    ensures Commit(Present(t), AddChainOps(CHAINS) + FlushOps(CHAINS)) == Some(Present(Flattened(t)))
    ensures Flattened(t).chains.Keys == (set c <- CHAINS)
    ensures forall c <- CHAINS :: c in Flattened(t).chains
  {
    hide Commit;
    ChainsAdded(t, CHAINS);
    var u := WithChains(t, CHAINS);
    ChainsFlushed(u, CHAINS);
    CommitJoin(Present(t), AddChainOps(CHAINS), FlushOps(CHAINS));
    forall c | c in t.chains
      ensures c in CHAINS
    {
      EveryChain(c);
    }
    assert WithoutRules(u, CHAINS).chains == Flattened(t).chains;
  }

  lemma RenderKeys(rules: seq<RenderedRule>, active: ActiveGenerations)
    ensures forall d :: Dispatch(d) in Render(rules, active)
  {
    forall d
      ensures Dispatch(d) in CHAINS
    {
      EveryChain(Dispatch(d));
    }
  }

  lemma ChainOneMore(rules: seq<RenderedRule>, active: ActiveGenerations, d: Direction, g: DirectionGeneration)
    requires active.Get(d).None?
    ensures RenderChain(rules, active, Dispatch(d)) == []
    ensures forall c :: RenderChain(rules, active.Set(g, d), c) ==
                        if c == Dispatch(d) then DispatchRules(d, g) else RenderChain(rules, active, c)
  {
    hide BaseRules;
  }

  /** Rendering one more generation appends its rules to its own, so far empty, chain. */
  lemma RenderOneMore(v: Table, rules: seq<RenderedRule>, active: ActiveGenerations, d: Direction,
                      g: DirectionGeneration)
    requires v.chains == Render(rules, active) && active.Get(d).None?
    ensures Dispatch(d) in v.chains
    ensures WithDispatch(v, d, g) == v.(chains := Render(rules, active.Set(g, d)))
  {
    hide RenderChain, DispatchRules, CHAINS;
    RenderKeys(rules, active);
    var more := active.Set(g, d);
    ChainOneMore(rules, active, d, g);
    assert [] + DispatchRules(d, g) == DispatchRules(d, g);
    assert Render(rules, more) == WithDispatch(v, d, g).chains;
  }

  /** `replace_dispatch` replaces the rules of one dispatch chain and touches nothing else. */
  lemma DispatchReplaced(t: Table, d: Direction, g: DirectionGeneration)
    requires HasSets(t, g)
    ensures Commit(Present(t), ReplaceDispatchOps(d, g)) ==
      Some(Present(t.(chains := t.chains[Dispatch(d) := DispatchRules(d, g)])))
  {
    hide Commit, WithDispatch;
    var one := [Dispatch(d)];
    ChainsAdded(t, one);
    var u := WithChains(t, one);
    ChainsFlushed(u, one);
    var v := WithoutRules(u, one);
    CommitJoin(Present(t), AddChainOps(one), FlushOps(one));
    DispatchAdded(v, d, g);
    CommitJoin(Present(t), AddChainOps(one) + FlushOps(one), DispatchOps(d, g));
    EmptyDispatch(t, d, g);
  }

  lemma EmptyDispatch(t: Table, d: Direction, g: DirectionGeneration)
    ensures var v := WithoutRules(WithChains(t, [Dispatch(d)]), [Dispatch(d)]);
      Dispatch(d) in v.chains && WithDispatch(v, d, g) == t.(chains := t.chains[Dispatch(d) := DispatchRules(d, g)])
  {
    var v := WithoutRules(WithChains(t, [Dispatch(d)]), [Dispatch(d)]);
    assert [] + DispatchRules(d, g) == DispatchRules(d, g);
    assert WithDispatch(v, d, g).chains == t.chains[Dispatch(d) := DispatchRules(d, g)];
  }
}
