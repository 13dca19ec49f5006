/**
 The kernel side of nftables: one table of sets and chains, changed by batches. A batch is
 applied as a whole or not at all; a batch that names something missing, or deletes a set
 a rule still looks up, is refused.
 */
module Netfilter {
  import opened Wrappers
  import opened Requests
  import opened Addresses
  import opened IntervalSets
  import opened GenerationNames

  datatype Chain = Input | Forward | Output | Dispatch(direction: Direction)

  /** The address a lookup compares is the source for inbound lists, the destination for outbound ones. */
  datatype Rule =
    | Jump(ingress: Option<string>, egress: Option<string>, target: Direction)
    | DropListed(family: Family, direction: Direction, set_: string)

  datatype SetBody = SetBody(family: Family, elements: set<Boundary>)

  datatype Table = Table(sets: map<string, SetBody>, chains: map<Chain, seq<Rule>>)

  datatype TableState = Absent | Present(table: Table)

  datatype Op =
    | AddTable
    | AddChain(chain: Chain)
    | AddSet(name: string, family: Family)
    | AddElements(name: string, family: Family, elements: seq<Boundary>)
    | DeleteSet(name: string)
    | FlushRules(chain: Chain)
    | AddRule(chain: Chain, rule: Rule)

  predicate LooksUp(t: Table, name: string) {
    exists c <- t.chains :: exists r <- t.chains[c] :: r.DropListed? && r.set_ == name
  }

  predicate Resolves(t: Table, r: Rule) {
    match r
    case Jump(_, _, d) => Dispatch(d) in t.chains
    case DropListed(_, _, name) => name in t.sets
  }

  function Apply(op: Op, s: TableState): Option<TableState> {
    match s
    case Absent => if op.AddTable? then Some(Present(Table(map[], map[]))) else None
    case Present(t) =>
      match op
      case AddTable => Some(s)
      case AddChain(c) =>
        Some(Present(if c in t.chains then t else t.(chains := t.chains[c := []])))
      case AddSet(name, f) =>
        if name !in t.sets then Some(Present(t.(sets := t.sets[name := SetBody(f, {})])))
        else if t.sets[name].family == f then Some(s)
        else None
      case AddElements(name, f, es) =>
        if name in t.sets && t.sets[name].family == f then
          Some(Present(t.(sets := t.sets[name := SetBody(f, t.sets[name].elements + set e <- es)])))
        else None
      case DeleteSet(name) =>
        if name in t.sets && !LooksUp(t, name) then Some(Present(t.(sets := t.sets - {name}))) else None
      case FlushRules(c) =>
        if c in t.chains then Some(Present(t.(chains := t.chains[c := []]))) else None
      case AddRule(c, r) =>
        if c in t.chains && Resolves(t, r) then Some(Present(t.(chains := t.chains[c := t.chains[c] + [r]]))) else None
  }

  /** The whole batch, or nothing. */
  function Commit(s: TableState, batch: seq<Op>): Option<TableState> {
    if batch == [] then Some(s)
    else
      match Commit(s, batch[..|batch| - 1])
      case None => None
      case Some(t) => Apply(batch[|batch| - 1], t)
  }

  lemma CommitNothing(s: TableState)
    ensures Commit(s, []) == Some(s)
  {
  }

  lemma CommitSnoc(s: TableState, batch: seq<Op>, op: Op)
    ensures Commit(s, batch + [op]) == if Commit(s, batch).Some? then Apply(op, Commit(s, batch).value) else None
  {
    assert (batch + [op])[..|batch|] == batch;
  }

  // --- Every reference resolves --------------------------------------------------------------

  /** Every set a rule looks up and every chain a rule jumps to exists. */
  ghost predicate Intact(s: TableState) {
    s.Present? ==> forall c <- s.table.chains :: forall r <- s.table.chains[c] :: Resolves(s.table, r)
  }

  lemma ApplyKeepsIntact(op: Op, s: TableState)
    requires Intact(s) && Apply(op, s).Some?
    ensures Intact(Apply(op, s).value)
  {
    hide Resolves;
    if s.Present? {
      var t, u := s.table, Apply(op, s).value.table;
      forall c, r | c in u.chains && r in u.chains[c]
        ensures Resolves(u, r)
      {
        assert Resolves(t, r) && (op.DeleteSet? && r.DropListed? ==> r.set_ != op.name);
        StillResolves(t, u, r);
      }
    }
  }

  lemma StillResolves(t: Table, u: Table, r: Rule)
    requires Resolves(t, r) && t.chains.Keys <= u.chains.Keys
    requires r.DropListed? && r.set_ in t.sets ==> r.set_ in u.sets
    ensures Resolves(u, r)
  {
  }

  /** No batch, whatever it holds, can leave a rule that looks up a missing set. */
  lemma {:induction false} CommitKeepsIntact(s: TableState, batch: seq<Op>)
    requires Intact(s) && Commit(s, batch).Some?
    ensures Intact(Commit(s, batch).value)
  {
    hide Intact, Apply;
    if batch != [] {
      var n := |batch| - 1;
      CommitKeepsIntact(s, batch[..n]);
      ApplyKeepsIntact(batch[n], Commit(s, batch[..n]).value);
    }
  }

  // --- What a packet meets -------------------------------------------------------------------

  ghost function RulesOf(t: Table, c: Chain): seq<Rule> {
    if c in t.chains then t.chains[c] else []
  }

  /** The dispatch chain of a direction drops a packet of family `f`. */
  ghost predicate Drops(t: Table, d: Direction, f: Family, source: nat, destination: nat) {
    exists r <- RulesOf(t, Dispatch(d)) ::
      && r.DropListed? && r.family == f && r.set_ in t.sets
      && Matches(t.sets[r.set_].elements, if r.direction.Inbound? then source else destination)
  }

  /** A rule without an interface matches any; one with an interface only that. */
  predicate OnInterface(wanted: Option<string>, actual: Option<string>) {
    wanted.None? || wanted == actual
  }

  /** A base chain drops a packet that came in on `ingress` and leaves on `egress`. */
  ghost predicate Filters(t: Table, c: Chain, ingress: Option<string>, egress: Option<string>,
                          f: Family, source: nat, destination: nat) {
    exists r <- RulesOf(t, c) ::
      && r.Jump? && OnInterface(r.ingress, ingress) && OnInterface(r.egress, egress)
      && Drops(t, r.target, f, source, destination)
  }

  // --- The kernel ----------------------------------------------------------------------------

  class Kernel {
    var table: TableState
    /** When set, no request fails for a reason of its own. */
    var reliable: bool
    /** Whether set dumps carry element counts. */
    const countsReported: bool
    /** Batches the kernel had to refuse. */
    ghost var refused: nat

    constructor (countsReported: bool)
      ensures table == Absent && refused == 0 && this.countsReported == countsReported && !reliable
    {
      table, reliable, refused := Absent, false, 0;
      this.countsReported := countsReported;
    }

    /** Send one batch. A failed transaction changes nothing. */
    method Send(batch: seq<Op>) returns (ok: bool)
      modifies this`table, this`refused
      ensures ok ==> Commit(old(table), batch) == Some(table)
      ensures !ok ==> table == old(table)
      ensures reliable && Commit(old(table), batch).Some? ==> ok
      ensures refused == old(refused) + if Commit(old(table), batch).None? then 1 else 0
      ensures Intact(old(table)) ==> Intact(table)
    {
      var next := Commit(table, batch);
      if next.None? {
        refused := refused + 1;
        return false;
      }
      ok := Request(reliable);
      if ok {
        if Intact(table) {
          CommitKeepsIntact(table, batch);
        }
        table := next.value;
      }
    }
  }
}
