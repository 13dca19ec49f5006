/**
 The other encoding of a list: the boundary elements of an nftables interval set.
 `add_range` writes a start element and, unless the interval runs to the end of the
 address space, an end-flagged element. The set matches an address when the nearest
 boundary at or below it is a start.
 */
module IntervalSets {
  import opened Wrappers
  import opened Addresses
  import opened Blocklist
  import opened Stream

  datatype Boundary = Boundary(key: nat, isEnd: bool)

  /** The elements `add_range` attaches for one interval. */
  function AddRange(first: nat, afterLast: Option<nat>): seq<Boundary> {
    [Boundary(first, false)] + if afterLast.Some? then [Boundary(afterLast.value, true)] else []
  }

  /** The elements written for the intervals of family `f`, in order. */
  function Elements(ivs: Chunk, f: Family): seq<Boundary> {
    if ivs == [] then
      []
    else
      var iv := ivs[|ivs| - 1];
      Elements(ivs[..|ivs| - 1], f) + if iv.family == f then AddRange(iv.first, iv.afterLast) else []
  }

  ghost function ElementSet(ivs: Chunk, f: Family): set<Boundary> {
    set b <- Elements(ivs, f)
  }

  /** The set's lookup: the nearest boundary at or below `a` exists and is a start. */
  ghost predicate Matches(elements: set<Boundary>, a: nat) {
    exists b <- elements :: Nearest(elements, b, a) && !b.isEnd
  }

  ghost predicate Nearest(elements: set<Boundary>, b: Boundary, a: nat) {
    b in elements && b.key <= a && forall c <- elements :: c.key <= a ==> c.key <= b.key
  }

  /** What the kernel reports as the element count of an interval set: its interval starts. */
  function StartCount(elements: set<Boundary>): nat {
    |Starts(elements)|
  }

  lemma {:induction false} ElementsJoin(a: Chunk, b: Chunk, f: Family)
    ensures Elements(a + b, f) == Elements(a, f) + Elements(b, f)
  {
    if b == [] {
      assert a + b == a;
    } else {
      var n := |b| - 1;
      assert (a + b)[..|a + b| - 1] == a + b[..n];
      ElementsJoin(a, b[..n], f);
    }
  }

  // --- Strictly increasing keys ----------------------------------------------------------

  /** Keys strictly increase; only the last element can be a start without an end after it. */
  ghost predicate WellOrdered(es: seq<Boundary>) {
    && (forall i, j :: 0 <= i < j < |es| ==> es[i].key < es[j].key)
    && (forall i, j :: 0 <= i && j == i + 1 < |es| ==> es[i].isEnd != es[j].isEnd)
    && (es != [] ==> !es[0].isEnd)
  }

  ghost predicate Bounded(runs: seq<Run>, es: seq<Boundary>, f: Family) {
    forall b <- es :: b.key < f.Size() && exists r <- runs :: r.family == f && b.key <= r.last + 1
  }

  /** An unmatched last start means some run reaches the end of the address space. */
  ghost predicate Closed(runs: seq<Run>, es: seq<Boundary>, f: Family) {
    es != [] && !es[|es| - 1].isEnd ==> exists r <- runs :: r.family == f && r.last + 1 == f.Size()
  }

  lemma SealedElements(runs: seq<Run>, f: Family)
    requires runs != []
    ensures var n := |runs| - 1; var r := runs[n];
      Elements(SealAll(runs), f) ==
      Elements(SealAll(runs[..n]), f)
      + if r.family == f then AddRange(r.first, CheckedAdd(f, r.last)) else []
  {
    var n := |runs| - 1;
    assert SealAll(runs)[..n] == SealAll(runs[..n]);
  }

  lemma {:induction false} KeysIncrease(runs: seq<Run>, f: Family)
    requires Normal(runs)
    ensures WellOrdered(Elements(SealAll(runs), f))
    ensures Bounded(runs, Elements(SealAll(runs), f), f) && Closed(runs, Elements(SealAll(runs), f), f)
  {
    hide Normal, Elements, SealAll, WellOrdered, Bounded, Closed;
    if runs == [] {
      NoKeys(f);
    } else {
      var n := |runs| - 1;
      var p, r := runs[..n], runs[n];
      NormalTake(runs, n);
      KeysIncrease(p, f);
      SealedElements(runs, f);
      var front := Elements(SealAll(p), f);
      assert runs == p + [r];
      if r.family == f {
        KeysStep(p, r, front, f);
      } else {
        assert front + [] == front;
        Widen(p, r, front, f);
      }
    }
  }

  lemma NoKeys(f: Family)
    ensures Elements(SealAll([]), f) == [] && WellOrdered([]) && Bounded([], [], f) && Closed([], [], f)
  {
  }

  lemma NormalTake(runs: seq<Run>, n: nat)
    requires Normal(runs) && n <= |runs|
    ensures Normal(runs[..n])
  {
  }

  lemma Widen(p: seq<Run>, r: Run, es: seq<Boundary>, f: Family)
    requires Bounded(p, es, f) && Closed(p, es, f)
    ensures Bounded(p + [r], es, f) && Closed(p + [r], es, f)
  {
    assert forall s <- p :: s in p + [r];
  }

  lemma FrontBelow(p: seq<Run>, r: Run, front: seq<Boundary>, f: Family)
    requires Normal(p + [r]) && r.family == f
    requires Bounded(p, front, f) && Closed(p, front, f)
    ensures forall b <- front :: b.key < r.first
    ensures front != [] ==> front[|front| - 1].isEnd
  {
    var runs := p + [r];
    forall s <- p | s.family == f
      ensures s.last + 1 < r.first
    {
      var i :| 0 <= i < |p| && p[i] == s;
      assert Apart(runs[i], runs[|p|]);
    }
    assert runs[|p|].Valid();
  }

  lemma KeysStep(p: seq<Run>, r: Run, front: seq<Boundary>, f: Family)
    requires Normal(p + [r]) && r.family == f
    requires WellOrdered(front) && Bounded(p, front, f) && Closed(p, front, f)
    ensures var es := front + AddRange(r.first, CheckedAdd(f, r.last));
      WellOrdered(es) && Bounded(p + [r], es, f) && Closed(p + [r], es, f)
  {
    var back := AddRange(r.first, CheckedAdd(f, r.last));
    assert r.Valid() by { assert (p + [r])[|p|] == r; }
    FrontBelow(p, r, front, f);
    AppendOrdered(front, back);
    assert r in p + [r];
    forall b <- front + back
      ensures b.key < f.Size() && exists s <- p + [r] :: s.family == f && b.key <= s.last + 1
    {
      if b in front {
        var s :| s in p && s.family == f && b.key <= s.last + 1;
        assert s in p + [r];
      }
    }
  }

  lemma AppendOrdered(front: seq<Boundary>, back: seq<Boundary>)
    requires WellOrdered(front) && WellOrdered(back) && back != []
    requires forall b <- front :: b.key < back[0].key
    requires front != [] ==> front[|front| - 1].isEnd
    ensures WellOrdered(front + back)
  {
    var out := front + back;
    forall i, j | 0 <= i < j < |out|
      ensures out[i].key < out[j].key
    {
      if i < |front| <= j {
        assert front[i] in front;
        assert back[0].key <= back[j - |front|].key;
      }
    }
  }

  // --- The lookup agrees with membership ---------------------------------------------------

  /** Membership in the elements, run by run. */
  lemma {:induction false} ElementIff(runs: seq<Run>, f: Family, b: Boundary)
    requires Normal(runs)
    ensures b in Elements(SealAll(runs), f) <==>
      exists r <- runs :: r.family == f && b in AddRange(r.first, CheckedAdd(f, r.last))
  {
    hide Normal, Elements, SealAll, AddRange, CheckedAdd;
    if runs == [] {
      NoKeys(f);
    } else {
      var n := |runs| - 1;
      NormalTake(runs, n);
      SealedElements(runs, f);
      ElementIff(runs[..n], f, b);
      assert runs == runs[..n] + [runs[n]];
    }
  }

  /** A family's set matches an address exactly when some run of that family holds it. */
  lemma MatchesIffInRuns(runs: seq<Run>, f: Family, a: nat)
    requires Normal(runs) && a < f.Size()
    ensures Matches(ElementSet(SealAll(runs), f), a) <==> InRuns(runs, f, a)
  {
    hide Normal, Elements, SealAll, ElementSet, Nearest;
    var es := ElementSet(SealAll(runs), f);
    if InRuns(runs, f, a) {
      var i :| 0 <= i < |runs| && runs[i].Has(f, a);
      StartIsNearest(runs, i, f, a);
    }
    if Matches(es, a) {
      var b :| b in es && Nearest(es, b, a) && !b.isEnd;
      NearestStartHolds(runs, f, b, a);
    }
  }

  lemma NearestStartHolds(runs: seq<Run>, f: Family, b: Boundary, a: nat)
    requires Normal(runs) && a < f.Size()
    requires Nearest(ElementSet(SealAll(runs), f), b, a) && !b.isEnd
    ensures InRuns(runs, f, a)
  {
    hide Elements, SealAll;
    ElementIff(runs, f, b);
    var r :| r in runs && r.family == f && b in AddRange(r.first, CheckedAdd(f, r.last));
    var i :| 0 <= i < |runs| && runs[i] == r;
    assert r.Valid() && b.key == r.first;
    if r.last + 1 < f.Size() {
      var stop := Boundary(r.last + 1, true);
      assert stop in AddRange(r.first, CheckedAdd(f, r.last));
      ElementIff(runs, f, stop);
      assert stop in ElementSet(SealAll(runs), f);
    }
    assert runs[i].Has(f, a);
  }

  lemma InOrder(runs: seq<Run>, i: nat, j: nat)
    requires Normal(runs) && i < |runs| && j < |runs|
    ensures runs[i].Valid() && runs[j].Valid()
    ensures i < j && runs[i].family == runs[j].family ==> runs[i].last + 1 < runs[j].first
    ensures j < i && runs[i].family == runs[j].family ==> runs[j].last + 1 < runs[i].first
  {
    assert i < j ==> Apart(runs[i], runs[j]);
    assert j < i ==> Apart(runs[j], runs[i]);
  }

  lemma StartIsNearest(runs: seq<Run>, i: nat, f: Family, a: nat)
    requires Normal(runs) && i < |runs| && runs[i].Has(f, a)
    ensures Matches(ElementSet(SealAll(runs), f), a)
  {
    hide Elements, SealAll;
    var es := ElementSet(SealAll(runs), f);
    var b := Boundary(runs[i].first, false);
    assert b in AddRange(runs[i].first, CheckedAdd(f, runs[i].last));
    ElementIff(runs, f, b);
    forall c <- es | c.key <= a
      ensures c.key <= b.key
    {
      ElementIff(runs, f, c);
      var r :| r in runs && r.family == f && c in AddRange(r.first, CheckedAdd(f, r.last));
      var j :| 0 <= j < |runs| && runs[j] == r;
      InOrder(runs, i, j);
    }
    assert Nearest(es, b, a);
  }

  // --- Counts ------------------------------------------------------------------------------

  function Starts(elements: set<Boundary>): set<Boundary> {
    set b <- elements | !b.isEnd
  }

  /** The kernel's count of a populated set is the number of intervals the pass reported. */
  lemma {:induction false} StartsAreIntervals(runs: seq<Run>, f: Family)
    requires Normal(runs)
    ensures StartCount(ElementSet(SealAll(runs), f)) == Count(SealAll(runs), f)
    ensures |Elements(SealAll(runs), f)| == Boundaries(SealAll(runs), f)
  {
    hide Normal, Elements, ElementSet, StartCount, Count, Boundaries, SealAll;
    if runs == [] {
      NoStarts(f);
    } else {
      var n := |runs| - 1;
      NormalTake(runs, n);
      StartsAreIntervals(runs[..n], f);
      SealedElements(runs, f);
      assert runs == runs[..n] + [runs[n]];
      SealSnoc(runs[..n], runs[n]);
      CountSnoc(SealAll(runs[..n]), Seal(runs[n]), f);
      OneMoreStart(runs, f);
    }
  }

  lemma NoStarts(f: Family)
    ensures StartCount(ElementSet(SealAll([]), f)) == Count(SealAll([]), f) == 0
    ensures |Elements(SealAll([]), f)| == Boundaries(SealAll([]), f) == 0
  {
    assert Starts(ElementSet(SealAll([]), f)) == {};
  }

  lemma CountSnoc(ivs: Chunk, iv: AddressInterval, f: Family)
    ensures Count(ivs + [iv], f) == Count(ivs, f) + if iv.family == f then 1 else 0
    ensures Boundaries(ivs + [iv], f) == Boundaries(ivs, f) + if iv.family == f then iv.BoundaryElements() else 0
  {
    assert (ivs + [iv])[..|ivs|] == ivs;
  }

  lemma OneMoreStart(runs: seq<Run>, f: Family)
    requires Normal(runs) && runs != []
    ensures StartCount(ElementSet(SealAll(runs), f)) ==
      StartCount(ElementSet(SealAll(runs[..|runs| - 1]), f)) + if runs[|runs| - 1].family == f then 1 else 0
  {
    var n := |runs| - 1;
    SealedElements(runs, f);
    var before, after := Starts(ElementSet(SealAll(runs[..n]), f)), Starts(ElementSet(SealAll(runs), f));
    if runs[n].family == f {
      NewStart(runs, f);
      assert after == before + {Boundary(runs[n].first, false)};
    } else {
      assert after == before;
    }
  }

  lemma NewStart(runs: seq<Run>, f: Family)
    requires Normal(runs) && runs != [] && runs[|runs| - 1].family == f
    ensures Boundary(runs[|runs| - 1].first, false) !in Elements(SealAll(runs[..|runs| - 1]), f)
  {
    var n := |runs| - 1;
    var b := Boundary(runs[n].first, false);
    ElementIff(runs[..n], f, b);
    forall i | 0 <= i < n
      ensures runs[i].family == f ==> runs[i].first < runs[n].first
    {
      assert Apart(runs[i], runs[n]);
    }
  }
}
