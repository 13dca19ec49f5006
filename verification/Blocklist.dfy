/**
 The blocklist file and its normal form: which files are canonical, which line a
 rejection names, and the unique list of gap-separated intervals a file stands for.
 */
module Blocklist {
  import opened Wrappers
  import opened Bits
  import opened Addresses

  type Cidr = p: AddressPrefix | p.Valid() witness AddressPrefix(V4, 0, 0)

  /** One line of the file after trimming and parsing. */
  datatype Line = Unreadable | Blank | Garbled | Entry(net: Cidr)

  datatype Reason = Io | Invalid | HostBitsSet | Ipv4AfterIpv6 | Disorder

  // --- Canonical files -----------------------------------------------------------------

  predicate Clean(line: Line) {
    line.Blank? || (line.Entry? && line.net.Trunc() == line.net)
  }

  /** All IPv4 before all IPv6; ascending and disjoint within a family. */
  predicate Before(a: Cidr, b: Cidr) {
    if a.family == b.family then a.Last() < b.address else a.family == V4
  }

  ghost predicate Canonical(lines: seq<Line>) {
    && (forall i :: 0 <= i < |lines| ==> Clean(lines[i]))
    && (forall i, j :: 0 <= i < j < |lines| && lines[i].Entry? && lines[j].Entry? ==>
          Before(lines[i].net, lines[j].net))
  }

  /** The address is in some listed block. */
  ghost predicate Listed(lines: seq<Line>, f: Family, a: nat) {
    exists i :: 0 <= i < |lines| && lines[i].Entry? && lines[i].net.Has(f, a)
  }

  /** Why `line` cannot follow the lines `before` it. */
  ghost function Fault(before: seq<Line>, line: Line): Option<Reason> {
    match line
    case Unreadable => Some(Io)
    case Blank => None
    case Garbled => Some(Invalid)
    case Entry(net) =>
      if net.Trunc() != net then Some(HostBitsSet)
      else if net.family == V4 && Holds(before, V6) then Some(Ipv4AfterIpv6)
      else if !Follows(before, net) then Some(Disorder)
      else None
  }

  ghost predicate Holds(lines: seq<Line>, f: Family) {
    exists i :: 0 <= i < |lines| && lines[i].Entry? && lines[i].net.family == f
  }

  /** Every listed block of the same family ends before `net` begins. */
  ghost predicate Follows(lines: seq<Line>, net: Cidr) {
    forall i :: 0 <= i < |lines| && lines[i].Entry? && lines[i].net.family == net.family ==>
      lines[i].net.Last() < net.address
  }

  lemma FaultIsExact(before: seq<Line>, line: Line)
    requires Canonical(before)
    ensures Fault(before, line).None? <==> Canonical(before + [line])
  {
    var q, n := before + [line], |before|;
    assert q[n] == line;
    if Canonical(q) {
      assert Clean(q[n]);
      forall j | line.Entry? && 0 <= j < n && before[j].Entry?
        ensures Before(before[j].net, line.net)
      {
        assert before[j] == q[j];
      }
    }
  }

  lemma CanonicalPrefix(lines: seq<Line>, i: nat)
    requires i <= |lines| && Canonical(lines)
    ensures Canonical(lines[..i])
  {
  }

  // --- Runs: the normal form ------------------------------------------------------------

  /** The addresses `first ..= last` of one family. */
  datatype Run = Run(family: Family, first: nat, last: nat) {
    predicate Valid() {
      first <= last < family.Size()
    }

    predicate Has(f: Family, a: nat) {
      f == family && first <= a <= last
    }
  }

  ghost predicate InRuns(runs: seq<Run>, f: Family, a: nat) {
    exists i :: 0 <= i < |runs| && runs[i].Has(f, a)
  }

  /** `a` ends, with a gap, before `b` begins. */
  predicate Apart(a: Run, b: Run) {
    if a.family == b.family then a.last + 1 < b.first else a.family == V4
  }

  /** Ascending, maximal, gap-separated runs. */
  ghost predicate Normal(runs: seq<Run>) {
    && (forall i :: 0 <= i < |runs| ==> runs[i].Valid())
    && (forall i, j :: 0 <= i < j < |runs| ==> Apart(runs[i], runs[j]))
  }

  function RunOf(net: Cidr): Run {
    Run(net.family, net.address, net.Last())
  }

  /** Extend the last run or open a new one. */
  function Absorb(runs: seq<Run>, r: Run): seq<Run> {
    if runs != [] && runs[|runs| - 1].family == r.family && runs[|runs| - 1].last + 1 == r.first then
      runs[..|runs| - 1] + [Run(r.family, runs[|runs| - 1].first, r.last)]
    else
      runs + [r]
  }

  function Runs(lines: seq<Line>): seq<Run> {
    if lines == [] then []
    else
      var before := Runs(lines[..|lines| - 1]);
      match lines[|lines| - 1]
      case Entry(net) => Absorb(before, RunOf(net))
      case _ => before
  }

  predicate EndsAt(line: Line, r: Run) {
    line.Entry? && line.net.family == r.family && line.net.Last() == r.last
  }

  /** The last run ends where the last listed block ends. */
  ghost predicate Ends(lines: seq<Line>, r: Run) {
    && (exists i :: 0 <= i < |lines| && EndsAt(lines[i], r))
    && (forall i :: 0 <= i < |lines| && lines[i].Entry? && lines[i].net.family == r.family ==>
          lines[i].net.Last() <= r.last)
    && (r.family == V4 ==> !Holds(lines, V6))
  }

  lemma AbsorbNormal(runs: seq<Run>, r: Run)
    requires Normal(runs) && r.Valid()
    requires forall i :: 0 <= i < |runs| ==>
      (if runs[i].family == r.family then runs[i].last < r.first else runs[i].family == V4)
    ensures Normal(Absorb(runs, r))
    ensures forall f, a :: InRuns(Absorb(runs, r), f, a) <==> InRuns(runs, f, a) || r.Has(f, a)
  {
    var out := Absorb(runs, r);
    var n := |runs|;
    if n > 0 {
      var l := runs[n - 1];
      assert forall i :: 0 <= i < n - 1 ==> Apart(runs[i], l);
    }
    forall f, a
      ensures InRuns(out, f, a) <==> InRuns(runs, f, a) || r.Has(f, a)
    {
      if |out| == n {
        assert forall i :: 0 <= i < n - 1 ==> out[i] == runs[i];
        assert out[n - 1].Has(f, a) <==> runs[n - 1].Has(f, a) || r.Has(f, a);
        if InRuns(runs, f, a) {
          var i :| 0 <= i < n && runs[i].Has(f, a);
          assert out[i].Has(f, a);
        }
      } else {
        assert out[n] == r && forall i :: 0 <= i < n ==> out[i] == runs[i];
        if r.Has(f, a) { assert out[n].Has(f, a); }
        if InRuns(runs, f, a) {
          var i :| 0 <= i < n && runs[i].Has(f, a);
          assert out[i].Has(f, a);
        }
      }
    }
  }

  /** The runs of a canonical file are in normal form and hold exactly the listed addresses. */
  lemma {:induction false} RunsAreNormal(lines: seq<Line>)
    requires Canonical(lines)
    ensures Normal(Runs(lines))
    ensures forall f, a :: InRuns(Runs(lines), f, a) <==> Listed(lines, f, a)
    ensures Runs(lines) == [] ==> !Holds(lines, V4) && !Holds(lines, V6)
    ensures Runs(lines) != [] ==> Ends(lines, Runs(lines)[|Runs(lines)| - 1])
  {
    hide Canonical, Normal, Holds, Listed, InRuns, Ends, AddressPrefix.Has;
    if lines == [] {
      NothingListed();
    } else {
      var n := |lines| - 1;
      var p := lines[..n];
      assert lines == p + [lines[n]];
      CanonicalPrefix(lines, n);
      RunsAreNormal(p);
      forall f, a
        ensures Listed(lines, f, a) <==> Listed(p, f, a) || (lines[n].Entry? && lines[n].net.Has(f, a))
      {
        ListedSnoc(p, lines[n], f, a);
      }
      HoldsSnoc(p, lines[n]);
      if lines[n].Entry? {
        var net := lines[n].net;
        RunsEntry(p, net);
      } else {
        if Runs(p) != [] { EndsBlank(p, lines[n], Runs(p)[|Runs(p)| - 1]); }
      }
    }
  }

  lemma NothingListed()
    ensures Runs([]) == [] && Normal([]) && forall f, a :: !InRuns([], f, a) && !Listed([], f, a)
    ensures forall f :: !Holds([], f)
  {
  }

  lemma ListedSnoc(p: seq<Line>, l: Line, f: Family, a: nat)
    ensures Listed(p + [l], f, a) <==> Listed(p, f, a) || (l.Entry? && l.net.Has(f, a))
  {
    var q := p + [l];
    if Listed(p, f, a) {
      var i :| 0 <= i < |p| && p[i].Entry? && p[i].net.Has(f, a);
      assert q[i].Entry? && q[i].net.Has(f, a);
    }
    if l.Entry? && l.net.Has(f, a) {
      assert q[|p|].Entry? && q[|p|].net.Has(f, a);
    }
  }

  lemma HoldsSnoc(p: seq<Line>, l: Line)
    ensures forall f :: Holds(p + [l], f) <==> Holds(p, f) || (l.Entry? && l.net.family == f)
  {
    var q := p + [l];
    forall f
      ensures Holds(q, f) <==> Holds(p, f) || (l.Entry? && l.net.family == f)
    {
      if Holds(p, f) {
        var i :| 0 <= i < |p| && p[i].Entry? && p[i].net.family == f;
        assert q[i].Entry? && q[i].net.family == f;
      }
      if l.Entry? && l.net.family == f {
        assert q[|p|].Entry? && q[|p|].net.family == f;
      }
    }
  }

  lemma EndsBlank(p: seq<Line>, l: Line, r: Run)
    requires Ends(p, r) && !l.Entry?
    ensures Ends(p + [l], r)
  {
    var q := p + [l];
    var i :| 0 <= i < |p| && EndsAt(p[i], r);
    assert q[i] == p[i];
    HoldsSnoc(p, l);
  }

  lemma RunsEntry(p: seq<Line>, net: Cidr)
    requires Canonical(p) && Canonical(p + [Entry(net)])
    requires Normal(Runs(p))
    requires forall f, a :: InRuns(Runs(p), f, a) <==> Listed(p, f, a)
    requires Runs(p) == [] ==> !Holds(p, V4) && !Holds(p, V6)
    requires Runs(p) != [] ==> Ends(p, Runs(p)[|Runs(p)| - 1])
    ensures Normal(Absorb(Runs(p), RunOf(net)))
    ensures forall f, a :: InRuns(Absorb(Runs(p), RunOf(net)), f, a) <==> Listed(p, f, a) || net.Has(f, a)
    ensures Ends(p + [Entry(net)], Absorb(Runs(p), RunOf(net))[|Absorb(Runs(p), RunOf(net))| - 1])
  {
    hide AddressPrefix.Last, AddressPrefix.HostBits, ClearLow, Runs, Canonical, Holds;
    var q := p + [Entry(net)];
    var runs, r := Runs(p), RunOf(net);
    LastEntry(p, net);
    RunOfBlock(net);
    forall i | 0 <= i < |runs|
      ensures if runs[i].family == r.family then runs[i].last < r.first else runs[i].family == V4
    {
      assert runs[i].Has(runs[i].family, runs[i].last);
      assert Listed(p, runs[i].family, runs[i].last);
    }
    AbsorbNormal(runs, r);
    HoldsSnoc(p, Entry(net));
    assert q[|p|] == Entry(net) && EndsAt(q[|p|], Absorb(runs, r)[|Absorb(runs, r)| - 1]);
  }

  lemma LastEntry(p: seq<Line>, net: Cidr)
    requires Canonical(p + [Entry(net)])
    ensures net.Trunc() == net
    ensures forall i :: 0 <= i < |p| && p[i].Entry? ==> Before(p[i].net, net)
  {
    var q := p + [Entry(net)];
    assert Clean(q[|p|]);
    forall i | 0 <= i < |p| && p[i].Entry?
      ensures Before(p[i].net, net)
    {
      assert q[i] == p[i] && q[|p|] == Entry(net);
    }
  }

  lemma RunOfBlock(net: Cidr)
    requires net.Trunc() == net
    ensures RunOf(net).Valid() && RunOf(net).last == net.Last()
    ensures forall f, a :: RunOf(net).Has(f, a) <==> net.Has(f, a)
  {
    TruncIsAligned(net);
    AlignedFits(net);
  }

  // --- Uniqueness ------------------------------------------------------------------------

  ghost predicate SameAddresses(a: seq<Run>, b: seq<Run>) {
    forall f, x :: InRuns(a, f, x) <==> InRuns(b, f, x)
  }

  lemma FirstAddress(a: seq<Run>)
    requires Normal(a) && a != []
    ensures InRuns(a, a[0].family, a[0].first)
    ensures forall x :: a[0].first <= x <= a[0].last ==> InRuns(a, a[0].family, x)
    ensures forall f, x :: InRuns(a, f, x) ==> if f == a[0].family then a[0].first <= x else a[0].family == V4
    ensures !InRuns(a, a[0].family, a[0].last + 1)
  {
    assert forall x :: a[0].first <= x <= a[0].last ==> a[0].Has(a[0].family, x);
    assert a[0].Has(a[0].family, a[0].first);
  }

  lemma TailAddresses(a: seq<Run>)
    requires Normal(a) && a != []
    ensures Normal(a[1..])
    ensures forall f, x :: InRuns(a[1..], f, x) <==> InRuns(a, f, x) && !a[0].Has(f, x)
  {
    var t := a[1..];
    forall f, x
      ensures InRuns(t, f, x) <==> InRuns(a, f, x) && !a[0].Has(f, x)
    {
      if InRuns(t, f, x) {
        var i :| 0 <= i < |t| && t[i].Has(f, x);
        assert a[i + 1].Has(f, x) && Apart(a[0], a[i + 1]);
      }
      if InRuns(a, f, x) && !a[0].Has(f, x) {
        var i :| 0 <= i < |a| && a[i].Has(f, x);
        assert t[i - 1].Has(f, x);
      }
    }
  }

  /** A set of addresses has one normal form only. */
  lemma {:induction false} NormalIsUnique(a: seq<Run>, b: seq<Run>)
    requires Normal(a) && Normal(b) && SameAddresses(a, b)
    ensures a == b
  {
    if a == [] {
      if b != [] {
        FirstAddress(b);
      }
    } else if b == [] {
      FirstAddress(a);
    } else {
      FirstAddress(a);
      FirstAddress(b);
      SameHead(a, b);
      TailAddresses(a);
      TailAddresses(b);
      NormalIsUnique(a[1..], b[1..]);
      assert a == [a[0]] + a[1..] && b == [b[0]] + b[1..];
    }
  }

  lemma SameHead(a: seq<Run>, b: seq<Run>)
    requires Normal(a) && Normal(b) && SameAddresses(a, b) && a != [] && b != []
    requires a[0].family == b[0].family && a[0].first == b[0].first
    ensures a[0] == b[0]
  {
    FirstAddress(a);
    FirstAddress(b);
  }

  /** Two canonical files that list the same addresses have the same normal form. */
  lemma SameFileSameRuns(p: seq<Line>, q: seq<Line>)
    requires Canonical(p) && Canonical(q)
    requires forall f, a :: Listed(p, f, a) <==> Listed(q, f, a)
    ensures Runs(p) == Runs(q)
  {
    RunsAreNormal(p);
    RunsAreNormal(q);
    NormalIsUnique(Runs(p), Runs(q));
  }
}
