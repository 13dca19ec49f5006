/** Address families, intervals and CIDR blocks as the daemon sees them. */
module Addresses {
  import opened Bits
  import opened Wrappers

  datatype Family = V4 | V6 {
    function Width(): nat {
      match this
      case V4 => 32
      case V6 => 128
    }

    /** Number of addresses of the family. */
    function Size(): nat {
      match this
      case V4 => 0x1_0000_0000
      case V6 => 0x1_0000_0000_0000_0000_0000_0000_0000_0000
    }
  }

  lemma SizeIsPower(f: Family)
    ensures f.Size() == Pow2(f.Width())
  {
    match f {
      case V4 => Width32();
      case V6 => Width128();
    }
  }

  /** Half-open interval; no `afterLast` means it runs to the last address of the family. */
  datatype AddressInterval = AddressInterval(family: Family, first: nat, afterLast: Option<nat>) {
    function Stop(): nat {
      match afterLast
      case Some(x) => x
      case None => family.Size()
    }

    predicate Valid() {
      && first < Stop() <= family.Size()
      && (afterLast.Some? ==> afterLast.value < family.Size())
    }

    predicate Has(f: Family, a: nat) {
      f == family && first <= a < Stop()
    }

    function BoundaryElements(): nat {
      1 + if afterLast.Some? then 1 else 0
    }
  }

  /** A CIDR block by its network address and prefix length. */
  datatype AddressPrefix = AddressPrefix(family: Family, address: nat, prefixLen: nat) {
    predicate Valid() {
      prefixLen <= family.Width() && address < family.Size()
    }

    function HostBits(): nat
      requires Valid()
    {
      family.Width() - prefixLen
    }

    /** The block with its host bits cleared. */
    function Trunc(): AddressPrefix
      requires Valid()
    {
      AddressPrefix(family, ClearLow(address, HostBits()), prefixLen)
    }

    /** The broadcast address of a truncated block. */
    function Last(): nat
      requires Valid()
    {
      address + Pow2(HostBits()) - 1
    }

    predicate Has(f: Family, a: nat)
      requires Valid()
    {
      f == family && address <= a <= Last()
    }
  }

  /** Some prefix of the collection holds the address. */
  predicate Covered(prefixes: set<AddressPrefix>, f: Family, a: nat) {
    exists p <- prefixes :: p.Valid() && p.Has(f, a)
  }

  ghost function PrefixSet(prefixes: seq<AddressPrefix>): set<AddressPrefix> {
    set p <- prefixes
  }

  lemma TruncIsAligned(p: AddressPrefix)
    requires p.Valid()
    ensures p.Trunc() == p <==> Aligned(p.address, p.HostBits())
  {
  }

  lemma AlignedFits(p: AddressPrefix)
    requires p.Valid() && Aligned(p.address, p.HostBits())
    ensures p.Last() < p.family.Size()
  {
    SizeIsPower(p.family);
    var h, w := p.HostBits(), p.family.Width();
    PowerAligned(w, h);
    var i := Multiple(p.address, h);
    var j := Multiple(Pow2(w), h);
    NextMultiple(i, j, Pow2(h));
  }
}
