/**
 The XDP program: walk at most two VLAN tags, check the network header, look the source
 address up in the active slot. Every read is bounds-checked against the end of the frame.
 */
module Packet {
  import opened Wrappers
  import opened Bits
  import opened Addresses
  import opened XdpProtocol

  type Bytes = seq<u8>

  datatype Action = Pass | Drop

  const IPV4: nat := 0x0800
  const IPV6: nat := 0x86dd
  const VLAN: nat := 0x8100
  const QINQ: nat := 0x88a8

  /** Big-endian value of a byte string. */
  function Value(s: Bytes): nat {
    if s == [] then 0 else 256 * Value(s[..|s| - 1]) + s[|s| - 1] as nat
  }

  /** The bytes of `a` in network order: the byte with `k` bytes behind it is the `k`-th digit of `a` to base 256. */
  ghost predicate Spells(s: Bytes, a: nat) {
    forall i :: 0 <= i < |s| ==> s[i] as nat == a / Pow2(8 * (|s| - 1 - i)) % 256
  }

  lemma EightBits(k: nat)
    ensures Pow2(k + 8) == 256 * Pow2(k)
  {
    Pow2Add(8, k);
    Pow2Double(4, 16);
  }

  lemma DigitShift(a: nat, q: nat)
    requires q > 0
    ensures a / 256 / q == a / (256 * q)
  {
    var x := a / 256;
    var y, r := x / q, x % q;
    assert a == 256 * x + a % 256 && x == q * y + r;
    assert a == (256 * q) * y + (256 * r + a % 256);
    Quotient(a, 256 * q, y, 256 * r + a % 256);
  }

  lemma Quotient(a: nat, d: nat, y: nat, r: nat)
    requires a == d * y + r && r < d
    ensures a / d == y
  {
    var z := a / d;
    assert a == d * z + a % d;
    assert z + 1 <= y ==> d * (z + 1) <= d * y;
    assert y + 1 <= z ==> d * (y + 1) <= d * z;
  }

  /** All but the last byte spell all but the last digit. */
  lemma SpellsFront(s: Bytes, a: nat)
    requires s != [] && Spells(s[..|s| - 1], a / 256)
    ensures Spells(s, a) <==> s[|s| - 1] as nat == a % 256
  {
    var n := |s| - 1;
    assert Pow2(0) == 1;
    forall i | 0 <= i < n
      ensures s[i] as nat == a / Pow2(8 * (n - i)) % 256
    {
      EightBits(8 * (n - 1 - i));
      DigitShift(a, Pow2(8 * (n - 1 - i)));
      assert s[..n][i] == s[i];
    }
  }

  lemma FrontSpells(s: Bytes, a: nat)
    requires s != [] && Spells(s, a)
    ensures Spells(s[..|s| - 1], a / 256)
  {
    var n := |s| - 1;
    forall i | 0 <= i < n
      ensures s[..n][i] as nat == a / 256 / Pow2(8 * (n - 1 - i)) % 256
    {
      EightBits(8 * (n - 1 - i));
      DigitShift(a, Pow2(8 * (n - 1 - i)));
    }
  }

  /** A byte string spells exactly one number of its width, its big-endian value. */
  lemma {:induction false} SpellsValue(s: Bytes)
    ensures Value(s) < Pow2(8 * |s|) && Spells(s, Value(s))
  {
    hide Spells;
    if s == [] {
      NothingSpelled();
    } else {
      var n := |s| - 1;
      SpellsValue(s[..n]);
      EightBits(8 * n);
      assert Value(s) / 256 == Value(s[..n]) && Value(s) % 256 == s[n] as nat;
      SpellsFront(s, Value(s));
    }
  }

  lemma NothingSpelled()
    ensures Value([]) == 0 && Pow2(0) == 1 && Spells([], 0)
  {
  }

  lemma {:induction false} SpelledOnce(s: Bytes, a: nat)
    requires a < Pow2(8 * |s|) && Spells(s, a)
    ensures a == Value(s)
  {
    hide Spells;
    if s == [] {
      NothingSpelled();
    } else {
      var n := |s| - 1;
      FrontSpells(s, a);
      SpellsFront(s, a);
      EightBits(8 * n);
      SpelledOnce(s[..n], a / 256);
      assert a == 256 * (a / 256) + a % 256;
    }
  }

  // --- Bounds-checked reads ------------------------------------------------------------------

  /** `read_array::<N>`: nothing unless all N bytes lie inside the frame. */
  method ReadArray(frame: Bytes, offset: nat, n: nat) returns (r: Option<Bytes>)
    ensures r == if offset + n <= |frame| then Some(frame[offset..offset + n]) else None
  {
    if offset + n > |frame| {
      return None;
    }
    var value: Bytes := [];
    var index := 0;
    while index < n
      invariant 0 <= index <= n
      invariant value == frame[offset..offset + index]
    {
      value := value + [frame[offset + index]];
      index := index + 1;
    }
    return Some(value);
  }

  method ReadBeU16(frame: Bytes, offset: nat) returns (r: Option<nat>)
    ensures r == U16At(frame, offset)
    ensures r.Some? <==> offset + 2 <= |frame|
    ensures r.Some? ==> frame[offset] as nat == r.value / 256 && frame[offset + 1] as nat == r.value % 256
  {
    var bytes := ReadArray(frame, offset, 2);
    if bytes.None? {
      return None;
    }
    return Some(256 * bytes.value[0] as nat + bytes.value[1] as nat);
  }

  function U16At(frame: Bytes, offset: nat): Option<nat> {
    if offset + 2 <= |frame| then Some(256 * frame[offset] as nat + frame[offset + 1] as nat) else None
  }

  /** The lookup key of a frame, if the program gets as far as a lookup. */
  datatype Key = Key(family: Family, address: nat)

  /** The program up to the lookup: `None` is every path that passes the packet without one. */
  method SourceKey(frame: Bytes) returns (key: Option<Key>)
    ensures key == KeyOf(frame)
  {
    if 14 > |frame| {
      return None;
    }
    var offset := 14;
    var etherType := ReadBeU16(frame, 12);
    if etherType.None? {
      return None;
    }
    var tags := 0;
    while tags < 2 && IsTag(etherType.value)
      invariant 0 <= tags <= 2 && offset == 14 + 4 * tags && etherType.Some?
      invariant Walk(frame, 14, U16At(frame, 12), 2) == Walk(frame, offset, etherType, 2 - tags)
    {
      etherType := ReadBeU16(frame, offset + 2);
      if etherType.None? {
        return None;
      }
      offset := offset + 4;
      tags := tags + 1;
    }
    if etherType.value == IPV4 {
      if offset + 20 > |frame| {
        return None;
      }
      var versionIhl := frame[offset];
      if versionIhl as nat / 16 != 4 || versionIhl as nat % 16 < 5 {
        return None;
      }
      var address := ReadArray(frame, offset + 12, 4);
      return Some(Key(V4, Value(address.value)));
    } else if etherType.value == IPV6 {
      if offset + 40 > |frame| || frame[offset] as nat / 16 != 6 {
        return None;
      }
      var address := ReadArray(frame, offset + 8, 16);
      return Some(Key(V6, Value(address.value)));
    }
    return None;
  }

  predicate IsTag(etherType: nat) {
    etherType == VLAN || etherType == QINQ
  }

  /** Offset and type of the network header after at most `tags` tags. */
  function Walk(frame: Bytes, offset: nat, etherType: Option<nat>, tags: nat): Option<(nat, nat)>
    decreases tags
  {
    match etherType
    case None => None
    case Some(t) =>
      if tags > 0 && IsTag(t) then Walk(frame, offset + 4, U16At(frame, offset + 2), tags - 1) else Some((offset, t))
  }

  function KeyOf(frame: Bytes): Option<Key> {
    if |frame| < 14 then None
    else
      match Walk(frame, 14, U16At(frame, 12), 2)
      case None => None
      case Some((offset, t)) =>
        if t == IPV4 && offset + 20 <= |frame| && frame[offset] as nat / 16 == 4 && frame[offset] as nat % 16 >= 5 then
          Some(Key(V4, Value(frame[offset + 12..offset + 16])))
        else if t == IPV6 && offset + 40 <= |frame| && frame[offset] as nat / 16 == 6 then
          Some(Key(V6, Value(frame[offset + 8..offset + 24])))
        else
          None
  }

  /** The whole program against one state of the maps. */
  method TryCidrwall(frame: Bytes, maps: Maps) returns (action: Action)
    ensures action == Verdict(frame, maps.Active(), maps)
  {
    var key := SourceKey(frame);
    if key.None? {
      return Pass;
    }
    var slot := maps.control.activeSlot;
    var trie := maps.TrieOf(key.value.family, slot);
    var hit := Covered(trie, key.value.family, key.value.address);
    return if hit then Drop else Pass;
  }

  /** The verdict of a packet that read `slot` and finds the tries as in `maps`. */
  ghost function Verdict(frame: Bytes, slot: nat, maps: Maps): Action {
    match KeyOf(frame)
    case None => Pass
    case Some(key) => if maps.Lookup(slot, key.family, key.address) then Drop else Pass
  }

  // --- Well-formed frames --------------------------------------------------------------------

  datatype Tag = Tag(tpid: nat, tci: Bytes)

  /** Source address and the rest of a network header that the program accepts. */
  datatype Header =
    | Ipv4(versionIhl: u8, middle: Bytes, source: Bytes, tail: Bytes)
    | Ipv6(versionClass: u8, middle: Bytes, source: Bytes, tail: Bytes)
  {
    function EtherType(): nat {
      if Ipv4? then IPV4 else IPV6
    }

    function Family(): Family {
      if Ipv4? then V4 else V6
    }

    /** Section 3.1 of RFC 791 and section 3 of RFC 8200. */
    predicate WellFormed() {
      match this
      case Ipv4(v, middle, source, tail) =>
        v as nat / 16 == 4 && v as nat % 16 >= 5 && |middle| == 11 && |source| == 4 && |tail| >= 4
      case Ipv6(v, middle, source, tail) =>
        v as nat / 16 == 6 && |middle| == 7 && |source| == 16 && |tail| >= 16
    }

    function Bytes(): Bytes {
      match this
      case Ipv4(v, middle, source, tail) => [v] + middle + source + tail
      case Ipv6(v, middle, source, tail) => [v] + middle + source + tail
    }
  }

  function Word(n: nat): Bytes
    requires n < 0x1_0000
  {
    [(n / 256) as u8, (n % 256) as u8]
  }

  /** The types as they stand on the wire. */
  lemma WireTypes(t: nat)
    requires t < 0x1_0000
    ensures Word(IPV4) == [0x08, 0x00] && Word(IPV6) == [0x86, 0xdd]
    ensures IsTag(t) <==> Word(t) == [0x81, 0x00] || Word(t) == [0x88, 0xa8]
  {
    assert t == 256 * (Word(t)[0] as nat) + Word(t)[1] as nat;
  }

  predicate WellTagged(tags: seq<Tag>) {
    forall t <- tags :: IsTag(t.tpid) && |t.tci| == 2
  }

  /** Tags, each followed by the type of what comes next, then the header. */
  function Tagged(tags: seq<Tag>, header: Header): Bytes
    requires WellTagged(tags)
  {
    if tags == [] then
      Word(header.EtherType()) + header.Bytes()
    else
      assert IsTag(tags[0].tpid);
      Word(tags[0].tpid) + tags[0].tci + Tagged(tags[1..], header)
  }

  function Frame(macs: Bytes, tags: seq<Tag>, header: Header): Bytes
    requires WellTagged(tags)
  {
    macs + Tagged(tags, header)
  }

  /** The walk finds the header of a frame with as many tags as it may still skip. */
  lemma {:induction false} WalkFinds(front: Bytes, tags: seq<Tag>, header: Header, budget: nat)
    requires WellTagged(tags) && |tags| <= budget
    ensures var frame := front + Tagged(tags, header);
      && |frame| == |front| + 2 + 4 * |tags| + |header.Bytes()|
      && Walk(frame, |front| + 2, U16At(frame, |front|), budget) == Some((|front| + 2 + 4 * |tags|, header.EtherType()))
      && frame[|front| + 2 + 4 * |tags|..] == header.Bytes()
    decreases |tags|
  {
    hide Word, U16At, Header.Bytes;
    if tags == [] {
      WordAt(front, header.EtherType(), header.Bytes());
      assert front + Tagged(tags, header) == front + Word(header.EtherType()) + header.Bytes();
    } else {
      var longer, rest := front + Word(tags[0].tpid) + tags[0].tci, Tagged(tags[1..], header);
      WordAt(front, tags[0].tpid, tags[0].tci + rest);
      assert front + Tagged(tags, header) == front + Word(tags[0].tpid) + (tags[0].tci + rest) == longer + rest;
      WalkFinds(longer, tags[1..], header, budget - 1);
    }
  }

  lemma WordAt(front: Bytes, n: nat, rest: Bytes)
    requires n < 0x1_0000
    ensures |Word(n)| == 2 && U16At(front + Word(n) + rest, |front|) == Some(n)
  {
    var frame := front + Word(n) + rest;
    assert frame[|front|] == Word(n)[0] && frame[|front| + 1] == Word(n)[1];
  }

  /** The source bytes of a header spell the address `a` of its family. */
  ghost predicate From(header: Header, a: nat) {
    Spells(header.source, a) && a < header.Family().Size()
  }

  /** Every well-formed header comes from exactly one address. */
  lemma HeaderFrom(header: Header, a: nat)
    requires header.WellFormed()
    ensures From(header, Value(header.source))
    ensures From(header, a) <==> a == Value(header.source)
  {
    hide Spells, Value;
    SizeIsPower(header.Family());
    SpellsValue(header.source);
    if From(header, a) {
      SpelledOnce(header.source, a);
    }
  }

  /** Parsing undoes framing: the key of a well-formed frame is the address its source bytes spell. */
  lemma FrameKey(macs: Bytes, tags: seq<Tag>, header: Header, a: nat)
    requires |macs| == 12 && WellTagged(tags) && |tags| <= 2 && header.WellFormed() && From(header, a)
    ensures KeyOf(Frame(macs, tags, header)) == Some(Key(header.Family(), a))
  {
    hide Tagged, Walk, U16At, Value, Spells, From, Header.Bytes;
    HeaderFrom(header, a);
    var frame := Frame(macs, tags, header);
    WalkFinds(macs, tags, header, 2);
    HeaderLayout(header);
    var at := if header.Ipv4? then 12 else 8;
    SuffixSlice(frame, 14 + 4 * |tags|, header.Bytes(), at, at + |header.source|);
    SuffixSlice(frame, 14 + 4 * |tags|, header.Bytes(), 0, 1);
    assert frame[14 + 4 * |tags|..][0] == header.Bytes()[0];
  }

  lemma HeaderLayout(header: Header)
    requires header.WellFormed()
    ensures var body := header.Bytes();
      match header
      case Ipv4(v, _, source, _) => |body| >= 20 && body[0] == v && body[12..16] == source
      case Ipv6(v, _, source, _) => |body| >= 40 && body[0] == v && body[8..24] == source
  {
    var front := if header.Ipv4? then [header.versionIhl] + header.middle else [header.versionClass] + header.middle;
    assert header.Bytes() == front + header.source + header.tail;
    assert header.Bytes()[|front|..|front| + |header.source|] == header.source;
  }

  lemma SuffixSlice(s: Bytes, offset: nat, body: Bytes, i: nat, j: nat)
    requires offset <= |s| && s[offset..] == body && i <= j <= |body|
    ensures s[offset + i..offset + j] == body[i..j]
  {
    forall k | 0 <= k < j - i
      ensures s[offset + i..offset + j][k] == body[i..j][k]
    {
      assert s[offset..][i + k] == s[offset + i + k];
    }
  }

  lemma WordOf(frame: Bytes, i: nat)
    requires i + 2 <= |frame|
    ensures U16At(frame, i).value < 0x1_0000 && Word(U16At(frame, i).value) == frame[i..i + 2]
  {
  }

  /** A walk that ends at `at` passed well-formed tags: what it passed is their framing. */
  lemma {:induction false} Unwalk(frame: Bytes, offset: nat, budget: nat, at: nat, header: Header)
    returns (tags: seq<Tag>)
    requires offset >= 2 && Walk(frame, offset, U16At(frame, offset - 2), budget) == Some((at, header.EtherType()))
    requires at <= |frame| && header.Bytes() == frame[at..]
    ensures WellTagged(tags) && |tags| <= budget && offset <= |frame|
    ensures frame[offset - 2..] == Tagged(tags, header)
    decreases budget
  {
    hide Word, Header.Bytes;
    var t := U16At(frame, offset - 2).value;
    WordOf(frame, offset - 2);
    if budget > 0 && IsTag(t) {
      var rest := Unwalk(frame, offset + 4, budget - 1, at, header);
      var tag := Tag(t, frame[offset..offset + 2]);
      tags := [tag] + rest;
      assert tags[1..] == rest;
      assert frame[offset - 2..] == frame[offset - 2..offset] + frame[offset..offset + 2] + frame[offset + 2..];
    } else {
      tags := [];
      assert frame[offset - 2..] == frame[offset - 2..offset] + frame[offset..];
    }
  }

  function Ipv4Of(body: Bytes): (h: Header)
    requires |body| >= 20 && body[0] as nat / 16 == 4 && body[0] as nat % 16 >= 5
    ensures h.WellFormed() && h.Bytes() == body && h.source == body[12..16]
  {
    Cuts(body, 12, 16);
    Ipv4(body[0], body[1..12], body[12..16], body[16..])
  }

  function Ipv6Of(body: Bytes): (h: Header)
    requires |body| >= 40 && body[0] as nat / 16 == 6
    ensures h.WellFormed() && h.Bytes() == body && h.source == body[8..24]
  {
    Cuts(body, 8, 24);
    Ipv6(body[0], body[1..8], body[8..24], body[24..])
  }

  lemma Cuts(s: Bytes, i: nat, j: nat)
    requires 1 <= i <= j <= |s|
    ensures [s[0]] + s[1..i] + s[i..j] + s[j..] == s
  {
    assert [s[0]] + s[1..i] == s[..i];
    assert s[..i] + s[i..j] == s[..j];
  }

  /** Cut the network header out of the frame. */
  lemma HeaderThere(frame: Bytes, at: nat, t: nat) returns (header: Header)
    requires |frame| >= 14 && Walk(frame, 14, U16At(frame, 12), 2) == Some((at, t)) && KeyOf(frame).Some?
    ensures at <= |frame| && header.WellFormed() && header.EtherType() == t && header.Bytes() == frame[at..]
    ensures KeyOf(frame) == Some(Key(header.Family(), Value(header.source)))
  {
    hide Walk, U16At, Value, Header.WellFormed, Header.Bytes;
    var body := frame[at..];
    assert body[0] == frame[at];
    if t == IPV4 {
      header := Ipv4Of(body);
      SuffixSlice(frame, at, body, 12, 16);
    } else {
      header := Ipv6Of(body);
      SuffixSlice(frame, at, body, 8, 24);
    }
  }

  /** The program looks up nothing but the source address of a well-formed frame with at most two tags. */
  lemma KeyNeedsFrame(frame: Bytes) returns (macs: Bytes, tags: seq<Tag>, header: Header)
    requires KeyOf(frame).Some?
    ensures |macs| == 12 && WellTagged(tags) && |tags| <= 2 && header.WellFormed()
    ensures frame == Frame(macs, tags, header)
    ensures KeyOf(frame).value.family == header.Family() && From(header, KeyOf(frame).value.address)
  {
    hide Spells, From, Walk, U16At, Value, Tagged, Header.WellFormed, Header.Bytes;
    var (at, t) := Walk(frame, 14, U16At(frame, 12), 2).value;
    header := HeaderThere(frame, at, t);
    HeaderFrom(header, Value(header.source));
    tags := Unwalk(frame, 14, 2, at, header);
    macs := frame[..12];
    assert frame == frame[..12] + frame[12..];
  }

  /** Byte by byte: an untagged IPv4 frame from `a.b.c.d` looks up the number those four bytes write to base 256. */
  lemma DottedQuad(macs: Bytes, versionIhl: u8, middle: Bytes, a: u8, b: u8, c: u8, d: u8, tail: Bytes)
    requires |macs| == 12 && |middle| == 11 && |tail| >= 4
    requires versionIhl as nat / 16 == 4 && versionIhl as nat % 16 >= 5
    ensures KeyOf(macs + [0x08, 0x00] + ([versionIhl] + middle + [a, b, c, d] + tail))
         == Some(Key(V4, a as nat * 0x100_0000 + b as nat * 0x1_0000 + c as nat * 0x100 + d as nat))
  {
    hide KeyOf, Value, Spells, From;
    var header := Ipv4(versionIhl, middle, [a, b, c, d], tail);
    HeaderFrom(header, Value(header.source));
    FourBytes(a, b, c, d);
    FrameKey(macs, [], header, Value(header.source));
    assert Frame(macs, [], header) == macs + [0x08, 0x00] + header.Bytes();
  }

  lemma FourBytes(a: u8, b: u8, c: u8, d: u8)
    ensures Value([a, b, c, d]) == a as nat * 0x100_0000 + b as nat * 0x1_0000 + c as nat * 0x100 + d as nat
  {
    assert [a, b, c, d][..3] == [a, b, c] && [a, b, c][..2] == [a, b] && [a, b][..1] == [a] && [a][..0] == [];
    assert Value([a]) == a as nat;
    assert Value([a, b]) == 256 * a as nat + b as nat;
    assert Value([a, b, c]) == 256 * (256 * a as nat + b as nat) + c as nat;
  }
}
