/**
 Netlink attributes inside a message buffer: a 16-byte header whose first word is the
 message length, 4 bytes of nfgenmsg, then length-prefixed attributes padded to 4 bytes.
 Lengths and types are in the byte order of the host.
 */
module Attributes {
  import opened Bits
  import opened Wrappers

  type Bytes = seq<u8>

  datatype Endian = Little | Big

  const HEADER: nat := 16
  const BODY: nat := HEADER + 4
  const NFTA_SET_COUNT: nat := 20

  function U16(e: Endian, a: u8, b: u8): nat {
    match e
    case Little => a as nat + 256 * b as nat
    case Big => 256 * a as nat + b as nat
  }

  function U32(e: Endian, s: Bytes): (n: nat)
    requires |s| >= 4
    ensures n < 0x1_0000_0000
  {
    match e
    case Little => s[0] as nat + 256 * (s[1] as nat + 256 * (s[2] as nat + 256 * s[3] as nat))
    case Big => 256 * (256 * (256 * s[0] as nat + s[1] as nat) + s[2] as nat) + s[3] as nat
  }

  function ToU32(e: Endian, n: nat): (s: Bytes)
    requires n < 0x1_0000_0000
    ensures |s| == 4 && U32(e, s) == n
  {
    var b0, b1 := (n % 256) as u8, (n / 256 % 256) as u8;
    var b2, b3 := (n / 256 / 256 % 256) as u8, (n / 256 / 256 / 256) as u8;
    match e
    case Little => [b0, b1, b2, b3]
    case Big => [b3, b2, b1, b0]
  }

  /** The message length, as a host of either byte order writes it, is read back. */
  lemma LengthReads(n: nat, rest: Bytes)
    requires n < 0x1_0000_0000
    ensures var b0, b1 := (n % 0x100) as u8, (n / 0x100 % 0x100) as u8;
      var b2, b3 := (n / 0x1_0000 % 0x100) as u8, (n / 0x100_0000) as u8;
      U32(Little, [b0, b1, b2, b3] + rest) == n == U32(Big, [b3, b2, b1, b0] + rest)
  {
    assert n / 0x1_0000 == n / 0x100 / 0x100 && n / 0x100_0000 == n / 0x1_0000 / 0x100;
  }

  /** `next_multiple_of(4)` */
  function Align4(n: nat): (m: nat)
    ensures n <= m < n + 4 && m % 4 == 0
  {
    (n + 3) / 4 * 4
  }

  // --- Attributes as a list ----------------------------------------------------------------

  /** Claimed length of the attribute at the start of `s`, header included. */
  function AttrLen(e: Endian, s: Bytes): nat
    requires |s| >= 4
  {
    U16(e, s[0], s[1])
  }

  /** Its type without the nested and byte-order flag bits. */
  function AttrType(e: Endian, s: Bytes): nat
    requires |s| >= 4
  {
    U16(e, s[2], s[3]) % 0x4000
  }

  /** Length and type, as a host of either byte order writes them, are read back whatever flag bits the type carries. */
  lemma HeaderReads(len: nat, kind: nat, flags: nat, rest: Bytes)
    requires len < 0x1_0000 && kind < 0x4000 && flags < 4
    ensures var t := 0x4000 * flags + kind;
      var little := [(len % 0x100) as u8, (len / 0x100) as u8, (t % 0x100) as u8, (t / 0x100) as u8] + rest;
      var big := [(len / 0x100) as u8, (len % 0x100) as u8, (t / 0x100) as u8, (t % 0x100) as u8] + rest;
      && AttrLen(Little, little) == len == AttrLen(Big, big)
      && AttrType(Little, little) == kind == AttrType(Big, big)
  {
  }

  /** `s` starts with a complete attribute, padding included. */
  predicate Whole(e: Endian, s: Bytes) {
    |s| >= 4 && AttrLen(e, s) >= 4 && Align4(AttrLen(e, s)) <= |s|
  }

  /** `r` is one complete attribute and nothing else. */
  predicate Exact(e: Endian, r: Bytes) {
    Whole(e, r) && |r| == Align4(AttrLen(e, r))
  }

  /** Complete attributes at the start of `s`, and what follows them. */
  function Split(e: Endian, s: Bytes): (r: (seq<Bytes>, Bytes))
    decreases |s|
  {
    if !Whole(e, s) then
      ([], s)
    else
      var n := Align4(AttrLen(e, s));
      var (records, rest) := Split(e, s[n..]);
      ([s[..n]] + records, rest)
  }

  function Join(records: seq<Bytes>): Bytes {
    if records == [] then [] else records[0] + Join(records[1..])
  }

  ghost predicate AllExact(e: Endian, records: seq<Bytes>) {
    forall r <- records :: Exact(e, r)
  }

  lemma Assoc(x: Bytes, y: Bytes, z: Bytes)
    ensures x + y + z == x + (y + z)
  {
  }

  lemma {:induction false} JoinSum(a: seq<Bytes>, b: seq<Bytes>)
    ensures Join(a + b) == Join(a) + Join(b)
  {
    if a == [] {
      assert a + b == b;
    } else {
      JoinSum(a[1..], b);
      var all := a + b;
      assert all[0] == a[0] && all[1..] == a[1..] + b;
      Assoc(a[0], Join(a[1..]), Join(b));
    }
  }

  /** Splitting loses nothing. */
  lemma {:induction false} SplitJoins(e: Endian, s: Bytes)
    ensures var (records, rest) := Split(e, s);
      s == Join(records) + rest && AllExact(e, records) && !Whole(e, rest)
    decreases |s|
  {
    if Whole(e, s) {
      var n := Align4(AttrLen(e, s));
      SplitJoins(e, s[n..]);
      var (records, rest) := Split(e, s[n..]);
      assert ([s[..n]] + records)[1..] == records;
      assert s == s[..n] + s[n..];
    }
  }

  lemma SplitFirst(e: Endian, r: Bytes, tail: Bytes)
    requires Exact(e, r)
    ensures Split(e, r + tail) == ([r] + Split(e, tail).0, Split(e, tail).1)
  {
    var s := r + tail;
    assert s[..|r|] == r && s[|r|..] == tail;
    assert AttrLen(e, s) == AttrLen(e, r);
  }

  /** And inverts joining. */
  lemma {:induction false} SplitOfJoin(e: Endian, records: seq<Bytes>, rest: Bytes)
    requires AllExact(e, records) && !Whole(e, rest)
    ensures Split(e, Join(records) + rest) == (records, rest)
  {
    if records == [] {
      assert Join(records) + rest == rest;
    } else {
      var r, tail := records[0], Join(records[1..]) + rest;
      assert Join(records) + rest == r + tail;
      SplitOfJoin(e, records[1..], rest);
      SplitFirst(e, r, tail);
      assert records == [r] + records[1..];
    }
  }

  /** The list without its first attribute of type `t`. */
  function RemoveFirst(e: Endian, records: seq<Bytes>, t: nat): seq<Bytes>
    requires forall r <- records :: |r| >= 4
  {
    if records == [] then []
    else if AttrType(e, records[0]) == t then records[1..]
    else [records[0]] + RemoveFirst(e, records[1..], t)
  }

  ghost predicate Lacks(e: Endian, records: seq<Bytes>, t: nat) {
    forall r <- records :: |r| >= 4 && AttrType(e, r) != t
  }

  lemma RemoveHere(e: Endian, r: Bytes, back: seq<Bytes>, t: nat)
    requires |r| >= 4 && forall b <- back :: |b| >= 4
    ensures RemoveFirst(e, [r] + back, t) == if AttrType(e, r) == t then back else [r] + RemoveFirst(e, back, t)
  {
    hide AttrType;
    assert ([r] + back)[1..] == back;
  }

  lemma {:induction false} RemoveFirstSplits(e: Endian, front: seq<Bytes>, r: Bytes, back: seq<Bytes>, t: nat)
    requires Lacks(e, front, t) && |r| >= 4 && AttrType(e, r) == t
    requires forall b <- back :: |b| >= 4
    ensures RemoveFirst(e, front + [r] + back, t) == front + back
  {
    hide RemoveFirst, AttrType;
    if front == [] {
      RemoveHere(e, r, back, t);
      assert front + [r] + back == [r] + back;
      assert front + back == back;
    } else {
      var head, rest := front[0], front[1..];
      RemoveFirstSplits(e, rest, r, back, t);
      RemoveHere(e, head, rest + [r] + back, t);
      assert front + [r] + back == [head] + (rest + [r] + back);
      assert front + back == [head] + (rest + back);
    }
  }

  // --- Removal in place ---------------------------------------------------------------------

  /** `copy_within(from..to, dest)` towards the start of the buffer. */
  method CopyDown(buffer: array<u8>, from: nat, to: nat, dest: nat)
    requires dest <= from <= to <= buffer.Length
    modifies buffer
    ensures buffer[..] == old(buffer[..dest]) + old(buffer[from..to]) + old(buffer[dest + to - from..])
  {
    ghost var before := buffer[..];
    var k := 0;
    while k < to - from
      invariant 0 <= k <= to - from
      invariant forall i :: 0 <= i < dest ==> buffer[i] == before[i]
      invariant forall i :: dest <= i < dest + k ==> buffer[i] == before[i + from - dest]
      invariant forall i :: dest + k <= i < buffer.Length ==> buffer[i] == before[i]
    {
      buffer[dest + k] := buffer[from + k];
      k := k + 1;
    }
    Assembled(before, buffer[..], from, to, dest);
  }

  lemma Assembled(before: Bytes, after: Bytes, from: nat, to: nat, dest: nat)
    requires dest <= from <= to <= |before| == |after|
    requires forall i :: 0 <= i < dest ==> after[i] == before[i]
    requires forall i :: dest <= i < dest + to - from ==> after[i] == before[i + from - dest]
    requires forall i :: dest + to - from <= i < |after| ==> after[i] == before[i]
    ensures after == before[..dest] + before[from..to] + before[dest + to - from..]
  {
    assert after[..dest] == before[..dest];
    assert after[dest..dest + to - from] == before[from..to];
    assert after[dest + to - from..] == before[dest + to - from..];
  }

  method StoreU32(e: Endian, buffer: array<u8>, n: nat)
    requires n < 0x1_0000_0000 && buffer.Length >= 4
    modifies buffer
    ensures buffer[..] == ToU32(e, n) + old(buffer[4..])
  {
    var s := ToU32(e, n);
    buffer[0], buffer[1], buffer[2], buffer[3] := s[0], s[1], s[2], s[3];
  }

  /** The attribute part of a message whose header claims `len` bytes. */
  function Body(message: Bytes, len: nat): Bytes
    requires len <= |message|
  {
    if len < BODY then [] else message[BODY..len]
  }

  /** What the buffer must hold after the first attribute of type `t` has been cut out. */
  ghost predicate Removed(e: Endian, before: Bytes, after: Bytes, t: nat) {
    && |before| == |after| >= HEADER
    && var len := U32(e, before);
    && len <= |before|
    && var (records, rest) := Split(e, Body(before, len));
    && (forall r <- records :: |r| >= 4)
    && if Lacks(e, records, t) then
         after == before
       else
         var body := Join(RemoveFirst(e, records, t)) + rest;
         var newLen := BODY + |body|;
         && newLen < len
         && after == ToU32(e, newLen) + before[4..BODY] + body + before[newLen..]
  }

  lemma RemovalSplits(e: Endian, body: Bytes, front: seq<Bytes>, r: Bytes, tail: Bytes, t: nat)
    requires AllExact(e, front) && Lacks(e, front, t) && Exact(e, r) && AttrType(e, r) == t
    requires body == Join(front) + r + tail
    ensures var (records, rest) := Split(e, body);
      && (forall x <- records :: |x| >= 4) && r in records
      && Join(RemoveFirst(e, records, t)) + rest == Join(front) + tail
  {
    hide Split, Join, RemoveFirst;
    var (back, rest) := Split(e, tail);
    SplitJoins(e, tail);
    var records := front + [r] + back;
    JoinSum(front + [r], back);
    JoinSum(front, [r]);
    JoinOne(r);
    Assoc(Join(front) + r, Join(back), rest);
    SplitOfJoin(e, records, rest);
    RemoveFirstSplits(e, front, r, back, t);
    JoinSum(front, back);
    Assoc(Join(front), Join(back), rest);
  }

  lemma Finished(e: Endian, before: Bytes, after: Bytes, t: nat, len: nat, front: seq<Bytes>, r: Bytes, tail: Bytes)
    requires |before| == |after| && BODY <= len <= |before| && len == U32(e, before)
    requires AllExact(e, front) && Lacks(e, front, t) && Exact(e, r) && AttrType(e, r) == t
    requires before[BODY..len] == Join(front) + r + tail
    requires after == ToU32(e, len - |r|) + before[4..BODY] + (Join(front) + tail) + before[len - |r|..]
    ensures Removed(e, before, after, t)
  {
    hide Split, Join, RemoveFirst, U32, ToU32;
    RemovalSplits(e, before[BODY..len], front, r, tail, t);
  }

  lemma JoinOne(r: Bytes)
    ensures Join([r]) == r
  {
    assert Join([r]) == r + Join([]);
  }

  lemma Absent(e: Endian, before: Bytes, t: nat, len: nat, front: seq<Bytes>, rest: Bytes)
    requires BODY <= len <= |before| && len == U32(e, before)
    requires AllExact(e, front) && Lacks(e, front, t) && !Whole(e, rest)
    requires before[BODY..len] == Join(front) + rest
    ensures Removed(e, before, before, t)
  {
    hide Split, Join;
    SplitOfJoin(e, front, rest);
  }

  lemma NoBody(e: Endian, before: Bytes, t: nat)
    requires |before| >= HEADER && U32(e, before) < BODY && U32(e, before) <= |before|
    ensures Removed(e, before, before, t)
  {
  }

  lemma PushRecord(e: Endian, front: seq<Bytes>, r: Bytes, t: nat)
    requires AllExact(e, front) && Lacks(e, front, t) && Exact(e, r) && AttrType(e, r) != t
    ensures AllExact(e, front + [r]) && Lacks(e, front + [r], t) && Join(front + [r]) == Join(front) + r
  {
    JoinSum(front, [r]);
    JoinOne(r);
  }

  lemma NothingYet(e: Endian, s: Bytes, t: nat)
    requires BODY <= |s|
    ensures Passed(e, s, BODY, [], t)
  {
  }

  lemma CutBytes(s: Bytes, len: nat, offset: nat, n: nat, r: Bytes, tail: Bytes)
    requires BODY <= offset && offset + n <= len <= |s| && r == s[offset..offset + n] && tail == s[offset + n..len]
    ensures (s[..offset] + tail + s[len - n..])[4..] == s[4..BODY] + (s[BODY..offset] + tail) + s[len - n..]
    ensures s[BODY..len] == s[BODY..offset] + r + tail
  {
    var x, y := s[..offset], s[len - n..];
    assert (x + tail + y)[4..] == x[4..] + tail + y;
    assert x[4..] == s[4..BODY] + s[BODY..offset];
    Assoc(s[4..BODY], s[BODY..offset], tail);
  }

  lemma Assoc3(w: Bytes, x: Bytes, y: Bytes, z: Bytes)
    ensures w + (x + y + z) == w + x + y + z
  {
  }

  /** Shifting the tail down over the attribute and storing the shorter length is removing it. */
  lemma CutFinished(e: Endian, s: Bytes, after: Bytes, len: nat, offset: nat, n: nat, front: seq<Bytes>, t: nat)
    requires BODY <= offset && 0 < n && offset + n <= len <= |s| && len == U32(e, s)
    requires AllExact(e, front) && Lacks(e, front, t) && Join(front) == s[BODY..offset]
    requires Exact(e, s[offset..offset + n]) && AttrType(e, s[offset..offset + n]) == t
    requires after == ToU32(e, len - n) + (s[..offset] + s[offset + n..len] + s[len - n..])[4..]
    ensures Removed(e, s, after, t)
  {
    hide Removed, Join, Lacks, AllExact, ToU32, Exact, U32, AttrType, Align4, Whole;
    var r, tail := s[offset..offset + n], s[offset + n..len];
    CutBytes(s, len, offset, n, r, tail);
    Assoc3(ToU32(e, len - n), s[4..BODY], s[BODY..offset] + tail, s[len - n..]);
    Finished(e, s, after, t, len, front, r, tail);
  }

  /** The walk stands at `offset` and has passed `front`, with nothing of type `t` in it. */
  ghost predicate Passed(e: Endian, s: Bytes, offset: nat, front: seq<Bytes>, t: nat) {
    BODY <= offset <= |s| && AllExact(e, front) && Lacks(e, front, t) && Join(front) == s[BODY..offset]
  }

  lemma PassedStep(e: Endian, s: Bytes, offset: nat, n: nat, front: seq<Bytes>, t: nat)
    requires Passed(e, s, offset, front, t) && offset + n <= |s|
    requires Exact(e, s[offset..offset + n]) && AttrType(e, s[offset..offset + n]) != t
    ensures Passed(e, s, offset + n, front + [s[offset..offset + n]], t)
  {
    hide Join, Lacks, AllExact, Exact, AttrType;
    PushRecord(e, front, s[offset..offset + n], t);
    Slices(s, BODY, offset, offset + n);
  }

  lemma PassedAll(e: Endian, s: Bytes, offset: nat, len: nat, front: seq<Bytes>, t: nat)
    requires Passed(e, s, offset, front, t) && offset <= len <= |s| && len == U32(e, s) && !Whole(e, s[offset..len])
    ensures Removed(e, s, s, t)
  {
    hide Join, Lacks, AllExact, Removed, U32, Whole;
    Slices(s, BODY, offset, len);
    Absent(e, s, t, len, front, s[offset..len]);
  }

  /** Close the gap and shorten the length word. */
  method CutOut(e: Endian, buffer: array<u8>, len: nat, offset: nat, aligned: nat, ghost front: seq<Bytes>,
                ghost target: nat)
    requires BODY <= offset && 0 < aligned && offset + aligned <= len <= buffer.Length && len == U32(e, buffer[..])
    requires Passed(e, buffer[..], offset, front, target)
    requires Exact(e, buffer[..][offset..offset + aligned])
    requires AttrType(e, buffer[..][offset..offset + aligned]) == target
    modifies buffer
    ensures Removed(e, old(buffer[..]), buffer[..], target)
  {
    hide Removed, Join, Lacks, AllExact, ToU32, Exact, U32, AttrType, Align4, Whole;
    ghost var before := buffer[..];
    ArraySlices(buffer, len, offset, aligned);
    CopyDown(buffer, offset + aligned, len, offset);
    ghost var shifted := buffer[..];
    StoreU32(e, buffer, len - aligned);
    assert buffer[..] == ToU32(e, len - aligned) + shifted[4..];
    CutFinished(e, before, buffer[..], len, offset, aligned, front, target);
  }

  lemma ArraySlices(buffer: array<u8>, len: nat, offset: nat, n: nat)
    requires BODY <= offset && offset + n <= len <= buffer.Length
    ensures buffer[BODY..offset] == buffer[..][BODY..offset]
    ensures buffer[offset..offset + n] == buffer[..][offset..offset + n]
    ensures buffer[offset + n..len] == buffer[..][offset + n..len]
    ensures buffer[..offset] == buffer[..][..offset] && buffer[len - n..] == buffer[..][len - n..]
  {
  }

  method RemoveTopLevelAttribute(e: Endian, buffer: array<u8>, target: nat)
    requires buffer.Length >= HEADER && U32(e, buffer[..]) <= buffer.Length
    modifies buffer
    ensures Removed(e, old(buffer[..]), buffer[..], target)
  {
    hide Removed, Passed, Exact, U32, U16, AttrLen, AttrType, Whole, Align4;
    ghost var before := buffer[..];
    var len := U32(e, buffer[..]);
    var offset := BODY;
    ghost var front: seq<Bytes> := [];
    if len < BODY {
      NoBody(e, before, target);
      return;
    }
    NothingYet(e, before, target);
    while offset + 4 <= len
      invariant BODY <= offset <= len
      invariant buffer[..] == before
      invariant Passed(e, before, offset, front, target)
    {
      RecordHead(e, before, offset, len);
      var attrLen := U16(e, buffer[offset], buffer[offset + 1]);
      if attrLen < 4 || offset + attrLen > len {
        PassedAll(e, before, offset, len, front, target);
        return;
      }
      var attrType := U16(e, buffer[offset + 2], buffer[offset + 3]) % 0x4000;
      var aligned := Align4(attrLen);
      if offset + aligned > len {
        PassedAll(e, before, offset, len, front, target);
        return;
      }
      RecordAt(e, before, offset, len, aligned);
      if attrType == target {
        CutOut(e, buffer, len, offset, aligned, front, target);
        return;
      }
      PassedStep(e, before, offset, aligned, front, target);
      front := front + [before[offset..offset + aligned]];
      offset := offset + aligned;
    }
    TooShort(e, before[offset..len]);
    PassedAll(e, before, offset, len, front, target);
  }

  lemma TooShort(e: Endian, s: Bytes)
    requires |s| < 4
    ensures !Whole(e, s)
  {
  }

  lemma Slices(s: Bytes, i: nat, j: nat, k: nat)
    requires i <= j <= k <= |s|
    ensures s[i..k] == s[i..j] + s[j..k]
  {
  }

  lemma FirstRecord(e: Endian, s: Bytes, n: nat)
    requires Whole(e, s) && n == Align4(AttrLen(e, s))
    ensures Exact(e, s[..n]) && AttrType(e, s[..n]) == AttrType(e, s)
  {
  }

  lemma RecordHead(e: Endian, s: Bytes, offset: nat, len: nat)
    requires offset + 4 <= len <= |s|
    ensures var rest := s[offset..len];
      && |rest| >= 4 && AttrLen(e, rest) == U16(e, s[offset], s[offset + 1])
      && AttrType(e, rest) == U16(e, s[offset + 2], s[offset + 3]) % 0x4000
      && (Whole(e, rest) <==> AttrLen(e, rest) >= 4 && offset + Align4(AttrLen(e, rest)) <= len)
  {
    hide U16, Align4;
  }

  lemma RecordAt(e: Endian, s: Bytes, offset: nat, len: nat, n: nat)
    requires offset <= len <= |s| && Whole(e, s[offset..len]) && n == Align4(AttrLen(e, s[offset..len]))
    ensures offset + n <= len && Exact(e, s[offset..offset + n])
    ensures AttrType(e, s[offset..offset + n]) == AttrType(e, s[offset..len])
  {
    FirstRecord(e, s[offset..len], n);
    assert s[offset..len][..n] == s[offset..offset + n];
  }

  /** The first attribute of type `t`, and only that one, is gone; order is kept. */
  lemma {:induction false} RemoveFirstMeaning(e: Endian, records: seq<Bytes>, t: nat) returns (k: nat)
    requires forall r <- records :: |r| >= 4
    ensures k <= |records| && Lacks(e, records[..k], t)
    ensures k == |records| ==> RemoveFirst(e, records, t) == records
    ensures k < |records| ==>
      AttrType(e, records[k]) == t && RemoveFirst(e, records, t) == records[..k] + records[k + 1..]
  {
    if Lacks(e, records, t) {
      k := |records|;
      assert records[..k] == records;
      RemoveNothing(e, records, t);
    } else {
      k := FirstOf(e, records, t);
      RemoveFirstSplits(e, records[..k], records[k], records[k + 1..], t);
      assert records == records[..k] + [records[k]] + records[k + 1..];
    }
  }

  lemma {:induction false} RemoveNothing(e: Endian, records: seq<Bytes>, t: nat)
    requires Lacks(e, records, t)
    ensures RemoveFirst(e, records, t) == records
  {
    if records != [] {
      RemoveNothing(e, records[1..], t);
      assert records == [records[0]] + records[1..];
    }
  }

  lemma FirstOf(e: Endian, records: seq<Bytes>, t: nat) returns (k: nat)
    requires (forall r <- records :: |r| >= 4) && !Lacks(e, records, t)
    ensures k < |records| && AttrType(e, records[k]) == t && Lacks(e, records[..k], t)
  {
    k := 0;
    while k < |records| && AttrType(e, records[k]) != t
      invariant k <= |records|
      invariant forall j :: 0 <= j < k ==> AttrType(e, records[j]) != t
    {
      k := k + 1;
    }
  }

  /** Reading the edited message back gives the attribute list without its first `t`, and the same remainder. */
  lemma RemovedDecodes(e: Endian, before: Bytes, after: Bytes, t: nat)
    requires Removed(e, before, after, t)
    ensures U32(e, after) <= |after|
    ensures var (records, rest) := Split(e, Body(before, U32(e, before)));
      && (forall r <- records :: |r| >= 4)
      && Split(e, Body(after, U32(e, after))) == (RemoveFirst(e, records, t), rest)
      && |Join(RemoveFirst(e, records, t))| + U32(e, before) == |Join(records)| + U32(e, after)
  {
    hide Split, Join, RemoveFirst, U32, ToU32, Exact, Whole;
    var s := Body(before, U32(e, before));
    var (records, rest) := Split(e, s);
    SplitJoins(e, s);
    if Lacks(e, records, t) {
      RemoveNothing(e, records, t);
    } else {
      var k := RemoveFirstMeaning(e, records, t);
      var kept := RemoveFirst(e, records, t);
      SplitOfJoin(e, kept, rest);
      CutRead(e, before, after, Join(kept) + rest);
    }
  }

  lemma CutRead(e: Endian, before: Bytes, after: Bytes, body: Bytes)
    requires |before| == |after| && BODY + |body| < |before| && BODY + |body| < 0x1_0000_0000
    requires after == ToU32(e, BODY + |body|) + before[4..BODY] + body + before[BODY + |body|..]
    ensures U32(e, after) == BODY + |body| && after[BODY..BODY + |body|] == body
  {
    hide ToU32, U32;
    var head := ToU32(e, BODY + |body|);
    assert after[0..4] == head;
    FirstWord(e, after);
    var front := head + before[4..BODY];
    assert |front| == BODY && after == front + body + before[BODY + |body|..];
  }

  // --- Reading the element count -----------------------------------------------------------

  datatype Attr = Attr(kind: nat, payload: Bytes)

  /** No readable attribute at the start of `s`. */
  predicate Stops(e: Endian, s: Bytes) {
    |s| < 4 || AttrLen(e, s) < 4 || AttrLen(e, s) > |s|
  }

  function FirstAttr(e: Endian, s: Bytes): Attr
    requires !Stops(e, s)
  {
    Attr(AttrType(e, s), s[4..AttrLen(e, s)])
  }

  /** What follows the first attribute; its padding may be missing at the end. */
  function After(e: Endian, s: Bytes): (r: Bytes)
    requires !Stops(e, s)
    ensures |r| < |s|
  {
    var n := Align4(AttrLen(e, s));
    if n <= |s| then s[n..] else []
  }

  /** Attributes as `count` walks them. */
  function Attributes(e: Endian, s: Bytes): seq<Attr>
    decreases |s|
  {
    if Stops(e, s) then [] else [FirstAttr(e, s)] + Attributes(e, After(e, s))
  }

  predicate IsCount(a: Attr) {
    a.kind == NFTA_SET_COUNT && |a.payload| >= 4
  }

  /** The first four payload bytes, most significant first. */
  predicate Counts(payload: Bytes, n: nat)
    requires |payload| >= 4
  {
    && payload[0] as nat == n / 0x100_0000 && payload[1] as nat == n / 0x1_0000 % 0x100
    && payload[2] as nat == n / 0x100 % 0x100 && payload[3] as nat == n % 0x100
  }

  lemma BigEndianCounts(payload: Bytes)
    requires |payload| >= 4
    ensures Counts(payload, U32(Big, payload))
  {
    var n := U32(Big, payload);
    assert n / 0x100 == 256 * (256 * payload[0] as nat + payload[1] as nat) + payload[2] as nat;
    assert n / 0x1_0000 == n / 0x100 / 0x100 && n / 0x100_0000 == n / 0x1_0000 / 0x100;
  }

  /** `FirstCount` is the big-endian payload of the first count attribute. */
  ghost predicate FirstCount(attrs: seq<Attr>, r: Option<nat>) {
    match r
    case None => forall a <- attrs :: !IsCount(a)
    case Some(n) =>
      exists k :: 0 <= k < |attrs| && IsCount(attrs[k]) && Counts(attrs[k].payload, n)
                  && forall j :: 0 <= j < k ==> !IsCount(attrs[j])
  }

  lemma CountFound(attrs: seq<Attr>, front: seq<Attr>, a: Attr, back: seq<Attr>)
    requires attrs == front + ([a] + back) && (forall x <- front :: !IsCount(x)) && IsCount(a)
    ensures FirstCount(attrs, Some(U32(Big, a.payload)))
  {
    BigEndianCounts(a.payload);
    assert attrs[|front|] == a;
    assert forall j :: 0 <= j < |front| ==> attrs[j] == front[j];
  }

  /** What is left to read from offset `offset`, which the padding may carry past the end. */
  function Remaining(message: Bytes, offset: nat, len: nat): Bytes
    requires len <= |message|
  {
    if offset <= len then message[offset..len] else []
  }

  lemma StepAt(e: Endian, message: Bytes, offset: nat, len: nat)
    requires offset + 4 <= len <= |message|
    requires !Stops(e, Remaining(message, offset, len))
    ensures var s := Remaining(message, offset, len);
      var n := AttrLen(e, s);
      && FirstAttr(e, s) == Attr(AttrType(e, s), message[offset + 4..offset + n])
      && After(e, s) == Remaining(message, offset + Align4(n), len)
  {
    var s := Remaining(message, offset, len);
    var n := AttrLen(e, s);
    SubSlice(message, offset, len, 4, n);
    if Align4(n) <= |s| {
      SubSlice(message, offset, len, Align4(n), |s|);
      assert s[Align4(n)..] == s[Align4(n)..|s|];
    }
  }

  lemma SubSlice(m: Bytes, a: nat, b: nat, c: nat, d: nat)
    requires a <= b <= |m| && c <= d <= b - a
    ensures m[a..b][c..d] == m[a + c..a + d]
  {
    forall i | 0 <= i < d - c
      ensures m[a..b][c..d][i] == m[a + c..a + d][i]
    {
      assert m[a..b][c..d][i] == m[a..b][c + i];
    }
  }

  /** The walk of `count` has passed `front` and stands at `offset`. */
  ghost predicate Walked(e: Endian, message: Bytes, offset: nat, len: nat, front: seq<Attr>)
    requires len <= |message|
  {
    && BODY <= offset && BODY <= len
    && (forall a <- front :: !IsCount(a))
    && Attributes(e, message[BODY..len]) == front + Attributes(e, Remaining(message, offset, len))
  }

  lemma WalkBegins(e: Endian, message: Bytes, len: nat)
    requires BODY <= len <= |message|
    ensures Walked(e, message, BODY, len, [])
  {
  }

  lemma WalkEnds(e: Endian, message: Bytes, offset: nat, len: nat, front: seq<Attr>)
    requires len <= |message| && Walked(e, message, offset, len, front) && Stops(e, Remaining(message, offset, len))
    ensures FirstCount(Attributes(e, Body(message, len)), None)
  {
    hide Stops;
    Unfold(e, Remaining(message, offset, len));
    assert front + [] == front;
  }

  lemma WalkFinds(e: Endian, message: Bytes, offset: nat, len: nat, front: seq<Attr>)
    requires offset + 8 <= len <= |message| && Walked(e, message, offset, len, front)
    requires !Stops(e, Remaining(message, offset, len)) && IsCount(FirstAttr(e, Remaining(message, offset, len)))
    ensures FirstCount(Attributes(e, Body(message, len)), Some(U32(Big, message[offset + 4..offset + 8])))
  {
    hide Stops, IsCount, Attributes, After, U32, FirstCount;
    var s := Remaining(message, offset, len);
    var a, back := FirstAttr(e, s), Attributes(e, After(e, s));
    Unfold(e, s);
    PayloadWord(e, message, offset, len);
    CountFound(front + ([a] + back), front, a, back);
  }

  lemma PayloadWord(e: Endian, message: Bytes, offset: nat, len: nat)
    requires offset + 8 <= len <= |message| && !Stops(e, Remaining(message, offset, len))
    requires IsCount(FirstAttr(e, Remaining(message, offset, len)))
    ensures U32(Big, FirstAttr(e, Remaining(message, offset, len)).payload) == U32(Big, message[offset + 4..offset + 8])
  {
    hide U32, U16, After, Align4;
    StepAt(e, message, offset, len);
    var s := Remaining(message, offset, len);
    SubSlice(message, offset + 4, offset + AttrLen(e, s), 0, 4);
    FirstWord(Big, FirstAttr(e, s).payload);
  }

  lemma WalkSteps(e: Endian, message: Bytes, offset: nat, len: nat, front: seq<Attr>)
    requires offset + 4 <= len <= |message| && Walked(e, message, offset, len, front)
    requires !Stops(e, Remaining(message, offset, len)) && !IsCount(FirstAttr(e, Remaining(message, offset, len)))
    ensures var s := Remaining(message, offset, len);
      Walked(e, message, offset + Align4(AttrLen(e, s)), len, front + [FirstAttr(e, s)])
  {
    hide Stops, IsCount, Attributes, After, U16, FirstAttr, AttrLen, Align4;
    var s := Remaining(message, offset, len);
    Unfold(e, s);
    StepAt(e, message, offset, len);
    var a, back := FirstAttr(e, s), Attributes(e, After(e, s));
    assert front + ([a] + back) == front + [a] + back;
  }

  /** What the walk reads at `offset` decides how it goes on. */
  lemma HeaderAt(e: Endian, message: Bytes, offset: nat, len: nat)
    requires offset + 4 <= len <= |message|
    ensures var s := Remaining(message, offset, len);
      && |s| >= 4 && AttrLen(e, s) == U16(e, message[offset], message[offset + 1])
      && (Stops(e, s) <==> AttrLen(e, s) < 4 || offset + AttrLen(e, s) > len)
      && (!Stops(e, s) ==>
            (IsCount(FirstAttr(e, s)) <==>
             U16(e, message[offset + 2], message[offset + 3]) % 0x4000 == NFTA_SET_COUNT && AttrLen(e, s) >= 8))
  {
    hide U16;
  }

  /** `SetInfo::count` */
  method SetCount(e: Endian, message: Bytes) returns (r: Option<nat>)
    requires |message| >= HEADER && U32(e, message) <= |message|
    ensures FirstCount(Attributes(e, Body(message, U32(e, message))), r)
  {
    hide Attributes, FirstAttr, U32, U16, Align4, FirstCount, Walked, Stops, IsCount, Remaining, AttrLen;
    var len := U32(e, message);
    if len < BODY {
      NoCount(e);
      return None;
    }
    WalkBegins(e, message, len);
    var offset := BODY;
    ghost var front: seq<Attr> := [];
    while offset + 4 <= len
      invariant Walked(e, message, offset, len, front)
    {
      HeaderAt(e, message, offset, len);
      var attrLen := U16(e, message[offset], message[offset + 1]);
      var attrType := U16(e, message[offset + 2], message[offset + 3]) % 0x4000;
      if attrLen < 4 || offset + attrLen > len {
        WalkEnds(e, message, offset, len, front);
        return None;
      }
      if attrType == NFTA_SET_COUNT && attrLen >= 8 {
        WalkFinds(e, message, offset, len, front);
        r := Some(U32(Big, message[offset + 4..offset + 8]));
        return;
      }
      WalkSteps(e, message, offset, len, front);
      front := front + [FirstAttr(e, Remaining(message, offset, len))];
      offset := offset + Align4(attrLen);
    }
    NothingLeft(e, message, offset, len);
    WalkEnds(e, message, offset, len, front);
    return None;
  }

  lemma NothingLeft(e: Endian, message: Bytes, offset: nat, len: nat)
    requires len <= |message| && offset + 4 > len
    ensures Stops(e, Remaining(message, offset, len))
  {
  }

  lemma NoCount(e: Endian)
    ensures FirstCount(Attributes(e, []), None)
  {
  }

  lemma FirstWord(e: Endian, s: Bytes)
    requires |s| >= 4
    ensures U32(e, s) == U32(e, s[0..4])
  {
  }

  lemma Unfold(e: Endian, s: Bytes)
    ensures Stops(e, s) ==> Attributes(e, s) == []
    ensures !Stops(e, s) ==> Attributes(e, s) == [FirstAttr(e, s)] + Attributes(e, After(e, s))
  {
  }

  function View(e: Endian, r: Bytes): Attr
    requires Exact(e, r)
  {
    Attr(AttrType(e, r), r[4..AttrLen(e, r)])
  }

  function Views(e: Endian, records: seq<Bytes>): seq<Attr>
    requires forall r <- records :: Exact(e, r)
  {
    if records == [] then [] else [View(e, records[0])] + Views(e, records[1..])
  }

  /**
   Both walks read the same list: `count` sees what the removal walk sees, and past it at
   most one attribute, the one whose padding is missing.
   */
  lemma {:induction false} WalksAgree(e: Endian, s: Bytes)
    ensures var (records, rest) := Split(e, s);
      && (forall r <- records :: Exact(e, r))
      && Attributes(e, s) == Views(e, records) + Attributes(e, rest) && |Attributes(e, rest)| <= 1
    decreases |s|
  {
    hide Split, Attributes, View, Exact, AttrLen, AttrType, Align4, Whole, Stops, After;
    if Whole(e, s) {
      WholeStep(e, s);
      var n := Align4(AttrLen(e, s));
      WalksAgree(e, s[n..]);
      var (records, rest) := Split(e, s[n..]);
      ViewsCons(e, s[..n], records);
      assert [View(e, s[..n])] + (Views(e, records) + Attributes(e, rest)) ==
             [View(e, s[..n])] + Views(e, records) + Attributes(e, rest);
    } else {
      LastStep(e, s);
    }
  }

  lemma WholeStep(e: Endian, s: Bytes)
    requires Whole(e, s)
    ensures var n := Align4(AttrLen(e, s));
      && 0 < n <= |s| && Exact(e, s[..n])
      && Split(e, s) == ([s[..n]] + Split(e, s[n..]).0, Split(e, s[n..]).1)
      && Attributes(e, s) == [View(e, s[..n])] + Attributes(e, s[n..])
  {
    hide U16;
    var n := Align4(AttrLen(e, s));
    FirstRecord(e, s, n);
    assert s[..n][4..AttrLen(e, s)] == s[4..AttrLen(e, s)];
  }

  lemma ViewsCons(e: Endian, r: Bytes, records: seq<Bytes>)
    requires Exact(e, r) && forall x <- records :: Exact(e, x)
    ensures forall x <- [r] + records :: Exact(e, x)
    ensures Views(e, [r] + records) == [View(e, r)] + Views(e, records)
  {
    hide Exact, View;
    assert ([r] + records)[1..] == records;
  }

  lemma LastStep(e: Endian, s: Bytes)
    requires !Whole(e, s)
    ensures Split(e, s) == ([], s) && |Attributes(e, s)| <= 1
    ensures Views(e, []) + Attributes(e, s) == Attributes(e, s)
  {
    hide U16;
    Unfold(e, s);
    if !Stops(e, s) {
      assert After(e, s) == [];
      assert Attributes(e, []) == [];
    }
  }
}
