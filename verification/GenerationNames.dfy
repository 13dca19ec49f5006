/**
 The names of generation sets. A name carries its generation number in hex; scanning the
 names of a table and parsing the numbers back is what keeps new names apart from old ones,
 also after a restart.
 */
module GenerationNames {
  import opened Wrappers
  import opened Bits
  import opened Addresses

  datatype Direction = Inbound | Outbound

  const MAX: u64 := 0xffff_ffff_ffff_ffff
  const LAYOUT_MARKER := "__cidrwall_layout_v2"

  // --- Formatting and parsing ----------------------------------------------------------------

  const HEX := "0123456789abcdef"

  /** `{:0width x}` of a number that fits the width. */
  function Hex(n: nat, width: nat): (s: string)
    ensures |s| == width
  {
    if width == 0 then "" else Hex(n / 16, width - 1) + [HEX[n % 16]]
  }

  function Digit(c: char): Option<nat> {
    if '0' <= c <= '9' then Some(c as nat - '0' as nat)
    else if 'a' <= c <= 'f' then Some(c as nat - 'a' as nat + 10)
    else if 'A' <= c <= 'F' then Some(c as nat - 'A' as nat + 10)
    else None
  }

  function Digits(s: string): Option<nat> {
    if s == "" then Some(0)
    else
      match (Digits(s[..|s| - 1]), Digit(s[|s| - 1]))
      case (Some(n), Some(d)) => Some(16 * n + d)
      case _ => None
  }

  /** `u64::from_str_radix(_, 16)`: an optional plus sign, at least one digit, no overflow. */
  function FromHex(s: string): Option<u64> {
    var body := if s != "" && s[0] == '+' then s[1..] else s;
    if body == "" then None
    else
      match Digits(body)
      case Some(n) => if n <= MAX as nat then Some(n as u64) else None
      case None => None
  }

  /** `rsplit_once("_g")`: what follows the last occurrence. */
  function AfterLast(s: string): Option<string> {
    if |s| < 2 then None
    else
      match AfterLast(s[1..])
      case Some(t) => Some(t)
      case None => if s[0] == '_' && s[1] == 'g' then Some(s[2..]) else None
  }

  /** The generation number a set name carries, if any. */
  function Generation(name: string): Option<u64> {
    match AfterLast(name)
    case Some(hex) => FromHex(hex)
    case None => None
  }

  function Stem(d: Direction, f: Family): string {
    match (d, f)
    case (Inbound, V4) => "in_v4"
    case (Inbound, V6) => "in_v6"
    case (Outbound, V4) => "out_v4"
    case (Outbound, V6) => "out_v6"
  }

  function SetName(d: Direction, f: Family, g: u64): string {
    Stem(d, f) + "_g" + Hex(g as nat, 16)
  }

  predicate IsGeneration(name: string) {
    "in_v4_g" <= name || "in_v6_g" <= name || "out_v4_g" <= name || "out_v6_g" <= name
  }

  /** A hex digit of either case. */
  lemma DigitReads(c: char, d: nat)
    ensures Digit(c) == Some(d) <==> d < 16 && (c == HEX[d] || c == "0123456789ABCDEF"[d])
  {
  }

  /** No "_g" begins at `n` or later. */
  predicate Unmarked(s: string, n: nat) {
    forall k :: n <= k < |s| - 1 ==> !(s[k] == '_' && s[k + 1] == 'g')
  }

  lemma UnmarkedTail(s: string, n: nat)
    requires s != ""
    ensures Unmarked(s[1..], n) <==> Unmarked(s, n + 1)
  {
    if Unmarked(s[1..], n) {
      forall k | n + 1 <= k < |s| - 1
        ensures !(s[k] == '_' && s[k + 1] == 'g')
      {
        assert s[k] == s[1..][k - 1] && s[k + 1] == s[1..][k];
      }
    }
  }

  /** What follows the last marker, if there is one. */
  lemma {:induction false} AfterLastMarker(s: string) returns (front: string)
    ensures AfterLast(s).None? ==> Unmarked(s, 0)
    ensures AfterLast(s).Some? ==> s == front + "_g" + AfterLast(s).value && Unmarked(s, |front| + 1)
  {
    hide Unmarked, AfterLast;
    front := "";
    Unfolded(s);
    if |s| >= 2 {
      var rest := s[1..];
      var after := AfterLastMarker(rest);
      UnmarkedTail(s, 0);
      FirstMark(s);
      if AfterLast(rest).Some? {
        front := [s[0]] + after;
        UnmarkedTail(s, |after| + 1);
        Prepended(s[0], rest, after, AfterLast(rest).value);
        assert s == [s[0]] + rest;
      }
    }
  }

  lemma Prepended(c: char, rest: string, after: string, t: string)
    requires rest == after + "_g" + t
    ensures [c] + rest == ([c] + after) + "_g" + t
  {
  }

  lemma Unfolded(s: string)
    ensures |s| < 2 ==> AfterLast(s).None? && Unmarked(s, 0)
    ensures |s| >= 2 && AfterLast(s[1..]).Some? ==> AfterLast(s) == AfterLast(s[1..])
    ensures |s| >= 2 && AfterLast(s[1..]).None? ==>
      if s[0] == '_' && s[1] == 'g' then AfterLast(s) == Some(s[2..]) && s == "" + "_g" + s[2..]
      else AfterLast(s).None?
  {
  }

  lemma FirstMark(s: string)
    requires |s| >= 2
    ensures Unmarked(s, 0) <==> Unmarked(s, 1) && !(s[0] == '_' && s[1] == 'g')
  {
  }

  /** How a set is named: direction, family, and sixteen hex digits that give the number. */
  lemma NameLayout(d: Direction, f: Family, g: u64)
    ensures var name, front := SetName(d, f, g),
        (if d.Inbound? then "in_" else "out_") + (if f.V4? then "v4_g" else "v6_g");
      front <= name && |name| == |front| + 16 && Digits(name[|front|..]) == Some(g as nat)
  {
    hide Digits, Hex;
    Width64();
    HexDigits(g as nat, 16);
    StemLayout(d, f);
    assert SetName(d, f, g)[|Stem(d, f) + "_g"|..] == Hex(g as nat, 16);
  }

  lemma StemLayout(d: Direction, f: Family)
    ensures Stem(d, f) + "_g" ==
      (if d.Inbound? then "in_" else "out_") + (if f.V4? then "v4_g" else "v6_g")
  {
  }

  /** The names that count as generations are those that begin like one of the four names the daemon gives. */
  lemma GenerationPrefix(name: string)
    ensures IsGeneration(name) <==> exists d, f :: Stem(d, f) + "_g" <= name
  {
    assert Stem(Inbound, V4) + "_g" == "in_v4_g" && Stem(Inbound, V6) + "_g" == "in_v6_g";
    assert Stem(Outbound, V4) + "_g" == "out_v4_g" && Stem(Outbound, V6) + "_g" == "out_v6_g";
  }

  // --- Parsing undoes formatting -------------------------------------------------------------

  lemma FourBits(k: nat)
    ensures Pow2(k + 4) == 16 * Pow2(k)
  {
    assert Pow2(k + 4) == 2 * Pow2(k + 3) && Pow2(k + 2) == 2 * Pow2(k + 1);
  }

  lemma DigitOfHex(d: nat)
    requires d < 16
    ensures Digit(HEX[d]) == Some(d) && HEX[d] != '_' && HEX[d] != '+'
  {
  }

  lemma {:induction false} HexDigits(n: nat, width: nat)
    requires n < Pow2(4 * width)
    ensures Digits(Hex(n, width)) == Some(n)
    ensures '_' !in Hex(n, width) && '+' !in Hex(n, width)
  {
    hide Pow2, Digit, Digits;
    if width > 0 {
      FourBits(4 * (width - 1));
      HexDigits(n / 16, width - 1);
      DigitOfHex(n % 16);
      DigitsSnoc(Hex(n / 16, width - 1), HEX[n % 16]);
    } else {
      Exponent0();
    }
  }

  lemma DigitsSnoc(s: string, c: char)
    ensures Digits(s + [c]) ==
      if Digits(s).Some? && Digit(c).Some? then Some(16 * Digits(s).value + Digit(c).value) else None
  {
    assert (s + [c])[..|s|] == s;
  }

  lemma Exponent0()
    ensures Pow2(0) == 1 && Digits("") == Some(0)
  {
  }

  lemma {:induction false} NoMarker(t: string)
    requires '_' !in t
    ensures AfterLast(t) == None && AfterLast("g" + t) == None
  {
    if t != "" {
      NoMarker(t[1..]);
      assert ("g" + t)[1..] == t;
    }
  }

  lemma {:induction false} AfterMarker(front: string, t: string)
    requires '_' !in t
    ensures AfterLast(front + "_g" + t) == Some(t)
  {
    var s := front + "_g" + t;
    if front == "" {
      NoMarker(t);
      assert s[1..] == "g" + t && s[2..] == t;
    } else {
      AfterMarker(front[1..], t);
      assert s[1..] == front[1..] + "_g" + t;
    }
  }

  /** Formatting a generation number into a name and parsing the name undo each other. */
  lemma GenerationOfName(d: Direction, f: Family, g: u64)
    ensures Generation(SetName(d, f, g)) == Some(g)
  {
    Width64();
    HexDigits(g as nat, 16);
    AfterMarker(Stem(d, f), Hex(g as nat, 16));
  }

  /** Names are distinct, are recognised as generation names, and are never the layout marker. */
  lemma NamesAreDistinct(d: Direction, f: Family, g: u64, e: Direction, h: Family, k: u64)
    ensures SetName(d, f, g) == SetName(e, h, k) ==> d == e && f == h && g == k
    ensures IsGeneration(SetName(d, f, g)) && SetName(d, f, g) != LAYOUT_MARKER
  {
    GenerationOfName(d, f, g);
    GenerationOfName(e, h, k);
    var m, n := SetName(d, f, g), SetName(e, h, k);
    assert m[0] == (if d.Inbound? then 'i' else 'o') && n[0] == (if e.Inbound? then 'i' else 'o');
    assert m[if d.Inbound? then 4 else 5] == (if f.V4? then '4' else '6');
    assert n[if e.Inbound? then 4 else 5] == (if h.V4? then '4' else '6');
    assert Stem(d, f) + "_g" <= m;
    assert m[..|Stem(d, f) + "_g"|] == Stem(d, f) + "_g";
  }

  lemma MarkerIsForeign()
    ensures !IsGeneration(LAYOUT_MARKER)
  {
    assert LAYOUT_MARKER[0] == '_';
  }

  /** No name built from number `next` or a later one is taken. */
  ghost predicate Fresh(names: set<string>, next: u64) {
    forall d, f, g :: next <= g < MAX ==> SetName(d, f, g) !in names
  }

  /** The counter after the numbers of `names` have been taken into account. */
  ghost predicate Observed(names: set<string>, before: u64, next: u64) {
    && before <= next
    && (forall n <- names :: Generation(n).Some? ==> next == MAX || Generation(n).value < next)
    && (next == before || exists n <- names :: Generation(n).Some? && next == SaturatingNext(Generation(n).value))
  }

  function SaturatingNext(g: u64): u64 {
    if g == MAX then MAX else g + 1
  }

  /** After a scan every name the counter can still produce is new. */
  lemma ObservedIsFresh(names: set<string>, before: u64, next: u64)
    requires Observed(names, before, next)
    ensures Fresh(names, next)
  {
    forall d, f, g: u64 | next <= g < MAX
      ensures SetName(d, f, g) !in names
    {
      GenerationOfName(d, f, g);
    }
  }

  /** Every number that a name carries lies below `next`. */
  ghost predicate Numbered(names: set<string>, next: nat) {
    forall n <- names :: Generation(n).Some? ==> Generation(n).value as nat < next
  }

  lemma NumberedSubset(a: set<string>, b: set<string>, next: nat, later: nat)
    requires a <= b
    ensures Numbered(b, next) && next <= later ==> Numbered(a, later)
  {
    hide Generation;
  }

  /** The marker carries no number. */
  lemma MarkerIsUnnumbered()
    ensures Numbered({LAYOUT_MARKER}, 0)
  {
    NoMark(LAYOUT_MARKER);
  }

  lemma {:induction false} NoMark(s: string)
    requires Unmarked(s, 0)
    ensures AfterLast(s).None?
  {
    hide AfterLast;
    Unfolded(s);
    if |s| >= 2 {
      UnmarkedTail(s, 0);
      FirstMark(s);
      NoMark(s[1..]);
    }
  }

  /** A scan of names that all lie below the counter leaves it alone; one of names below a bound leaves it there. */
  lemma ObservedBelow(names: set<string>, before: u64, next: u64, bound: nat)
    requires Observed(names, before, next) && Numbered(names, bound) && before as nat <= bound <= MAX as nat
    ensures next as nat <= bound
    ensures next < MAX ==> Numbered(names, next as nat)
  {
    hide Generation;
  }
}
