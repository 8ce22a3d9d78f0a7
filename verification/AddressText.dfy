/**
 to_string and parse of addresses and prefixes: what is written is read back, a text lists the bits of an address from
 the most significant on, and exactly the texts of addresses and prefixes are read.
 */
module AddressText {
  import opened Wrappers
  import opened Words
  import opened Addresses
  import opened Prefixes
  import opened Numerals
  import opened Ipv4Text
  import opened Ipv6Text
  import opened Ipv6Parse

  // ---- words and groups ----

  /** The eight 16-bit groups of two words: shifted down and masked. */
  function GroupsOf(a: Address): (groups: seq<nat>)
    requires |a.words| == 2
    ensures |groups| == GROUPS
  {
    seq(GROUPS, (i: nat) requires i < GROUPS => Shr(a.words[i / 4], 48 - 16 * (i % 4)) % 0x1_0000)
  }

  /** Four groups shifted up into one word. */
  function WordOf4(a: nat, b: nat, c: nat, d: nat): nat {
    0x1_0000 * (0x1_0000 * (0x1_0000 * a + b) + c) + d
  }

  function Assembled(groups: seq<nat>): Address
    requires Grouped(groups)
  {
    Address([WordOf4(groups[0], groups[1], groups[2], groups[3]), WordOf4(groups[4], groups[5], groups[6], groups[7])])
  }

  lemma WordGroups(w: nat)
    requires w < WORD
    ensures WordOf4(Shr(w, 48) % 0x1_0000, Shr(w, 32) % 0x1_0000, Shr(w, 16) % 0x1_0000, Shr(w, 0) % 0x1_0000) == w
  {
    hide Shr;
    ShiftsOf(w);
  }

  lemma ShiftsOf(w: nat)
    ensures Shr(w, 0) == w && Shr(w, 16) == w / 0x1_0000
    ensures Shr(w, 32) == w / 0x1_0000 / 0x1_0000 && Shr(w, 48) == w / 0x1_0000 / 0x1_0000 / 0x1_0000
  {
    ShrTwice(w, 16, 16);
    ShrTwice(w, 32, 16);
    Shr16(w);
    Shr16(w / 0x1_0000);
    Shr16(w / 0x1_0000 / 0x1_0000);
  }

  lemma GroupsWord(a: nat, b: nat, c: nat, d: nat)
    requires a <= 0xFFFF && b <= 0xFFFF && c <= 0xFFFF && d <= 0xFFFF
    ensures var w := WordOf4(a, b, c, d);
      && w < WORD && Shr(w, 48) % 0x1_0000 == a && Shr(w, 32) % 0x1_0000 == b
      && Shr(w, 16) % 0x1_0000 == c && Shr(w, 0) % 0x1_0000 == d
  {
    hide Shr;
    ShiftsOf(WordOf4(a, b, c, d));
  }

  /** Addresses and sequences of eight groups are the same thing. */
  lemma GroupsRoundTrip(a: Address)
    requires Formed(a, 128)
    ensures Grouped(GroupsOf(a)) && Assembled(GroupsOf(a)) == a
  {
    hide Shr, Pow2;
    Pow2Of64();
    WordGroups(a.words[0]);
    WordGroups(a.words[1]);
    var g := GroupsOf(a);
    assert g[0] == Shr(a.words[0], 48) % 0x1_0000 && g[1] == Shr(a.words[0], 32) % 0x1_0000;
    assert g[2] == Shr(a.words[0], 16) % 0x1_0000 && g[3] == Shr(a.words[0], 0) % 0x1_0000;
    assert g[4] == Shr(a.words[1], 48) % 0x1_0000 && g[5] == Shr(a.words[1], 32) % 0x1_0000;
    assert g[6] == Shr(a.words[1], 16) % 0x1_0000 && g[7] == Shr(a.words[1], 0) % 0x1_0000;
    assert a.words == [a.words[0], a.words[1]];
  }

  lemma AssembledGroups(groups: seq<nat>)
    requires Grouped(groups)
    ensures Formed(Assembled(groups), 128) && GroupsOf(Assembled(groups)) == groups
  {
    hide Shr, Pow2;
    Pow2Of64();
    GroupsWord(groups[0], groups[1], groups[2], groups[3]);
    GroupsWord(groups[4], groups[5], groups[6], groups[7]);
  }

  // ---- a text lists the bits of an address ----

  lemma Pow2Of16()
    ensures Pow2(8) == 0x100 && Pow2(16) == 0x1_0000
  {
    assert Pow2(4) == 0x10;
    assert Pow2(8) == 0x100;
    assert Pow2(12) == 0x1000;
  }

  /** Group i of an address has its bits from 16 * i on. */
  lemma GroupBits(a: Address, i: nat, j: nat)
    requires Formed(a, 128) && i < GROUPS && j < 16
    ensures |AddressBits(a, 128)| == 128 && AddressBits(a, 128)[16 * i + j] == WordBits(GroupsOf(a)[i], 16)[j]
  {
    hide Shr, Pow2, WordBits, Joined;
    Pow2Of16();
    var k := 48 - 16 * (i % 4);
    JoinedAt(a.words, 64, 16 * i + j);
    FieldBits(a.words[i / 4], 64, k, 16);
    assert WordBits(a.words[i / 4], 64)[64 - k - 16..64 - k][j] == WordBits(a.words[i / 4], 64)[16 * (i % 4) + j];
  }

  /** Octet i of a dotted quad has bits 8 * i to 8 * i + 7 of its 32. */
  lemma OctetBits(v: nat, i: nat)
    requires i < 4
    ensures WordBits(Octets(v)[i], 8) == WordBits(v, 32)[8 * i..8 * i + 8]
  {
    hide Shr, Pow2, WordBits;
    Pow2Of16();
    OctetShifts(v);
    FieldBits(v, 32, 24 - 8 * i, 8);
  }

  lemma OctetShifts(v: nat)
    ensures Octets(v) == [Shr(v, 24) % 0x100, Shr(v, 16) % 0x100, Shr(v, 8) % 0x100, Shr(v, 0) % 0x100]
  {
    Shr8(v);
    Shr8(v / 0x100);
    Shr8(v / 0x100 / 0x100);
    ShrTwice(v, 8, 8);
    ShrTwice(v, 16, 8);
    assert Shr(v, 0) == v;
  }

  /** A dotted quad that stands for two groups has their bits, in order. */
  lemma QuadBits(a: nat, b: nat)
    requires a <= 0xFFFF && b <= 0xFFFF
    ensures WordBits(0x1_0000 * a + b, 32) == WordBits(a, 16) + WordBits(b, 16)
  {
    hide Shr, Pow2, WordBits;
    var v := 0x1_0000 * a + b;
    Pow2Of16();
    Shr16(v);
    FieldBits(v, 32, 16, 16);
    LowBits(v, 32, 16);
    RestBits(v, 16);
    assert v / 0x1_0000 == a && v % 0x1_0000 == b;
    assert WordBits(v, 32) == WordBits(v, 32)[0..16] + WordBits(v, 32)[16..];
  }

  // ---- to_string and parse ----

  /** A text of an address: the dotted quad, or one that is read as its groups. */
  ghost predicate Denotes(text: string, a: Address, bits: nat) {
    Formed(a, bits) &&
    if bits == 32 then text == PrintV4(a.words[0])
    else bits == 128 && exists s :: Spells(s, text) && s.Groups() == GroupsOf(a)
  }

  /** What to_string returns. */
  ghost predicate Canonical(text: string, a: Address, bits: nat)
    requires Formed(a, bits) && (bits == 32 || bits == 128)
  {
    if bits == 32 then text == PrintV4(a.words[0])
    else
      GroupsRoundTrip(a);
      Recommended(GroupsOf(a), text)
  }

  method ToString(a: Address, bits: nat) returns (text: string)
    requires Formed(a, bits) && (bits == 32 || bits == 128)
    ensures Canonical(text, a, bits)
  {
    if bits == 32 {
      text := PrintV4(a.words[0]);
    } else {
      GroupsRoundTrip(a);
      text := PrintV6(GroupsOf(a));
    }
  }

  /** The canonical text of an address is one of its texts. */
  lemma CanonicalDenotes(text: string, a: Address, bits: nat)
    requires Formed(a, bits) && (bits == 32 || bits == 128) && Canonical(text, a, bits)
    ensures Denotes(text, a, bits)
  {
    if bits == 128 {
      GroupsRoundTrip(a);
      var s := RecommendedIsRead(GroupsOf(a), text);
    }
  }

  /** The text of an address is read as that address, and nothing else is read. */
  method Parse(text: string, bits: nat) returns (r: Option<Address>)
    requires bits == 32 || bits == 128
    ensures r.Some? ==> Denotes(text, r.value, bits)
    ensures forall a :: Denotes(text, a, bits) ==> r == Some(a)
  {
    hide Spells, PrintV4, GroupsOf, Pow2, Spelling.Groups, Spelling.Formed, Spelling.Fits;
    Pow2Of64();
    if bits == 32 {
      var value := ParseV4(text);
      forall a | Denotes(text, a, bits) ensures value == Some(a.words[0]) && a == Address([a.words[0]]) {
        assert a.words == [a.words[0]];
      }
      return if value.Some? then Some(Address([value.value])) else None;
    }
    var groups := ParseV6(text);
    forall a | Denotes(text, a, bits) ensures groups.Some? && Assembled(groups.value) == a {
      GroupsRoundTrip(a);
    }
    if groups.None? {
      return None;
    }
    AssembledGroups(groups.value);
    return Some(Assembled(groups.value));
  }

  /** parse(to_string(a)) == a */
  method RoundTrip(a: Address, bits: nat) returns (back: Option<Address>)
    requires Formed(a, bits) && (bits == 32 || bits == 128)
    ensures back == Some(a)
  {
    hide Denotes, GroupsOf, Canonical;
    var text := ToString(a, bits);
    CanonicalDenotes(text, a, bits);
    back := Parse(text, bits);
  }

  /** to_string(parse(s)) == s for dotted quads. */
  method RoundTripText(text: string) returns (parsed: Option<Address>, back: string)
    ensures parsed.Some? ==> back == text
  {
    parsed := Parse(text, 32);
    if parsed.None? {
      return parsed, "";
    }
    back := ToString(parsed.value, 32);
  }

  // ---- prefixes ----

  lemma {:induction false} DottedHasNo(octets: seq<nat>, c: char)
    requires !IsDigit(c) && c != '.'
    ensures c !in Dotted(octets)
  {
    if octets == [] {
    } else {
      NumeralIsPlain(octets[0], 10, c);
      DottedHasNo(octets[1..], c);
    }
  }

  lemma {:induction false} ColonsHaveNo(groups: seq<nat>, c: char)
    requires !IsDigit(c) && c != ':'
    ensures c !in Colons(groups, false)
  {
    if groups == [] {
    } else {
      NumeralIsPlain(groups[0], 16, c);
      ColonsHaveNo(groups[1..], c);
    }
  }

  lemma CanonicalHasNoSlash(text: string, a: Address, bits: nat)
    requires Formed(a, bits) && (bits == 32 || bits == 128) && Canonical(text, a, bits)
    ensures '/' !in text
  {
    if bits == 32 {
      DottedHasNo(Octets(a.words[0]), '/');
    } else {
      GroupsRoundTrip(a);
      var run :| Preferred(GroupsOf(a), run) && text == Layout(GroupsOf(a), run, false).Text();
      var l := Layout(GroupsOf(a), run, false);
      ColonsHaveNo(l.Head(), '/');
      ColonsHaveNo(l.Tail(), '/');
    }
  }

  /** The length after the slash: one to three decimal digits. */
  method ParseLength(text: string, max: nat) returns (r: Option<nat>)
    requires max <= 999
    ensures r.Some? ==> LengthText(text, r.value, max)
    ensures forall n: nat :: LengthText(text, n, max) ==> r == Some(n)
  {
    hide DigitValue;
    if text == "" || |text| > 3 {
      return None;
    }
    var length, i := 0, 0;
    assert text[..0] == "";
    while i < |text|
      invariant i <= |text| && ValueOf(text[..i], 10) == Some(length)
    {
      assert text[..i + 1][..i] == text[..i];
      DecimalDigit(text[i]);
      if text[i] < '0' || text[i] > '9' {
        NoValue(text, 10, i);
        return None;
      }
      length := length * 10 + (text[i] - '0') as nat;
      i := i + 1;
    }
    assert text[..i] == text;
    if length > max {
      return None;
    }
    return Some(length);
  }

  /** A length no greater than max, in one to three decimal digits. */
  ghost predicate LengthText(text: string, n: nat, max: nat) {
    1 <= |text| <= 3 && ValueOf(text, 10) == Some(n) && n <= max
  }

  lemma DecimalDigit(c: char)
    ensures DigitValue(c, 10) == if '0' <= c <= '9' then Some((c - '0') as nat) else None
  {
  }

  lemma LengthRoundTrip(n: nat, max: nat)
    requires n <= max <= 999
    ensures LengthText(Decimal(n), n, max)
  {
    NumeralValue(n, 10);
    assert Power(10, 3) == 1000;
    NumeralLength(n, 10, 3, 1000);
  }

  /** A text of address a and length n: up to its first slash it is a text of the address, and what follows is the
      length; without a slash the length is the width. */
  ghost predicate DenotesPrefix(text: string, a: Address, n: nat, bits: nat) {
    var slash := FindFrom(text, '/', 0);
    && Denotes(text[..slash], a, bits)
    && if slash == |text| then n == bits else LengthText(text[slash + 1..], n, bits)
  }

  /** A bare address is a host route. */
  lemma BareAddress(text: string, a: Address, bits: nat)
    requires Denotes(text, a, bits) && '/' !in text
    ensures DenotesPrefix(text, a, bits, bits)
  {
    FoundAt(text, '/', 0, |text|);
    assert text[..|text|] == text;
  }

  lemma SlashAt(address: string, length: string)
    requires '/' !in address
    ensures var text := address + "/" + length;
      FindFrom(text, '/', 0) == |address| && text[..|address|] == address && text[|address| + 1..] == length
  {
    var text := address + "/" + length;
    assert text[0..|address|] == address;
    FoundAt(text, '/', 0, |address|);
  }

  /** An address, whatever its host bits, a slash and a length. */
  lemma AddressAndLength(address: string, a: Address, n: nat, bits: nat)
    requires Denotes(address, a, bits) && '/' !in address && n <= bits && (bits == 32 || bits == 128)
    ensures DenotesPrefix(address + "/" + Decimal(n), a, n, bits)
  {
    hide Denotes, FindFrom, Decimal;
    SlashAt(address, Decimal(n));
    LengthRoundTrip(n, bits);
  }

  /** A length that is empty, too long, has anything but digits or exceeds the width makes a text of no prefix. */
  lemma NoLength(address: string, length: string, a: Address, n: nat, bits: nat)
    requires '/' !in address
    requires
      || length == "" || |length| > 3 || (exists c :: c in length && !('0' <= c <= '9'))
      || (ValueOf(length, 10).Some? && ValueOf(length, 10).value > bits)
    ensures !DenotesPrefix(address + "/" + length, a, n, bits)
  {
    hide Denotes, FindFrom;
    SlashAt(address, length);
    if c: char :| c in length && !('0' <= c <= '9') {
      var i :| 0 <= i < |length| && length[i] == c;
      DecimalDigit(c);
      NoValue(length, 10, i);
    }
  }

  /** What to_string of a prefix returns. */
  ghost predicate CanonicalPrefix(text: string, p: Prefix, bits: nat)
    requires Normal(p, bits) && (bits == 32 || bits == 128)
  {
    exists address :: Canonical(address, p.address, bits) && text == address + "/" + Decimal(p.length)
  }

  method PrefixToString(p: Prefix, bits: nat) returns (text: string)
    requires Normal(p, bits) && (bits == 32 || bits == 128)
    ensures CanonicalPrefix(text, p, bits)
  {
    hide Canonical;
    var address := ToString(p.address, bits);
    text := address + "/" + Decimal(p.length);
  }

  /** A text is read exactly when it is one of an address and a length, and then as the prefix of the first so many bits
      of the address. */
  method ParsePrefix(text: string, bits: nat) returns (r: Option<Prefix>)
    requires bits == 32 || bits == 128
    ensures r.Some? ==> Normal(r.value, bits) && exists a :: DenotesPrefix(text, a, r.value.length, bits)
    ensures forall a, n: nat :: DenotesPrefix(text, a, n, bits) ==>
      && r.Some? && r.value.length == n <= |AddressBits(a, bits)|
      && Key(r.value, bits) == AddressBits(a, bits)[..n]
  {
    hide Denotes, Normal, LengthText, AddressBits, FindFrom;
    var slash := FindFrom(text, '/', 0);
    var parsed := Parse(text[..slash], bits);
    if parsed.None? {
      return None;
    }
    var length := Some(bits);
    if slash < |text| {
      length := ParseLength(text[slash + 1..], bits);
      if length.None? {
        return None;
      }
      LengthFits(text[slash + 1..], length.value, bits);
    }
    IsFormed(text[..slash], parsed.value, bits);
    var made := Construct(parsed.value, bits, length.value);
    assert DenotesPrefix(text, parsed.value, made.length, bits);
    return Some(made);
  }

  lemma IsFormed(text: string, a: Address, bits: nat)
    requires Denotes(text, a, bits)
    ensures Formed(a, bits)
  {
  }

  lemma LengthFits(text: string, n: nat, max: nat)
    requires LengthText(text, n, max)
    ensures n <= max
  {
  }

  /** parse(to_string(p)) == p */
  method PrefixRoundTrip(p: Prefix, bits: nat) returns (back: Option<Prefix>)
    requires Normal(p, bits) && (bits == 32 || bits == 128)
    ensures back == Some(p)
  {
    hide Denotes, Canonical, Decimal, AddressBits, DenotesPrefix;
    var text := PrefixToString(p, bits);
    ghost var address :| Canonical(address, p.address, bits) && text == address + "/" + Decimal(p.length);
    CanonicalDenotes(address, p.address, bits);
    CanonicalHasNoSlash(address, p.address, bits);
    AddressAndLength(address, p.address, p.length, bits);
    back := ParsePrefix(text, bits);
    SameKeySamePrefix(p, back.value, bits);
  }
}
