/** basic_prefix: an address without host bits, and a length. Its key is the bit string that the trie works on. */
module Prefixes {
  import opened Bits
  import opened Words
  import opened Addresses

  datatype Prefix = Prefix(address: Address, length: nat)

  ghost predicate Normal(p: Prefix, bits: nat) {
    && Formed(p.address, bits) && p.length <= bits
    && AddressBits(p.address, bits) == MaskedBits(AddressBits(p.address, bits), p.length)
  }

  function Key(p: Prefix, bits: nat): (k: Bits)
    requires Normal(p, bits)
  {
    AddressLength(p.address, bits);
    AddressBits(p.address, bits)[..p.length]
  }

  lemma KeyLength(p: Prefix, bits: nat)
    requires Normal(p, bits)
    ensures |Key(p, bits)| == p.length
    ensures AddressBits(p.address, bits) == Key(p, bits) + Zeros(bits - p.length)
  {
    AddressLength(p.address, bits);
  }

  /** The constructor clears the host bits. */
  method Construct(address: Address, bits: nat, length: nat) returns (p: Prefix)
    requires Formed(address, bits) && length <= bits
    ensures Normal(p, bits) && p.length == length && |AddressBits(address, bits)| == bits
    ensures Key(p, bits) == AddressBits(address, bits)[..length]
  {
    AddressLength(address, bits);
    var masked := Masked(address, bits, length);
    MaskedAgree(AddressBits(address, bits), AddressBits(address, bits), length);
    return Prefix(masked, length);
  }

  /** Two prefixes are equal when they denote the same range, however they were written. */
  lemma SameKeySamePrefix(p: Prefix, q: Prefix, bits: nat)
    requires Normal(p, bits) && Normal(q, bits)
    ensures p == q <==> Key(p, bits) == Key(q, bits)
  {
    KeyLength(p, bits);
    KeyLength(q, bits);
    SameAddress(p.address, q.address, bits);
  }

  lemma PrefixOfAddress(a: Bits, n: nat, b: Bits)
    requires n <= |a| && |a| == |b|
    ensures n <= Shared(a, b) <==> a[..n] <= b
  {
    SharedIsLongest(a, b, n);
  }

  method Contains(p: Prefix, bits: nat, address: Address) returns (inside: bool)
    requires Normal(p, bits) && Formed(address, bits)
    ensures inside <==> Key(p, bits) <= AddressBits(address, bits)
  {
    AddressLength(p.address, bits);
    AddressLength(address, bits);
    PrefixOfAddress(AddressBits(p.address, bits), p.length, AddressBits(address, bits));
    var shared := CommonPrefixLength(p.address, address, bits);
    return shared >= p.length;
  }

  /** A prefix covers itself and the more specific ones inside it. */
  method Covers(p: Prefix, bits: nat, other: Prefix) returns (covers: bool)
    requires Normal(p, bits) && Normal(other, bits)
    ensures covers <==> Key(p, bits) <= Key(other, bits)
  {
    KeyLength(p, bits);
    KeyLength(other, bits);
    var inside := Contains(p, bits, other.address);
    if other.length >= p.length {
      assert AddressBits(other.address, bits)[..p.length] == Key(other, bits)[..p.length];
    }
    return other.length >= p.length && inside;
  }

  /** The shared length that the trie's descent works with: that of the addresses, capped at both key lengths. */
  lemma ClippedShared(a: Bits, b: Bits, m: nat, n: nat)
    requires m <= |a| && n <= |b|
    ensures Shared(a[..m], b[..n]) ==
      if Shared(a, b) <= m && Shared(a, b) <= n then Shared(a, b) else if m <= n then m else n
  {
    var s := if Shared(a, b) <= m && Shared(a, b) <= n then Shared(a, b) else if m <= n then m else n;
    SharedIsLongest(a, b, s);
    assert a[..m][..s] == a[..s] && b[..n][..s] == b[..s];
    SharedIsLongest(a[..m], b[..n], s);
    if s < m && s < n {
      assert a[..m][s] == a[s] && b[..n][s] == b[s];
      assert s == Shared(a, b);
      SharedIsLongest(a[..m], b[..n], s + 1);
      assert a[..m][..s + 1][s] != b[..n][..s + 1][s];
    }
  }

  /** <=> compares addresses, and lengths where these are equal. */
  predicate LessPrefix(p: Prefix, q: Prefix)
    requires |p.address.words| == |q.address.words|
  {
    if p.address != q.address then LessWords(p.address.words, q.address.words) else p.length < q.length
  }

  /** Padding with zeros compares as the shorter string before its continuations. */
  lemma PaddedOrder(a: Bits, b: Bits, bits: nat)
    requires |a| <= bits && |b| <= bits
    ensures var x, y := a + Zeros(bits - |a|), b + Zeros(bits - |b|);
      Before(a, b) <==> if x == y then |a| < |b| else LessBits(x, y)
  {
    var x, y := a + Zeros(bits - |a|), b + Zeros(bits - |b|);
    var n, m := Shared(a, b), Shared(x, y);
    assert x[..n] == a[..n] && y[..n] == b[..n];
    SharedIsLongest(x, y, n);
    if m == bits {
      assert x[..m] == x && y[..m] == y;
    }
    if n < |a| && n < |b| {
      SharedIsLongest(x, y, n + 1);
      assert x[..n + 1][n] != y[..n + 1][n];
    }
  }

  /** The order of prefixes is the order in which the trie enumerates their keys. */
  lemma OrderIsBefore(p: Prefix, q: Prefix, bits: nat)
    requires Normal(p, bits) && Normal(q, bits)
    ensures LessPrefix(p, q) <==> Before(Key(p, bits), Key(q, bits))
  {
    hide WordBits, Joined, Pow2, Shared, LessWords, LessBits, Before;
    KeyLength(p, bits);
    KeyLength(q, bits);
    PaddedOrder(Key(p, bits), Key(q, bits), bits);
    SameAddress(p.address, q.address, bits);
    LessAddress(p.address.words, q.address.words, BitsPerWord(bits));
  }
}
