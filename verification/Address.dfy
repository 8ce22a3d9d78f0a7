/**
 basic_address and basic_prefix: fixed-width addresses in 64-bit words, of which a 32-bit address uses the low half
 of one. What they compute word by word is what bit strings say.
 */
module Addresses {
  import opened Bits
  import opened Words

  predicate Supported(bits: nat) {
    bits == 32 || (bits > 0 && bits % 64 == 0)
  }

  function BitsPerWord(bits: nat): nat {
    if bits == 32 then 32 else 64
  }

  function PaddingBits(bits: nat): nat {
    if bits == 32 then 32 else 0
  }

  function WordCount(bits: nat): nat {
    (bits + 63) / 64
  }

  /** The arithmetic of word positions, written out for the two word sizes: n * i, i / n and i % n. */
  function Span(n: nat, i: nat): nat {
    if n == 32 then 32 * i else 64 * i
  }

  function WordOf(n: nat, i: nat): nat {
    if n == 32 then i / 32 else i / 64
  }

  function OffsetOf(n: nat, i: nat): nat {
    if n == 32 then i % 32 else i % 64
  }

  datatype Address = Address(words: seq<nat>)

  ghost predicate Formed(a: Address, bits: nat) {
    Supported(bits) && |a.words| == WordCount(bits) && forall i :: 0 <= i < |a.words| ==>
      a.words[i] < Pow2(BitsPerWord(bits))
  }

  function Joined(words: seq<nat>, n: nat): Bits {
    if words == [] then [] else WordBits(words[0], n) + Joined(words[1..], n)
  }

  /** The address as a bit string, bit 0 the most significant. */
  function AddressBits(a: Address, bits: nat): Bits {
    Joined(a.words, BitsPerWord(bits))
  }

  // ---- the bit string of a sequence of words ----

  lemma PlaceOf(n: nat, i: nat)
    requires n == 32 || n == 64
    ensures OffsetOf(n, i) < n && (i < n ==> WordOf(n, i) == 0 && OffsetOf(n, i) == i)
    ensures i >= n ==> WordOf(n, i) == WordOf(n, i - n) + 1 && OffsetOf(n, i) == OffsetOf(n, i - n)
  {
  }

  lemma {:induction false} JoinedAt(words: seq<nat>, n: nat, i: nat)
    requires n == 32 || n == 64
    ensures |Joined(words, n)| == Span(n, |words|) && OffsetOf(n, i) < n
    ensures i < Span(n, |words|) ==>
      WordOf(n, i) < |words| && Joined(words, n)[i] == WordBits(words[WordOf(n, i)], n)[OffsetOf(n, i)]
  {
    hide WordBits, WordOf, OffsetOf;
    PlaceOf(n, i);
    if words == [] {
    } else if i < n {
      JoinedAt(words[1..], n, 0);
    } else {
      JoinedAt(words[1..], n, i - n);
    }
  }

  lemma {:induction false} JoinedConcat(v: seq<nat>, w: seq<nat>, n: nat)
    ensures Joined(v + w, n) == Joined(v, n) + Joined(w, n)
  {
    hide WordBits;
    if v == [] {
      assert v + w == w;
    } else {
      assert (v + w)[0] == v[0] && (v + w)[1..] == v[1..] + w;
      calc {
        Joined(v + w, n);
        WordBits(v[0], n) + Joined(v[1..] + w, n);
        { JoinedConcat(v[1..], w, n); }
        WordBits(v[0], n) + (Joined(v[1..], n) + Joined(w, n));
        Joined(v, n) + Joined(w, n);
      }
    }
  }

  lemma {:induction false} SameWords(v: seq<nat>, w: seq<nat>, n: nat)
    requires n == 32 || n == 64
    requires |v| == |w| && forall i :: 0 <= i < |v| ==> v[i] < Pow2(n) && w[i] < Pow2(n)
    requires Joined(v, n) == Joined(w, n)
    ensures v == w
  {
    hide WordBits, Pow2;
    if v == [] {
    } else {
      var a, b := Joined(v, n), Joined(w, n);
      assert a[..n] == WordBits(v[0], n) && b[..n] == WordBits(w[0], n);
      assert a[n..] == Joined(v[1..], n) && b[n..] == Joined(w[1..], n);
      SameBits(v[0], w[0], n);
      SameWords(v[1..], w[1..], n);
      assert v == [v[0]] + v[1..] && w == [w[0]] + w[1..];
    }
  }

  lemma AddressLength(a: Address, bits: nat)
    requires Formed(a, bits)
    ensures |AddressBits(a, bits)| == bits
  {
    hide WordBits, Joined, Pow2;
    JoinedAt(a.words, BitsPerWord(bits), 0);
  }

  lemma SameAddress(a: Address, b: Address, bits: nat)
    requires Formed(a, bits) && Formed(b, bits)
    ensures AddressBits(a, bits) == AddressBits(b, bits) <==> a == b
  {
    if AddressBits(a, bits) == AddressBits(b, bits) {
      SameWords(a.words, b.words, BitsPerWord(bits));
    }
  }

  // ---- bit ----

  function Bit(a: Address, bits: nat, index: nat): bool
    requires Formed(a, bits) && index < bits
  {
    var n := BitsPerWord(bits);
    Shr(a.words[WordOf(n, index)], n - 1 - OffsetOf(n, index)) % 2 != 0
  }

  lemma BitIs(a: Address, bits: nat, index: nat)
    requires Formed(a, bits) && index < bits
    ensures |AddressBits(a, bits)| == bits && Bit(a, bits, index) == AddressBits(a, bits)[index]
  {
    hide WordBits, Joined, Pow2, Shr;
    var n := BitsPerWord(bits);
    JoinedAt(a.words, n, index);
    ShrBit(a.words[WordOf(n, index)], n, n - 1 - OffsetOf(n, index));
  }

  // ---- common_prefix_length and matches ----

  lemma SharedAfter(head: Bits, a: Bits, b: Bits)
    ensures Shared(head + a, head + b) == |head| + Shared(a, b)
  {
    var n := |head| + Shared(a, b);
    assert (head + a)[..n] == head + a[..Shared(a, b)] && (head + b)[..n] == head + b[..Shared(a, b)];
    SharedIsLongest(head + a, head + b, n);
    if n < |head + a| && n < |head + b| {
      SharedIsLongest(head + a, head + b, n + 1);
      assert (head + a)[..n + 1][n] == a[Shared(a, b)] && (head + b)[..n + 1][n] == b[Shared(a, b)];
    }
  }

  lemma SharedBefore(a: Bits, b: Bits, tailA: Bits, tailB: Bits)
    requires |a| == |b| && a != b
    ensures Shared(a + tailA, b + tailB) == Shared(a, b) < |a|
  {
    var n := Shared(a, b);
    assert a[..|a|] == a && b[..|b|] == b;
    assert (a + tailA)[..n] == a[..n] && (b + tailB)[..n] == b[..n];
    SharedIsLongest(a + tailA, b + tailB, n);
    SharedIsLongest(a + tailA, b + tailB, n + 1);
    assert (a + tailA)[..n + 1][n] == a[n] && (b + tailB)[..n + 1][n] == b[n];
  }

  /** The addresses agree on their first i words and differ in the next. */
  lemma FirstDifference(a: Address, b: Address, bits: nat, i: nat)
    requires Formed(a, bits) && Formed(b, bits) && i < |a.words|
    requires a.words[..i] == b.words[..i] && a.words[i] != b.words[i]
    ensures var n := BitsPerWord(bits);
      Shared(AddressBits(a, bits), AddressBits(b, bits))
      == Span(n, i) + CountlZero(Xor(a.words[i], b.words[i])) - PaddingBits(bits) < Span(n, i + 1)
    ensures CountlZero(Xor(a.words[i], b.words[i])) >= PaddingBits(bits)
  {
    hide WordBits, Joined, Pow2, Xor, CountlZero, Shared;
    var n := BitsPerWord(bits);
    var v, w := a.words[i], b.words[i];
    DifferenceIsShared(v, w, n);
    if WordBits(v, n) == WordBits(w, n) {
      SameBits(v, w, n);
    }
    var head := Joined(a.words[..i], n);
    JoinedAt(a.words[..i], n, 0);
    SplitAt(a.words, n, i);
    SplitAt(b.words, n, i);
    SharedBefore(WordBits(v, n), WordBits(w, n), Joined(a.words[i + 1..], n), Joined(b.words[i + 1..], n));
    SharedAfter(head, WordBits(v, n) + Joined(a.words[i + 1..], n), WordBits(w, n) + Joined(b.words[i + 1..], n));
  }

  lemma SplitAt(words: seq<nat>, n: nat, i: nat)
    requires i < |words|
    ensures Joined(words, n) == Joined(words[..i], n) + (WordBits(words[i], n) + Joined(words[i + 1..], n))
  {
    assert words == words[..i] + words[i..];
    JoinedConcat(words[..i], words[i..], n);
    assert words[i..][1..] == words[i + 1..];
  }

  method CommonPrefixLength(a: Address, b: Address, bits: nat) returns (length: nat)
    requires Formed(a, bits) && Formed(b, bits)
    ensures length == Shared(AddressBits(a, bits), AddressBits(b, bits)) <= bits
  {
    AddressLength(a, bits);
    var total, i := 0, 0;
    while i < WordCount(bits)
      invariant i <= WordCount(bits) && total == Span(BitsPerWord(bits), i)
      invariant a.words[..i] == b.words[..i]
    {
      var diff := Xor(a.words[i], b.words[i]);
      XorZero(a.words[i], b.words[i]);
      if diff != 0 {
        FirstDifference(a, b, bits, i);
        var lead := CountlZero(diff) - PaddingBits(bits);
        return if total + lead < bits then total + lead else bits;
      }
      assert a.words[..i + 1] == a.words[..i] + [a.words[i]] && b.words[..i + 1] == b.words[..i] + [b.words[i]];
      total := total + BitsPerWord(bits);
      i := i + 1;
      if total >= bits {
        break;
      }
    }
    assert i == |a.words| && a.words == a.words[..i] && b.words == b.words[..i];
    SharedIsLongest(AddressBits(a, bits), AddressBits(b, bits), bits);
    return bits;
  }

  method Matches(a: Address, b: Address, bits: nat, length: nat) returns (agree: bool)
    requires Formed(a, bits) && Formed(b, bits)
    ensures agree <==> length == 0 || length <= Shared(AddressBits(a, bits), AddressBits(b, bits))
    ensures length <= bits ==>
      |AddressBits(a, bits)| == bits == |AddressBits(b, bits)|
      && (agree <==> AddressBits(a, bits)[..length] == AddressBits(b, bits)[..length])
  {
    AddressLength(a, bits);
    AddressLength(b, bits);
    if length <= bits {
      SharedIsLongest(AddressBits(a, bits), AddressBits(b, bits), length);
    }
    if length == 0 {
      return true;
    }
    var shared := CommonPrefixLength(a, b, bits);
    return shared >= length;
  }

  // ---- masked ----

  /** The first n bits, and zeros for the rest. */
  function MaskedBits(b: Bits, n: nat): Bits {
    if n >= |b| then b else b[..n] + Zeros(|b| - n)
  }

  /** What masked leaves of word i. */
  function MaskedWordAt(words: seq<nat>, n: nat, length: nat, i: nat): nat
    requires i < |words|
  {
    if length <= Span(n, i) then 0
    else if length - Span(n, i) >= n then words[i]
    else And(words[i], Shl(WORD - 1, n - (length - Span(n, i))))
  }

  lemma MaskedWordBits(words: seq<nat>, n: nat, length: nat, i: nat)
    requires (n == 32 || n == 64) && i < |words| && words[i] < Pow2(n)
    ensures MaskedWordAt(words, n, length, i) < Pow2(n)
    ensures forall j :: 0 <= j < n ==>
      WordBits(MaskedWordAt(words, n, length, i), n)[j] == (Span(n, i) + j < length && WordBits(words[i], n)[j])
  {
    hide Pow2, And, Shl, WordBits;
    if length <= Span(n, i) {
      ZeroBits(n);
    } else if length - Span(n, i) < n {
      MaskedWord(words[i], n, n - (length - Span(n, i)));
    }
  }

  method Masked(a: Address, bits: nat, length: nat) returns (r: Address)
    requires Formed(a, bits)
    ensures Formed(r, bits)
    ensures AddressBits(r, bits) == MaskedBits(AddressBits(a, bits), length)
  {
    AddressLength(a, bits);
    if length >= bits {
      return a;
    }
    var n := BitsPerWord(bits);
    var words := seq(WordCount(bits), _ => 0);
    var i := 0;
    while i < WordCount(bits)
      invariant i <= WordCount(bits) && |words| == WordCount(bits)
      invariant forall k :: 0 <= k < |words| ==> words[k] == if k < i then MaskedWordAt(a.words, n, length, k) else 0
    {
      var consumed := Span(n, i);
      if length <= consumed {
        break;
      }
      var keep := if length - consumed < n then length - consumed else n;
      if keep == n {
        words := words[i := a.words[i]];
      } else {
        words := words[i := And(a.words[i], Shl(WORD - 1, n - keep))];
      }
      i := i + 1;
    }
    r := Address(words);
    forall k | 0 <= k < |words| ensures words[k] == MaskedWordAt(a.words, n, length, k) {
      if i <= k {
        assert length <= Span(n, i) <= Span(n, k);
      }
    }
    MaskedJoined(a, r, bits, length);
  }

  lemma MaskedJoined(a: Address, r: Address, bits: nat, length: nat)
    requires Formed(a, bits) && length < bits && |r.words| == |a.words|
    requires forall k :: 0 <= k < |a.words| ==> r.words[k] == MaskedWordAt(a.words, BitsPerWord(bits), length, k)
    ensures Formed(r, bits) && AddressBits(r, bits) == MaskedBits(AddressBits(a, bits), length)
  {
    hide WordBits, Joined, Pow2, MaskedWordAt;
    var n := BitsPerWord(bits);
    forall k | 0 <= k < |r.words| ensures r.words[k] < Pow2(n) {
      MaskedWordBits(a.words, n, length, k);
    }
    AddressLength(a, bits);
    AddressLength(r, bits);
    forall i | 0 <= i < bits ensures AddressBits(r, bits)[i] == MaskedBits(AddressBits(a, bits), length)[i] {
      JoinedAt(a.words, n, i);
      JoinedAt(r.words, n, i);
      MaskedWordBits(a.words, n, length, WordOf(n, i));
      assert Span(n, WordOf(n, i)) + OffsetOf(n, i) == i;
    }
  }

  /** Masking to n bits makes exactly the addresses that agree on n bits equal. */
  lemma MaskedAgree(a: Bits, b: Bits, n: nat)
    requires |a| == |b|
    ensures n <= |a| ==> (MaskedBits(a, n) == MaskedBits(b, n) <==> a[..n] == b[..n])
    ensures MaskedBits(MaskedBits(a, n), n) == MaskedBits(a, n)
  {
    if n <= |a| && MaskedBits(a, n) == MaskedBits(b, n) {
      assert MaskedBits(a, n)[..n] == a[..n] && MaskedBits(b, n)[..n] == b[..n];
    }
  }

  /** a.masked(n) == b.masked(n) exactly when a.matches(b, n), for every length, word boundary or not. */
  method MaskedEqualIffMatches(a: Address, b: Address, bits: nat, length: nat) returns (same: bool, agree: bool)
    requires Formed(a, bits) && Formed(b, bits) && length <= bits
    ensures same <==> agree
  {
    var x := Masked(a, bits, length);
    var y := Masked(b, bits, length);
    same := x == y;
    agree := Matches(a, b, bits, length);
    AddressLength(a, bits);
    AddressLength(b, bits);
    SameAddress(x, y, bits);
    MaskedAgree(AddressBits(a, bits), AddressBits(b, bits), length);
  }

  // ---- the order of addresses ----

  /** <=> on the words, the first one first. */
  function LessWords(v: seq<nat>, w: seq<nat>): bool
    requires |v| == |w|
  {
    if v == [] then false else if v[0] != w[0] then v[0] < w[0] else LessWords(v[1..], w[1..])
  }

  /** Where two bit strings first differ, the smaller has a zero. */
  predicate LessBits(a: Bits, b: Bits)
    requires |a| == |b|
  {
    Shared(a, b) < |a| && b[Shared(a, b)]
  }

  lemma {:induction false} LessWord(v: nat, w: nat, n: nat)
    requires v < Pow2(n) && w < Pow2(n)
    ensures v < w <==> LessBits(WordBits(v, n), WordBits(w, n))
    decreases n
  {
    if n == 0 {
    } else {
      var a, b := WordBits(v / 2, n - 1), WordBits(w / 2, n - 1);
      LessWord(v / 2, w / 2, n - 1);
      LessWord(w / 2, v / 2, n - 1);
      if a == b {
        SameBits(v / 2, w / 2, n - 1);
        SharedAfter(a, [v % 2 == 1], [w % 2 == 1]);
        SharedIsLongest(a, b, n - 1);
      } else {
        SharedBefore(a, b, [v % 2 == 1], [w % 2 == 1]);
      }
    }
  }

  lemma {:induction false} LessAddress(v: seq<nat>, w: seq<nat>, n: nat)
    requires (n == 32 || n == 64) && |v| == |w| && forall i :: 0 <= i < |v| ==> v[i] < Pow2(n) && w[i] < Pow2(n)
    ensures |Joined(v, n)| == |Joined(w, n)|
    ensures LessWords(v, w) <==> LessBits(Joined(v, n), Joined(w, n))
  {
    hide WordBits, Pow2, Shared;
    JoinedAt(v, n, 0);
    JoinedAt(w, n, 0);
    if v == [] {
    } else {
      var a, b := WordBits(v[0], n), WordBits(w[0], n);
      LessAddress(v[1..], w[1..], n);
      if v[0] == w[0] {
        SharedAfter(a, Joined(v[1..], n), Joined(w[1..], n));
      } else {
        if a == b {
          SameBits(v[0], w[0], n);
        }
        LessWord(v[0], w[0], n);
        SharedBefore(a, b, Joined(v[1..], n), Joined(w[1..], n));
      }
    }
  }
}
