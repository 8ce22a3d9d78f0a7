/** Machine words, as naturals below a power of two, and the operations on them one bit at a time. */
module Words {
  import opened Bits

  const WORD: nat := 0x1_0000_0000_0000_0000

  function Pow2(n: nat): (p: nat)
    ensures p > 0
  {
    if n == 0 then 1 else 2 * Pow2(n - 1)
  }

  /** The n low bits of a word, most significant first. */
  function WordBits(w: nat, n: nat): (b: Bits)
    ensures |b| == n
  {
    if n == 0 then [] else WordBits(w / 2, n - 1) + [w % 2 == 1]
  }

  function FromBits(b: Bits): nat {
    if b == [] then 0 else 2 * FromBits(b[..|b| - 1]) + if b[|b| - 1] then 1 else 0
  }

  /** w >> k */
  function Shr(w: nat, k: nat): nat {
    if k == 0 then w else Shr(w / 2, k - 1)
  }

  /** w << k in 64 bits */
  function Shl(w: nat, k: nat): nat {
    if k == 0 then w else 2 * Shl(w, k - 1) % WORD
  }

  /** a ^ b */
  function Xor(a: nat, b: nat): nat
    decreases a + b
  {
    if a == 0 && b == 0 then 0 else 2 * Xor(a / 2, b / 2) + if a % 2 != b % 2 then 1 else 0
  }

  /** a & b */
  function And(a: nat, b: nat): nat {
    if a == 0 || b == 0 then 0 else 2 * And(a / 2, b / 2) + if a % 2 == 1 && b % 2 == 1 then 1 else 0
  }

  function LeadingZeros(b: Bits): (n: nat)
    ensures n <= |b|
  {
    if b == [] || b[0] then 0 else 1 + LeadingZeros(b[1..])
  }

  /** std::countl_zero of a 64-bit word. */
  function CountlZero(w: nat): (n: nat)
    ensures n <= 64
  {
    LeadingZeros(WordBits(w, 64))
  }

  function Zeros(n: nat): (b: Bits)
    ensures |b| == n && forall i :: 0 <= i < n ==> !b[i]
  {
    seq(n, _ => false)
  }

  // ---- words and their bits determine each other ----

  lemma {:induction false} BitsRoundTrip(w: nat, n: nat)
    requires w < Pow2(n)
    ensures FromBits(WordBits(w, n)) == w
  {
    if n == 0 {
    } else {
      BitsRoundTrip(w / 2, n - 1);
      var b := WordBits(w, n);
      assert b[..|b| - 1] == WordBits(w / 2, n - 1);
    }
  }

  lemma SameBits(v: nat, w: nat, n: nat)
    requires v < Pow2(n) && w < Pow2(n) && WordBits(v, n) == WordBits(w, n)
    ensures v == w
  {
    BitsRoundTrip(v, n);
    BitsRoundTrip(w, n);
  }

  lemma {:induction false} ZeroBits(n: nat)
    ensures WordBits(0, n) == Zeros(n)
  {
    if n == 0 {
    } else {
      ZeroBits(n - 1);
    }
  }

  // ---- what the operations do to the bits ----

  lemma {:induction false} ShrBit(w: nat, n: nat, k: nat)
    requires k < n
    ensures Shr(w, k) % 2 == 1 <==> WordBits(w, n)[n - 1 - k]
  {
    if k == 0 {
    } else {
      ShrBit(w / 2, n - 1, k - 1);
    }
  }

  /** The first m bits are those of the word shifted down. */
  lemma {:induction false} HighBits(w: nat, k: nat, m: nat)
    ensures WordBits(w, m + k)[..m] == WordBits(Shr(w, k), m)
  {
    if k == 0 {
    } else {
      HighBits(w / 2, k - 1, m);
    }
  }

  lemma {:induction false} LowBits(w: nat, n: nat, m: nat)
    requires m <= n
    ensures WordBits(w, n)[n - m..] == WordBits(w, m)
  {
    if m == 0 {
    } else {
      LowBits(w / 2, n - 1, m - 1);
    }
  }

  /** Bits further up do not matter. */
  lemma {:induction false} MoreBits(q: nat, r: nat, m: nat)
    ensures WordBits(Pow2(m) * q + r, m) == WordBits(r, m)
  {
    if m == 0 {
    } else {
      var t := Pow2(m - 1) * q;
      assert Pow2(m) * q == 2 * t;
      assert (2 * t + r) / 2 == t + r / 2 && (2 * t + r) % 2 == r % 2;
      MoreBits(q, r / 2, m - 1);
    }
  }

  lemma RestBits(w: nat, m: nat)
    ensures WordBits(w % Pow2(m), m) == WordBits(w, m)
  {
    hide Pow2, WordBits;
    Division(w, Pow2(m));
    MoreBits(w / Pow2(m), w % Pow2(m), m);
  }

  lemma Division(w: nat, p: nat)
    requires p > 0
    ensures p * (w / p) + w % p == w
  {
  }

  /** Shifting a word down by k and keeping m bits gives the m bits above the last k. */
  lemma FieldBits(w: nat, n: nat, k: nat, m: nat)
    requires k + m <= n
    ensures WordBits(Shr(w, k) % Pow2(m), m) == WordBits(w, n)[n - k - m..n - k]
  {
    RestBits(Shr(w, k), m);
    HighBits(w, k, m);
    LowBits(w, n, m + k);
    assert WordBits(w, n)[n - k - m..][..m] == WordBits(w, n)[n - k - m..n - k];
  }

  // ---- shifts as divisions ----

  lemma {:induction false} ShrTwice(w: nat, j: nat, k: nat)
    ensures Shr(w, j + k) == Shr(Shr(w, j), k)
  {
    if j == 0 {
    } else {
      ShrTwice(w / 2, j - 1, k);
    }
  }

  lemma Shr4(w: nat)
    ensures Shr(w, 4) == w / 0x10
  {
    assert Shr(w / 2 / 2 / 2 / 2, 0) == w / 0x10;
    assert Shr(w / 2 / 2 / 2, 1) == w / 0x10;
    assert Shr(w / 2 / 2, 2) == w / 0x10;
    assert Shr(w / 2, 3) == w / 0x10;
  }

  lemma Shr8(w: nat)
    ensures Shr(w, 8) == w / 0x100
  {
    hide Shr;
    Shr4(w);
    Shr4(w / 0x10);
    ShrTwice(w, 4, 4);
  }

  lemma Shr16(w: nat)
    ensures Shr(w, 16) == w / 0x1_0000
  {
    hide Shr;
    Shr8(w);
    Shr8(w / 0x100);
    ShrTwice(w, 8, 8);
  }

  lemma {:induction false} XorBits(a: nat, b: nat, n: nat)
    ensures forall i :: 0 <= i < n ==> WordBits(Xor(a, b), n)[i] == (WordBits(a, n)[i] != WordBits(b, n)[i])
  {
    if n == 0 {
    } else {
      XorBits(a / 2, b / 2, n - 1);
      assert Xor(a, b) / 2 == Xor(a / 2, b / 2);
    }
  }

  lemma {:induction false} AndBits(a: nat, b: nat, n: nat)
    ensures forall i :: 0 <= i < n ==> WordBits(And(a, b), n)[i] == (WordBits(a, n)[i] && WordBits(b, n)[i])
  {
    if n == 0 {
    } else {
      AndBits(a / 2, b / 2, n - 1);
      assert And(a, b) / 2 == And(a / 2, b / 2);
    }
  }

  lemma {:induction false} XorFits(a: nat, b: nat, n: nat)
    requires a < Pow2(n) && b < Pow2(n)
    ensures Xor(a, b) < Pow2(n)
  {
    if n == 0 {
    } else {
      XorFits(a / 2, b / 2, n - 1);
    }
  }

  lemma {:induction false} AndFits(a: nat, b: nat, n: nat)
    requires a < Pow2(n)
    ensures And(a, b) < Pow2(n)
  {
    if n == 0 {
    } else {
      AndFits(a / 2, b / 2, n - 1);
    }
  }

  lemma {:induction false} XorZero(a: nat, b: nat)
    ensures Xor(a, b) == 0 <==> a == b
    decreases a + b
  {
    if a != 0 || b != 0 {
      XorZero(a / 2, b / 2);
    }
  }

  /** Above a word that fits in n bits there are only zeros. */
  lemma {:induction false} Padded(w: nat, n: nat, m: nat)
    requires w < Pow2(n)
    ensures WordBits(w, n + m) == Zeros(m) + WordBits(w, n)
  {
    if n == 0 {
      ZeroBits(m);
    } else {
      Padded(w / 2, n - 1, m);
    }
  }

  lemma {:induction false} LeadingPadded(m: nat, b: Bits)
    ensures LeadingZeros(Zeros(m) + b) == m + LeadingZeros(b)
  {
    if m == 0 {
      assert Zeros(0) + b == b;
    } else {
      LeadingPadded(m - 1, b);
      assert (Zeros(m) + b)[1..] == Zeros(m - 1) + b;
    }
  }

  lemma {:induction false} LeadingIsShared(c: Bits, a: Bits, b: Bits)
    requires |a| == |b| == |c| && forall i :: 0 <= i < |c| ==> c[i] == (a[i] != b[i])
    ensures LeadingZeros(c) == Shared(a, b)
  {
    if c != [] && !c[0] {
      LeadingIsShared(c[1..], a[1..], b[1..]);
    }
  }

  /** The leading zeros of a ^ b, less the padding, count the bits that a and b share. */
  lemma DifferenceIsShared(a: nat, b: nat, n: nat)
    requires n <= 64 && a < Pow2(n) && b < Pow2(n)
    ensures CountlZero(Xor(a, b)) == 64 - n + Shared(WordBits(a, n), WordBits(b, n))
  {
    XorFits(a, b, n);
    Padded(Xor(a, b), n, 64 - n);
    LeadingPadded(64 - n, WordBits(Xor(a, b), n));
    XorBits(a, b, n);
    LeadingIsShared(WordBits(Xor(a, b), n), WordBits(a, n), WordBits(b, n));
  }

  lemma {:induction false} Pow2Grows(k: nat, n: nat)
    requires k <= n
    ensures Pow2(k) <= Pow2(n)
    decreases n
  {
    if k < n {
      Pow2Grows(k, n - 1);
    }
  }

  lemma Pow2Of64()
    ensures Pow2(64) == WORD && Pow2(32) == 0x1_0000_0000
  {
    assert Pow2(8) == 0x100;
    assert Pow2(16) == 0x1_0000;
    assert Pow2(24) == 0x100_0000;
    assert Pow2(32) == 0x1_0000_0000;
    assert Pow2(40) == 0x100_0000_0000;
    assert Pow2(48) == 0x1_0000_0000_0000;
    assert Pow2(56) == 0x100_0000_0000_0000;
  }

  /** ~0 << k */
  lemma {:induction false} OnesShifted(k: nat)
    requires k <= 64
    ensures Shl(WORD - 1, k) == WORD - Pow2(k)
  {
    Pow2Of64();
    if k == 0 {
    } else {
      OnesShifted(k - 1);
      Pow2Grows(k, 64);
    }
  }

  lemma {:induction false} MaskBits(mask: nat, k: nat, n: nat, m: nat)
    requires k <= n <= m && mask + Pow2(k) == Pow2(m)
    ensures forall i :: 0 <= i < n ==> WordBits(mask, n)[i] == (i < n - k)
  {
    if k > 0 {
      assert mask % 2 == 0 && mask / 2 + Pow2(k - 1) == Pow2(m - 1);
      MaskBits(mask / 2, k - 1, n - 1, m - 1);
    } else if n > 0 {
      assert mask % 2 == 1 && mask / 2 + 1 == Pow2(m - 1);
      MaskBits(mask / 2, 0, n - 1, m - 1);
    }
  }

  /** w & (~0 << k) in a word of n used bits keeps all but the last k of them. */
  lemma MaskedWord(w: nat, n: nat, k: nat)
    requires k <= n <= 64 && w < Pow2(n)
    ensures var r := And(w, Shl(WORD - 1, k));
      r < Pow2(n) && WordBits(r, n) == WordBits(w, n)[..n - k] + Zeros(k)
  {
    var mask := Shl(WORD - 1, k);
    OnesShifted(k);
    Pow2Of64();
    AndFits(w, mask, n);
    AndBits(w, mask, n);
    MaskBits(mask, k, n, 64);
  }
}
