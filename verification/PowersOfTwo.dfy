/** Powers of two, natural alignment and exclusive-or on frame numbers.

    Alignment and exclusive-or are defined bit by bit, so that every proof about
    them is an induction over bits that stays in linear arithmetic. */
module PowersOfTwo {

  function Pow2(n: nat): (r: nat)
    ensures r >= 1
  {
    if n == 0 then 1 else 2 * Pow2(n - 1)
  }

  /** The low `o` bits of `p` are zero. */
  predicate Aligned(p: nat, o: nat) {
    o == 0 || (p % 2 == 0 && Aligned(p / 2, o - 1))
  }

  /** Bitwise exclusive-or. */
  function Xor(a: nat, b: nat): (r: nat) {
    if a == 0 && b == 0 then 0
    else 2 * Xor(a / 2, b / 2) + (a + b) % 2
  }

  /** `Aligned` is divisibility by the power of two. */
  lemma {:induction false} AlignedIsDivisible(p: nat, o: nat)
    ensures Aligned(p, o) <==> p % Pow2(o) == 0
  {
    if o != 0 {
      AlignedIsDivisible(p / 2, o - 1);
      HalveMod(p, Pow2(o - 1));
    }
  }

  lemma HalveMod(p: nat, m: nat)
    requires m > 0
    ensures p % (2 * m) == 2 * (p / 2 % m) + p % 2
  {
    DoubleQuotient(p, m, p / 2 / m, p / 2 % m, p % 2);
  }

  lemma DoubleQuotient(p: nat, m: nat, h: nat, r: nat, q: nat)
    requires r < m && q < 2 && p == 2 * (h * m + r) + q
    ensures p % (2 * m) == 2 * r + q
  {
    assert h * (2 * m) == 2 * (h * m);
    ModUnique(p, 2 * m, h, 2 * r + q);
  }

  lemma ModUnique(p: nat, m: nat, h: nat, r: nat)
    requires m > 0 && p == h * m + r && r < m
    ensures p % m == r && p / m == h
  {
    QuotientUnique(m, h, r, p / m, p % m);
  }

  lemma QuotientUnique(m: nat, h: nat, r: nat, h': nat, r': nat)
    requires r < m && r' < m && h * m + r == h' * m + r'
    ensures h == h' && r == r'
  {
    if h < h' { MulApart(m, h, h'); }
    if h' < h { MulApart(m, h', h); }
  }

  lemma {:induction false} MulApart(m: nat, a: nat, b: nat)
    requires a < b
    ensures a * m + m <= b * m
  {
    assert b * m == (b - 1) * m + m;
    if a + 1 < b { MulApart(m, a, b - 1); }
  }

  lemma {:induction false} Pow2Monotone(a: nat, b: nat)
    requires a <= b
    ensures Pow2(a) <= Pow2(b)
  {
    if a < b { Pow2Monotone(a, b - 1); }
  }

  lemma {:induction false} AlignedWeaken(p: nat, o: nat, r: nat)
    requires r <= o && Aligned(p, o)
    ensures Aligned(p, r)
  {
    if r != 0 { AlignedWeaken(p / 2, o - 1, r - 1); }
  }

  /** Two distinct multiples of 2^o are at least 2^o apart. */
  lemma {:induction false} AlignedApart(p: nat, q: nat, o: nat)
    requires Aligned(p, o) && Aligned(q, o) && p < q
    ensures p + Pow2(o) <= q
  {
    if o != 0 { AlignedApart(p / 2, q / 2, o - 1); }
  }

  lemma {:induction false} AlignedShift(p: nat, o: nat)
    requires Aligned(p, o)
    ensures Aligned(p + Pow2(o), o)
    ensures p >= Pow2(o) ==> Aligned(p - Pow2(o), o)
  {
    if o != 0 {
      AlignedShift(p / 2, o - 1);
      assert (p + Pow2(o)) / 2 == p / 2 + Pow2(o - 1);
    }
  }

  /** Naturally aligned blocks are nested or disjoint. */
  lemma Laminar(p: nat, o: nat, q: nat, r: nat)
    requires o <= r && Aligned(p, o) && Aligned(q, r)
    ensures p + Pow2(o) <= q || q + Pow2(r) <= p || (q <= p && p + Pow2(o) <= q + Pow2(r))
  {
    AlignedWeaken(q, r, o);
    if p < q {
      AlignedApart(p, q, o);
    } else if p < q + Pow2(r) {
      AlignedShift(q, r);
      AlignedWeaken(q + Pow2(r), r, o);
      AlignedApart(p, q + Pow2(r), o);
    }
  }

  /** Of two neighbouring multiples of 2^o, exactly one is a multiple of 2^(o+1). */
  lemma {:induction false} AlignedFlip(p: nat, o: nat)
    requires Aligned(p, o)
    ensures !Aligned(p, o + 1) ==> p >= Pow2(o) && Aligned(p - Pow2(o), o + 1)
    ensures Aligned(p, o + 1) ==> !Aligned(p + Pow2(o), o + 1)
  {
    if o == 0 {
      assert forall q: nat :: Aligned(q, 1) <==> q % 2 == 0;
    } else {
      var h, m := p / 2, Pow2(o - 1);
      AlignedFlip(h, o - 1);
      AlignedDouble(h, o);
      AlignedDouble(h + m, o);
      if h >= m { AlignedDouble(h - m, o); }
      assert p == 2 * h && Pow2(o) == 2 * m;
    }
  }

  lemma {:induction false} XorPow2(p: nat, o: nat)
    requires Aligned(p, o)
    ensures Xor(p, Pow2(o)) == if Aligned(p, o + 1) then p + Pow2(o) else p - Pow2(o)
  {
    AlignedFlip(p, o);
    if o == 0 {
      XorZero(p / 2);
      assert Aligned(p, 1) <==> p % 2 == 0;
    } else {
      var h, m := p / 2, Pow2(o - 1);
      XorPow2(h, o - 1);
      XorDouble(h, m);
      AlignedDouble(h, o);
      assert p == 2 * h && Pow2(o) == 2 * m;
    }
  }

  /** Flipping bit `o` of a multiple of 2^o moves it by 2^o, and the lower of the
      two is a multiple of 2^(o+1). */
  lemma XorBit(p: nat, o: nat)
    requires Aligned(p, o)
    ensures Xor(p, Pow2(o)) == if Aligned(p, o + 1) then p + Pow2(o) else p - Pow2(o)
    ensures Aligned(Xor(p, Pow2(o)), o)
    ensures !Aligned(p, o + 1) ==> p >= Pow2(o) && Aligned(p - Pow2(o), o + 1)
    ensures Aligned(p, o + 1) ==> !Aligned(p + Pow2(o), o + 1)
  {
    AlignedFlip(p, o);
    XorPow2(p, o);
    AlignedShift(p, o);
  }

  lemma XorDouble(a: nat, b: nat)
    ensures Xor(2 * a, 2 * b) == 2 * Xor(a, b)
  {
    assert 2 * a / 2 == a && 2 * b / 2 == b;
  }

  lemma AlignedDouble(p: nat, o: nat)
    ensures Aligned(2 * p, o + 1) == Aligned(p, o)
  {
    assert 2 * p / 2 == p;
  }

  lemma {:induction false} XorZero(p: nat)
    ensures Xor(p, 0) == p
  {
    if p != 0 { XorZero(p / 2); }
  }

  /** `x` with its low `k` bits cleared, as masking with the complement of 2^k - 1 does. */
  function ClearLow(x: nat, k: nat): (r: nat) {
    if k == 0 then x else 2 * ClearLow(x / 2, k - 1)
  }

  /** Clearing the low bits rounds down to a multiple of 2^k. */
  lemma {:induction false} ClearLowRoundsDown(x: nat, k: nat)
    ensures ClearLow(x, k) == x - x % Pow2(k)
  {
    if k != 0 {
      ClearLowRoundsDown(x / 2, k - 1);
      HalveMod(x, Pow2(k - 1));
    }
  }
}
