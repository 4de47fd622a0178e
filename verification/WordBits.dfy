/** The bits of the word operations. */
module WordBits {
  import opened Words

  function Bit(x: nat, i: nat): bool {
    if i == 0 then x % 2 == 1 else Bit(x / 2, i - 1)
  }

  lemma {:induction false} ZeroBit(i: nat)
    ensures !Bit(0, i)
  {
    if i > 0 { ZeroBit(i - 1); }
  }

  lemma {:induction false} AndBit(x: nat, y: nat, i: nat)
    ensures Bit(BitAnd(x, y), i) <==> Bit(x, i) && Bit(y, i)
  {
    if x == 0 || y == 0 {
      ZeroBit(i);
    } else if i > 0 {
      AndBit(x / 2, y / 2, i - 1);
    }
  }

  lemma {:induction false} OrBit(x: nat, y: nat, i: nat)
    ensures Bit(BitOr(x, y), i) <==> Bit(x, i) || Bit(y, i)
  {
    if x == 0 && y == 0 {
      ZeroBit(i);
    } else if i > 0 {
      OrBit(x / 2, y / 2, i - 1);
    }
  }

  lemma {:induction false} XorBit(x: nat, y: nat, i: nat)
    ensures Bit(BitXor(x, y), i) <==> (Bit(x, i) != Bit(y, i))
  {
    if x == 0 && y == 0 {
      ZeroBit(i);
    } else if i > 0 {
      XorBit(x / 2, y / 2, i - 1);
    }
  }

  // ------------------------------------------------------------ powers of two

  lemma {:induction false} DoubleParts(p: nat, x: nat)
    requires p > 0
    ensures x * (2 * p) == 2 * (x * p)
    ensures x / (2 * p) == (x / 2) / p
    ensures x % (2 * p) == 2 * ((x / 2) % p) + x % 2
  {
    var q, r := (x / 2) / p, (x / 2) % p;
    assert x == 2 * (q * p + r) + x % 2;
    assert x == q * (2 * p) + (2 * r + x % 2);
    DivideUnique(x, 2 * p, q, 2 * r + x % 2);
  }

  lemma {:induction false} AtLeastOnce(c: nat, d: nat)
    requires c > 0
    ensures c * d >= d
  {
    assert c * d == (c - 1) * d + d;
  }

  lemma {:induction false} Separate(a: nat, q: nat, d: nat, b: nat, r: nat)
    requires a * d + b == q * d + r && b < d && r < d
    ensures a <= q
  {
    if a > q {
      AtLeastOnce(a - q, d);
    }
  }

  lemma {:induction false} DivideUnique(x: nat, d: nat, q: nat, r: nat)
    requires d > 0 && r < d && x == q * d + r
    ensures x / d == q && x % d == r
  {
    var a, b := x / d, x % d;
    Separate(a, q, d, b, r);
    Separate(q, a, d, r, b);
  }

  lemma {:induction false} UpBit(x: nat, k: nat, i: nat)
    ensures Bit(x * Pow2(k), i) <==> i >= k && Bit(x, i - k)
  {
    if k > 0 {
      var y := x * Pow2(k - 1);
      DoubleParts(Pow2(k - 1), x);
      assert x * Pow2(k) == 2 * y;
      if i > 0 { UpBit(x, k - 1, i - 1); }
    }
  }

  /** Halving `k` times. */
  function Down(x: nat, k: nat): nat { if k == 0 then x else Down(x / 2, k - 1) }

  /** The lowest `n` bits. */
  function Low(x: nat, n: nat): nat { if n == 0 then 0 else 2 * Low(x / 2, n - 1) + x % 2 }

  lemma {:induction false} DownAndLow(x: nat, k: nat)
    ensures Down(x, k) == x / Pow2(k) && Low(x, k) == x % Pow2(k) && Low(x, k) < Pow2(k)
    ensures x == Down(x, k) * Pow2(k) + Low(x, k)
  {
    if k > 0 {
      DownAndLow(x / 2, k - 1);
      DoubleParts(Pow2(k - 1), x);
      DoubleParts(Pow2(k - 1), Down(x, k));
    }
  }

  lemma {:induction false} DownBit(x: nat, k: nat, i: nat)
    ensures Bit(Down(x, k), i) <==> Bit(x, i + k)
  {
    if k > 0 { DownBit(x / 2, k - 1, i); }
  }

  lemma {:induction false} LowBit(x: nat, n: nat, i: nat)
    requires i < n
    ensures Bit(Low(x, n), i) <==> Bit(x, i)
  {
    if i > 0 { LowBit(x / 2, n - 1, i - 1); }
  }

  lemma {:induction false} HighBit(x: nat, n: nat, i: nat)
    requires x < Pow2(n) && i >= n
    ensures !Bit(x, i)
  {
    if n == 0 {
      ZeroBit(i);
    } else {
      HighBit(x / 2, n - 1, i - 1);
    }
  }

  /** Two numbers side by side. */
  lemma {:induction false} JoinedBit(y: nat, z: nat, n: nat, i: nat)
    requires y < Pow2(n)
    ensures Bit(y + z * Pow2(n), i) <==> if i < n then Bit(y, i) else Bit(z, i - n)
  {
    if n > 0 {
      var w := z * Pow2(n - 1);
      DoubleParts(Pow2(n - 1), z);
      assert y + z * Pow2(n) == 2 * (y / 2 + w) + y % 2;
      if i > 0 { JoinedBit(y / 2, z, n - 1, i - 1); }
    }
  }

  lemma {:induction false} FlippedBit(x: nat, n: nat, i: nat)
    requires x < Pow2(n) && i < n
    ensures Pow2(n) - 1 - x >= 0 && (Bit(Pow2(n) - 1 - x, i) <==> !Bit(x, i))
  {
    var p := Pow2(n - 1);
    assert 2 * p - 1 - x == 2 * (p - 1 - x / 2) + (1 - x % 2);
    if i > 0 { FlippedBit(x / 2, n - 1, i - 1); }
  }

  lemma {:induction false} Pow64()
    ensures Pow2(64) == MODULUS
  {
    hide Pow2;
    Pow63();
    Pow2Add(1, 63);
    Pow2Base();
  }

  lemma {:induction false} SignBitIs(x: Word)
    ensures Negative(x) <==> Bit(x, 63)
  {
    hide Pow2, Bit;
    Pow63();
    DownBit(x, 63, 0);
    DownAndLow(x, 63);
    TopHalf(x);
    LowestBit(x / SIGN_BIT);
  }

  lemma {:induction false} LowestBit(x: nat)
    ensures Bit(x, 0) <==> x % 2 == 1
  {
  }

  lemma {:induction false} TopHalf(x: Word)
    ensures x / SIGN_BIT == if Negative(x) then 1 else 0
  {
  }
}
