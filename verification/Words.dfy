/** 64-bit machine words as numbers, with wrap-around and bit operations written out. */
module Words {

  const SIGN_BIT: int := 0x8000_0000_0000_0000
  const MODULUS: int := 0x1_0000_0000_0000_0000

  type Word = x: int | 0 <= x < MODULUS

  function Pow2(n: nat): (r: nat)
    ensures r > 0
  {
    if n == 0 then 1 else 2 * Pow2(n - 1)
  }

  predicate Negative(x: Word) { x >= SIGN_BIT }

  /** The value of a word read as a two's-complement integer. */
  function Signed(x: Word): int { if Negative(x) then x - MODULUS else x }

  function WrapAdd(a: Word, b: Word): Word { if a + b < MODULUS then a + b else a + b - MODULUS }

  function WrapSub(a: Word, b: Word): Word { if a >= b then a - b else a - b + MODULUS }

  function BitAnd(x: nat, y: nat): (r: nat)
    ensures r <= x
  {
    if x == 0 || y == 0 then 0
    else (if x % 2 == 1 && y % 2 == 1 then 1 else 0) + 2 * BitAnd(x / 2, y / 2)
  }

  function BitXor(x: nat, y: nat): nat {
    if x == 0 && y == 0 then 0
    else (if x % 2 != y % 2 then 1 else 0) + 2 * BitXor(x / 2, y / 2)
  }

  function BitOr(x: nat, y: nat): nat {
    if x == 0 && y == 0 then 0
    else (if x % 2 == 1 || y % 2 == 1 then 1 else 0) + 2 * BitOr(x / 2, y / 2)
  }

  lemma {:induction false} AndSelf(x: nat)
    ensures BitAnd(x, x) == x
  {
    if x > 0 { AndSelf(x / 2); }
  }

  /** The top bit of a conjunction, and that a conjunction does not leave the width. */
  lemma {:induction false} AndTop(n: nat, x: nat, y: nat)
    requires x < 2 * Pow2(n) && y < 2 * Pow2(n)
    ensures BitAnd(x, y) < 2 * Pow2(n)
    ensures BitAnd(x, y) >= Pow2(n) <==> x >= Pow2(n) && y >= Pow2(n)
  {
    if x != 0 && y != 0 && n > 0 { AndTop(n - 1, x / 2, y / 2); }
  }

  lemma {:induction false} XorTop(n: nat, x: nat, y: nat)
    requires x < 2 * Pow2(n) && y < 2 * Pow2(n)
    ensures BitXor(x, y) < 2 * Pow2(n)
    ensures BitXor(x, y) >= Pow2(n) <==> (x >= Pow2(n)) != (y >= Pow2(n))
  {
    if (x != 0 || y != 0) && n > 0 { XorTop(n - 1, x / 2, y / 2); }
  }

  lemma {:induction false} OrTop(n: nat, x: nat, y: nat)
    requires x < 2 * Pow2(n) && y < 2 * Pow2(n)
    ensures BitOr(x, y) < 2 * Pow2(n)
  {
    if (x != 0 || y != 0) && n > 0 { OrTop(n - 1, x / 2, y / 2); }
  }

  lemma {:induction false} Pow2Add(m: nat, n: nat)
    ensures Pow2(m + n) == Pow2(m) * Pow2(n)
  {
    if m > 0 { Pow2Add(m - 1, n); }
  }

  lemma {:induction false} Pow2Base()
    ensures Pow2(1) == 2
  {
  }

  lemma {:induction false} Pow63()
    ensures Pow2(63) == SIGN_BIT && 2 * Pow2(63) == MODULUS
  {
    hide Pow2;
    Pow2Base();
    Pow2Add(1, 1);
    Pow2Add(2, 2);
    Pow2Add(4, 4);
    Pow2Add(8, 8);
    Pow2Add(16, 16);
    Pow2Add(32, 32);
    Pow2Add(1, 63);
  }

  function And(a: Word, b: Word): (r: Word)
    ensures Negative(r) <==> Negative(a) && Negative(b)
  {
    Pow63();
    AndTop(63, a, b);
    BitAnd(a, b)
  }

  function Xor(a: Word, b: Word): (r: Word)
    ensures Negative(r) <==> (Negative(a) != Negative(b))
  {
    Pow63();
    XorTop(63, a, b);
    BitXor(a, b)
  }

  function Or(a: Word, b: Word): Word {
    Pow63();
    OrTop(63, a, b);
    BitOr(a, b)
  }
}
