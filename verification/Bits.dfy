/** Unsigned machine words as natural numbers, with the bitwise operators written
    out bit by bit. `Split` lemmas let a word be taken apart field by field, so that
    facts about masks hold for every width and not only for literal words. */
module Bits {

  function Bit(b: bool): nat { if b then 1 else 0 }

  function Pow2(k: nat): (p: nat)
    ensures p >= 1
  {
    if k == 0 then 1 else 2 * Pow2(k - 1)
  }

  /** Bitwise `a & b`. */
  function And(a: nat, b: nat): nat
  {
    if a == 0 || b == 0 then 0
    else 2 * And(a / 2, b / 2) + (if a % 2 == 1 && b % 2 == 1 then 1 else 0)
  }

  /** Bitwise `a | b`. */
  function Or(a: nat, b: nat): nat
    decreases a + b
  {
    if a == 0 && b == 0 then 0
    else 2 * Or(a / 2, b / 2) + (if a % 2 == 1 || b % 2 == 1 then 1 else 0)
  }

  /** Bitwise complement of a word that is `w` bits wide. */
  function Not(w: nat, a: nat): nat
    requires a < Pow2(w)
  {
    Pow2(w) - 1 - a
  }

  lemma AndStep(a: nat, b: nat)
    ensures And(a, b) == 2 * And(a / 2, b / 2) + (if a % 2 == 1 && b % 2 == 1 then 1 else 0)
  {}

  /** `h` shifted left by `k` places. */
  function Shl(h: nat, k: nat): nat {
    if k == 0 then h else 2 * Shl(h, k - 1)
  }

  lemma {:induction false} ShlIs(h: nat, k: nat)
    ensures Shl(h, k) == h * Pow2(k)
  {
    if k > 0 {
      ShlIs(h, k - 1);
      Double(h, Pow2(k - 1));
    }
  }

  lemma {:induction false} AndShl(k: nat, ah: nat, al: nat, bh: nat, bl: nat)
    requires al < Pow2(k) && bl < Pow2(k)
    ensures And(al, bl) < Pow2(k)
    ensures And(Shl(ah, k) + al, Shl(bh, k) + bl) == Shl(And(ah, bh), k) + And(al, bl)
  {
    if k > 0 {
      AndShl(k - 1, ah, al / 2, bh, bl / 2);
      var x, y := Shl(ah, k) + al, Shl(bh, k) + bl;
      assert x / 2 == Shl(ah, k - 1) + al / 2 && x % 2 == al % 2;
      assert y / 2 == Shl(bh, k - 1) + bl / 2 && y % 2 == bl % 2;
      hide And;
      AndStep(x, y);
      AndStep(al, bl);
    }
  }

  /** `And` works on the high and the low field of a word independently. */
  lemma AndSplit(k: nat, ah: nat, al: nat, bh: nat, bl: nat)
    requires al < Pow2(k) && bl < Pow2(k)
    ensures And(al, bl) < Pow2(k)
    ensures And(ah * Pow2(k) + al, bh * Pow2(k) + bl) == And(ah, bh) * Pow2(k) + And(al, bl)
  {
    hide And, Shl, Pow2;
    AndShl(k, ah, al, bh, bl);
    ShlIs(ah, k);
    ShlIs(bh, k);
    ShlIs(And(ah, bh), k);
  }

  /** Or and And share out the bits of a sum. */
  lemma {:induction false} OrPlusAnd(a: nat, b: nat)
    ensures Or(a, b) + And(a, b) == a + b
    decreases a + b
  {
    if a > 0 || b > 0 { OrPlusAnd(a / 2, b / 2); }
  }

  /** `Or` works on the high and the low field of a word independently. */
  lemma OrSplit(k: nat, ah: nat, al: nat, bh: nat, bl: nat)
    requires al < Pow2(k) && bl < Pow2(k)
    ensures Or(ah * Pow2(k) + al, bh * Pow2(k) + bl) == Or(ah, bh) * Pow2(k) + Or(al, bl)
  {
    hide And, Or, Pow2;
    var p := Pow2(k);
    AndSplit(k, ah, al, bh, bl);
    OrPlusAnd(ah * p + al, bh * p + bl);
    OrPlusAnd(ah, bh);
    OrPlusAnd(al, bl);
    Distribute(Or(ah, bh), And(ah, bh), ah, bh, p);
  }

  lemma Distribute(x: nat, y: nat, a: nat, b: nat, p: nat)
    requires x + y == a + b
    ensures x * p + y * p == a * p + b * p
  {
    assert (x + y) * p == (a + b) * p;
  }

  lemma AndZero(a: nat)
    ensures And(a, 0) == 0 && And(0, a) == 0
  {}

  lemma {:induction false} OrZero(a: nat)
    ensures Or(a, 0) == a && Or(0, a) == a
  {
    if a > 0 { OrZero(a / 2); }
  }

  lemma Double(x: nat, p: nat)
    ensures 2 * (x * p) == x * (2 * p)
  {}

  /** Masking a field with all ones keeps it. */
  lemma {:induction false} AndOnes(k: nat, a: nat)
    requires a < Pow2(k)
    ensures And(a, Pow2(k) - 1) == a && And(Pow2(k) - 1, a) == a
  {
    if k > 0 {
      AndOnes(k - 1, a / 2);
      assert (Pow2(k) - 1) / 2 == Pow2(k - 1) - 1;
    }
  }

  lemma {:induction false} Pow2Add(a: nat, b: nat)
    ensures Pow2(a + b) == Pow2(a) * Pow2(b)
  {
    if a > 0 {
      Pow2Add(a - 1, b);
      Double(Pow2(b), Pow2(a - 1));
    }
  }

  /** Clearing the lowest bit by masking with every other bit. */
  lemma AndAllButLowest(n: nat, h: nat, bit: nat)
    requires n > 0 && bit <= 1 && 2 * h + bit < Pow2(n)
    ensures And(2 * h + bit, Pow2(n) - 2) == 2 * h
  {
    AndOnes(n - 1, h);
    assert (2 * h + bit) / 2 == h && (Pow2(n) - 2) / 2 == Pow2(n - 1) - 1;
  }

  /** Testing bit `k`. */
  lemma TestBit(k: nat, h: nat, bit: nat, l: nat)
    requires bit <= 1 && l < Pow2(k)
    ensures And((2 * h + bit) * Pow2(k) + l, Pow2(k)) == bit * Pow2(k)
  {
    AndSplit(k, 2 * h + bit, l, 1, 0);
    assert (2 * h + bit) / 2 == h && (2 * h + bit) % 2 == bit;
    assert And(h, 0) == 0 && And(l, 0) == 0;
  }

  /** Setting bit `k` touches nothing but that bit. */
  lemma SetBit(k: nat, h: nat, bit: nat, l: nat)
    requires bit <= 1 && l < Pow2(k)
    ensures Or((2 * h + bit) * Pow2(k) + l, Pow2(k)) == (2 * h + 1) * Pow2(k) + l
  {
    hide Or, Pow2;
    SetLowest(h, bit);
    OrZero(l);
    OrSplit(k, 2 * h + bit, l, 1, 0);
  }

  lemma SetLowest(h: nat, bit: nat)
    requires bit <= 1
    ensures Or(2 * h + bit, 1) == 2 * h + 1
  {
    OrZero(h);
    assert (2 * h + bit) / 2 == h;
  }

  /** Clearing bit `k` of an `n`-bit word touches nothing but that bit. */
  lemma ClearBit(n: nat, k: nat, h: nat, bit: nat, l: nat)
    requires k < n && bit <= 1 && l < Pow2(k) && 2 * h + bit < Pow2(n - k)
    ensures Pow2(k) < Pow2(n)
    ensures And((2 * h + bit) * Pow2(k) + l, Not(n, Pow2(k))) == 2 * h * Pow2(k) + l
  {
    hide And, Pow2;
    NotBit(n, k);
    AndSplit(k, 2 * h + bit, l, Pow2(n - k) - 2, Pow2(k) - 1);
    AndAllButLowest(n - k, h, bit);
    AndOnes(k, l);
  }

  lemma NotBit(n: nat, k: nat)
    requires k < n
    ensures Pow2(n - k) >= 2 && Pow2(k) < Pow2(n)
    ensures Not(n, Pow2(k)) == (Pow2(n - k) - 2) * Pow2(k) + (Pow2(k) - 1)
  {
    var p, q := Pow2(k), Pow2(n - k);
    assert q == 2 * Pow2(n - k - 1);
    hide Pow2;
    Pow2Add(n - k, k);
    Distribute(q, 0, q - 2, 2, p);
  }
}
