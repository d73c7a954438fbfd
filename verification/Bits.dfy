/** Bytes as numbers below 256, the bitwise operators on them and their powers of two. */
module Bits {
  import opened Integers

  type Byte = n: nat | n < 256
  type Bytes = seq<Byte>

  function Or(a: nat, b: nat): nat
    decreases a + b
  {
    if a == 0 && b == 0 then 0
    else (if a % 2 == 1 || b % 2 == 1 then 1 else 0) + 2 * Or(a / 2, b / 2)
  }

  function And(a: nat, b: nat): nat
    decreases a + b
  {
    if a == 0 && b == 0 then 0
    else (if a % 2 == 1 && b % 2 == 1 then 1 else 0) + 2 * And(a / 2, b / 2)
  }

  function Xor(a: nat, b: nat): nat
    decreases a + b
  {
    if a == 0 && b == 0 then 0
    else (if a % 2 != b % 2 then 1 else 0) + 2 * Xor(a / 2, b / 2)
  }

  /** The k-th binary digit. */
  function Bit(n: nat, k: nat): (b: nat)
    ensures b < 2
    decreases k
  {
    if k == 0 then n % 2 else Bit(n / 2, k - 1)
  }

  /** The operators work digit by digit. */
  lemma {:induction false} BitByBit(a: nat, b: nat, k: nat)
    ensures Bit(And(a, b), k) == 1 <==> Bit(a, k) == 1 && Bit(b, k) == 1
    ensures Bit(Or(a, b), k) == 1 <==> Bit(a, k) == 1 || Bit(b, k) == 1
    ensures Bit(Xor(a, b), k) == 1 <==> Bit(a, k) != Bit(b, k)
    decreases k
  {
    HalvesAndParities(a, b);
    hide And, Or, Xor;
    if k > 0 {
      BitByBit(a / 2, b / 2, k - 1);
    }
  }

  lemma HalvesAndParities(a: nat, b: nat)
    ensures And(a, b) % 2 == 1 <==> a % 2 == 1 && b % 2 == 1
    ensures Or(a, b) % 2 == 1 <==> a % 2 == 1 || b % 2 == 1
    ensures Xor(a, b) % 2 == 1 <==> a % 2 != b % 2
    ensures And(a, b) / 2 == And(a / 2, b / 2) && Or(a, b) / 2 == Or(a / 2, b / 2) && Xor(a, b) / 2 == Xor(a / 2, b / 2)
  {
    LowDigit(And(a / 2, b / 2));
    LowDigit(Or(a / 2, b / 2));
    LowDigit(Xor(a / 2, b / 2));
    NothingOnNothing();
  }

  lemma LowDigit(half: nat)
    ensures (1 + 2 * half) / 2 == half && (1 + 2 * half) % 2 == 1
    ensures (0 + 2 * half) / 2 == half && (0 + 2 * half) % 2 == 0
  {}

  lemma NothingOnNothing()
    ensures And(0, 0) == Or(0, 0) == Xor(0, 0) == 0
  {}

  lemma {:induction false} XorTwice(a: nat, b: nat)
    ensures Xor(Xor(a, b), b) == a
    decreases a + b
  {
    if a != 0 || b != 0 {
      XorTwice(a / 2, b / 2);
      var x := Xor(a, b);
      assert x / 2 == Xor(a / 2, b / 2);
      assert x % 2 == if a % 2 != b % 2 then 1 else 0;
    }
  }

  lemma {:induction false} XorBound(a: nat, b: nat, k: nat)
    requires a < Power2(k) && b < Power2(k)
    ensures Xor(a, b) < Power2(k)
    decreases k
  {
    if k > 0 {
      XorBound(a / 2, b / 2, k - 1);
    }
  }

  /** x ^ y on bytes. */
  function XorByte(a: Byte, b: Byte): Byte {
    assert Power2(8) == 256 by { Powers(); }
    XorBound(a, b, 8);
    Xor(a, b)
  }

  lemma Powers()
    ensures Power2(4) == 16 && Power2(7) == 128 && Power2(8) == 256
  {
    assert Power2(1) == 2 && Power2(2) == 4 && Power2(3) == 8 && Power2(4) == 16;
    assert Power2(5) == 32 && Power2(6) == 64;
  }

  lemma ModTwice(x: nat, p: nat)
    requires p > 0
    ensures x % (2 * p) == x % 2 + 2 * (x / 2 % p)
  {
    var q, r := x / 2 / p, x / 2 % p;
    assert x / 2 == q * p + r;
    var low := x % 2 + 2 * r;
    assert x == q * (2 * p) + low;
    assert 0 <= low < 2 * p;
    ModUnique(x, 2 * p, q, low);
  }

  lemma ModUnique(x: nat, m: nat, q: nat, r: nat)
    requires m > 0 && x == q * m + r && r < m
    ensures x % m == r
  {
    var q', r' := x / m, x % m;
    assert q' * m + r' == x;
    MultiplesApart(q, q', m, r, r');
  }

  lemma MultiplesApart(q: nat, q': nat, m: nat, r: nat, r': nat)
    requires q * m + r == q' * m + r' && r < m && r' < m
    ensures r == r'
  {
    if q < q' {
      assert q' * m == q * m + (q' - q) * m;
      AtLeastOnce(q' - q, m);
    } else if q' < q {
      assert q * m == q' * m + (q - q') * m;
      AtLeastOnce(q - q', m);
    }
  }

  lemma AtLeastOnce(d: nat, m: nat)
    requires d > 0
    ensures d * m >= m
  {}

  lemma {:induction false} AndNone(x: nat)
    ensures And(x, 0) == 0
  {
    if x > 0 {
      AndNone(x / 2);
    }
  }

  lemma AndOdd(x: nat, low: nat)
    ensures And(x, 2 * low + 1) == x % 2 + 2 * And(x / 2, low)
  {
    var mask := 2 * low + 1;
    assert mask / 2 == low && mask % 2 == 1;
  }

  /** A mask of k low ones keeps the remainder. */
  lemma {:induction false} AndLow(x: nat, k: nat)
    ensures And(x, Power2(k) - 1) == x % Power2(k)
    decreases k
  {
    hide And;
    if k == 0 {
      AndNone(x);
    } else {
      var p := Power2(k - 1);
      assert Power2(k) - 1 == 2 * (p - 1) + 1;
      AndLow(x / 2, k - 1);
      AndOdd(x, p - 1);
      ModTwice(x, p);
    }
  }

  /** Setting a bit above a number adds it; testing it finds it, and does not find it in a smaller number. */
  lemma {:induction false} HighBit(n: nat, k: nat)
    requires n < Power2(k)
    ensures Or(Power2(k), n) == Power2(k) + n
    ensures And(Power2(k) + n, Power2(k)) == Power2(k)
    ensures And(n, Power2(k)) == 0
  {
    if k > 0 {
      HighBit(n / 2, k - 1);
      var p := Power2(k - 1);
      assert Power2(k) / 2 == p && Power2(k) % 2 == 0;
      assert (Power2(k) + n) / 2 == p + n / 2 && (Power2(k) + n) % 2 == n % 2;
    }
  }
}
