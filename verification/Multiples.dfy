/** The arithmetic of whole multiples used by window accounting. */
module Multiples {

  lemma {:induction false} AtLeastOne(d: nat, m: nat)
    requires d >= 1
    ensures d * m >= m
  {
    assert d * m == (d - 1) * m + m;
  }

  lemma {:induction false} Monotone(p: nat, q: nat, m: nat)
    requires p <= q
    ensures p * m <= q * m
  {
    assert q * m == p * m + (q - p) * m;
  }

  lemma {:induction false} DivisionUnique(x: nat, q: nat, r: nat, m: nat)
    requires m > 0 && r < m && x == q * m + r
    ensures x / m == q && x % m == r
  {
    var p, t := x / m, x % m;
    assert x == p * m + t;
    if p > q {
      assert (p - q) * m == p * m - q * m;
      AtLeastOne(p - q, m);
    } else if p < q {
      assert (q - p) * m == q * m - p * m;
      AtLeastOne(q - p, m);
    }
  }

  lemma {:induction false} MultipleMod(q: nat, m: nat)
    requires m > 0
    ensures (q * m) % m == 0
  {
    DivisionUnique(q * m, q, 0, m);
  }

  lemma {:induction false} Quotient(a: nat, m: nat) returns (q: nat)
    requires m > 0 && a % m == 0
    ensures a == q * m
  {
    q := a / m;
  }

  lemma {:induction false} MultiplePlus(a: nat, b: nat, m: nat)
    requires m > 0 && a % m == 0 && b % m == 0
    ensures (a + b) % m == 0
  {
    var p := Quotient(a, m);
    var q := Quotient(b, m);
    assert a + b == (p + q) * m;
    MultipleMod(p + q, m);
  }

  /** A multiple of `m` below another multiple of `m` leaves room for anything under `m`. */
  lemma {:induction false} RoomForCarry(a: nat, c: nat, m: nat, r: nat)
    requires m > 0 && a % m == 0 && c % m == 0 && a < c && r < m
    ensures a + r < c
  {
    var p := Quotient(a, m);
    var q := Quotient(c, m);
    if p >= q {
      Monotone(q, p, m);
    } else {
      assert q * m == p * m + (q - p) * m;
      AtLeastOne(q - p, m);
    }
  }

  lemma {:induction false} MultipleTransitive(a: nat, b: nat, c: nat)
    requires a > 0 && b > 0 && b % a == 0 && c % b == 0
    ensures c % a == 0
  {
    var p := Quotient(b, a);
    var q := Quotient(c, b);
    assert c == (q * p) * a;
    MultipleMod(q * p, a);
  }
}
