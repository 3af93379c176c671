/**
  The size arithmetic of pkg/hashmap (util.go): `roundUpPower2` and `log2` on 64-bit
  words, and the slot computation `hash >> keyShifts` of store.go.
*/
module PowerOfTwo {

  const WORD: nat := 64

  function Pow2(n: nat): (p: nat)
    ensures p >= 1
  {
    if n == 0 then 1 else 2 * Pow2(n - 1)
  }

  lemma Regroup(x: nat, y: nat)
    ensures (2 * x) * y == 2 * (x * y)
  {
  }

  lemma {:induction false} Pow2Add(a: nat, b: nat)
    ensures Pow2(a + b) == Pow2(a) * Pow2(b)
    decreases a
  {
    if a == 0 {
    } else {
      Pow2Add(a - 1, b);
      Regroup(Pow2(a - 1), Pow2(b));
    }
  }

  lemma {:induction false} Pow2Grows(a: nat, b: nat)
    requires a < b
    ensures Pow2(a) < Pow2(b)
    decreases b
  {
    if a < b - 1 {
      Pow2Grows(a, b - 1);
    }
  }

  lemma Pow2Reflects(a: nat, b: nat)
    requires Pow2(a) < Pow2(b)
    ensures a < b
  {
    if b < a { Pow2Grows(b, a); }
  }

  ghost predicate IsPow2(x: nat) {
    exists k: nat :: x == Pow2(k)
  }

  // ---------- shifts and or, on words as naturals ----------

  function Quotient(x: nat, d: nat): nat
    requires d > 0
  {
    x / d
  }

  function Shr(x: nat, n: nat): nat {
    Quotient(x, Pow2(n))
  }

  /** Bitwise or. */
  function Or(a: nat, b: nat): nat
    decreases a
  {
    if a == 0 then b
    else (if a % 2 == 1 || b % 2 == 1 then 1 else 0) + 2 * Or(a / 2, b / 2)
  }

  lemma {:induction false} OrBounds(a: nat, b: nat, m: nat)
    requires a < Pow2(m) && b < Pow2(m)
    ensures a <= Or(a, b) && b <= Or(a, b) < Pow2(m)
    decreases a
  {
    if a != 0 {
      OrBounds(a / 2, b / 2, m - 1);
    }
  }

  /** Or only touches the low m bits when the second word has no others. */
  lemma {:induction false} OrLow(h: nat, l: nat, b: nat, m: nat)
    requires l < Pow2(m) && b < Pow2(m)
    ensures Or(h * Pow2(m) + l, b) == h * Pow2(m) + Or(l, b)
    decreases m
  {
    if m == 0 {
      OrZero(h);
    } else {
      var p := Pow2(m - 1);
      var a := h * Pow2(m) + l;
      assert h * Pow2(m) == 2 * (h * p);
      assert a / 2 == h * p + l / 2 && a % 2 == l % 2;
      OrLow(h, l / 2, b / 2, m - 1);
      OrStep(a, b);
      OrStep(l, b);
    }
  }

  lemma {:induction false} OrZero(a: nat)
    ensures Or(a, 0) == a
  {
    if a != 0 { OrZero(a / 2); }
  }

  lemma OrStep(a: nat, b: nat)
    ensures Or(a, b) == (if a % 2 == 1 || b % 2 == 1 then 1 else 0) + 2 * Or(a / 2, b / 2)
  {
  }

  /** The top t of the k bits of x are ones. */
  ghost predicate TopOnes(x: nat, k: nat, t: nat) {
    t <= k && Pow2(k) - Pow2(k - t) <= x < Pow2(k)
  }

  lemma DivBelow(x: nat, d: nat, q: nat)
    requires d > 0 && x < d * q
    ensures x / d < q
  {
    assert x == d * (x / d) + x % d;
  }

  lemma CancelFactor(d: nat, a: int, b: int)
    requires d * a < d * b
    ensures a < b
  {
    assert d * (b - a) > 0;
  }

  lemma DivAtLeast(x: nat, d: nat, q: nat)
    requires d > 0 && d * q <= x
    ensures q <= x / d
  {
    var r := x / d;
    assert x == d * r + x % d;
    assert d * (r + 1) == d * r + d;
    CancelFactor(d, q, r + 1);
  }

  /** The shifted word is below the run of ones and starts with ones itself. */
  lemma ShiftedRun(x: nat, k: nat, t: nat)
    requires TopOnes(x, k, t)
    ensures Shr(x, t) < Pow2(k - t)
    ensures 2 * t <= k ==> Pow2(k - t) - Pow2(k - 2 * t) <= Shr(x, t)
    ensures 2 * t > k ==> Pow2(k - t) - 1 <= Shr(x, t)
  {
    var m := k - t;
    Pow2Add(t, m);
    DivBelow(x, Pow2(t), Pow2(m));
    if 2 * t <= k {
      Pow2Add(t, m - t);
      var q := Pow2(m) - Pow2(m - t);
      assert Pow2(m) >= Pow2(m - t) by { if t > 0 { Pow2Grows(m - t, m); } }
      Distribute(Pow2(t), Pow2(m), Pow2(m - t));
      DivAtLeast(x, Pow2(t), q);
    } else {
      Pow2Grows(m, t);
      Distribute(Pow2(t), Pow2(m), 1);
      DivAtLeast(x, Pow2(t), Pow2(m) - 1);
    }
  }

  lemma Distribute(a: int, b: int, c: int)
    ensures a * (b - c) == a * b - a * c
  {
  }

  lemma TopBlock(t: nat, m: nat)
    ensures (Pow2(t) - 1) * Pow2(m) == Pow2(t + m) - Pow2(m)
  {
    Pow2Add(t, m);
  }

  /** One smearing step doubles the run of ones at the top. */
  lemma SmearDoubles(x: nat, k: nat, t: nat)
    requires TopOnes(x, k, t)
    ensures TopOnes(Or(x, Shr(x, t)), k, if 2 * t <= k then 2 * t else k)
  {
    hide Or, Shr, Pow2;
    var h, m, y := Pow2(t) - 1, k - t, Shr(x, t);
    TopBlock(t, m);
    var l := x - h * Pow2(m);
    ShiftedRun(x, k, t);
    OrLow(h, l, y, m);
    OrBounds(l, y, m);
    assert Pow2(0) == 1 by { PowZero(); }
  }

  lemma PowZero()
    ensures Pow2(0) == 1
  {
  }

  function Min(a: nat, b: nat): nat {
    if a <= b then a else b
  }

  /** The same for a shift that may already exceed the run. */
  lemma SmearStep(x: nat, k: nat, t: nat)
    requires TopOnes(x, k, Min(t, k))
    ensures TopOnes(Or(x, Shr(x, t)), k, Min(2 * t, k))
  {
    hide Or, Shr, Pow2;
    if t <= k {
      SmearDoubles(x, k, t);
    } else {
      PowZero();
      ShrShrinks(x, t);
      OrBounds(x, Shr(x, t), k);
    }
  }

  lemma ShrShrinks(x: nat, t: nat)
    ensures Shr(x, t) <= x
  {
    assert Pow2(t) * x >= x;
    DivBelow(x, Pow2(t), x + 1);
  }

  /** The body of roundUpPower2 between its decrement and its increment. */
  function Smear(x: nat): nat {
    var a := Or(x, Shr(x, 1));
    var b := Or(a, Shr(a, 2));
    var c := Or(b, Shr(b, 4));
    var d := Or(c, Shr(c, 8));
    var e := Or(d, Shr(d, 16));
    Or(e, Shr(e, 32))
  }

  /** Six steps turn a word of k bits into k ones. */
  lemma SmearFills(x: nat, k: nat)
    requires 1 <= k <= WORD && TopOnes(x, k, 1)
    ensures Smear(x) + 1 == Pow2(k)
  {
    hide Or, Shr, Pow2;
    PowZero();
    var a := Or(x, Shr(x, 1));
    var b := Or(a, Shr(a, 2));
    var c := Or(b, Shr(b, 4));
    var d := Or(c, Shr(c, 8));
    var e := Or(d, Shr(d, 16));
    SmearStep(x, k, 1);
    SmearStep(a, k, 2);
    SmearStep(b, k, 4);
    SmearStep(c, k, 8);
    SmearStep(d, k, 16);
    SmearStep(e, k, 32);
  }

  /** The number of bits of a positive x. */
  lemma {:induction false} BitLength(x: nat) returns (k: nat)
    requires x > 0
    ensures k >= 1 && TopOnes(x, k, 1)
    ensures forall n: nat :: x < Pow2(n) ==> k <= n
  {
    if x == 1 {
      k := 1;
    } else {
      k := BitLength(x / 2);
      k := k + 1;
    }
    forall n: nat | x < Pow2(n) ensures k <= n {
      Pow2Reflects(k - 1, n);
    }
  }

  // ---------- roundUpPower2 and log2 ----------

  /**
    `roundUpPower2` on a word: the least power of two not below i, and zero where there is none in a word or where the
    decrement wraps around.
  */
  method RoundUpPower2(i: nat) returns (r: nat)
    requires i < Pow2(WORD)
    ensures 1 <= i <= Pow2(WORD - 1) ==> IsPow2(r) && i <= r <= Pow2(WORD - 1) && r < 2 * i && LeastAbove(i, r)
    ensures i == 0 || i > Pow2(WORD - 1) ==> r == 0
  {
    hide Pow2, Or, Shr, IsPow2;
    var x := if i == 0 then Pow2(WORD) - 1 else i - 1;
    ghost var start := x;
    x := Or(x, Shr(x, 1));
    x := Or(x, Shr(x, 2));
    x := Or(x, Shr(x, 4));
    x := Or(x, Shr(x, 8));
    x := Or(x, Shr(x, 16));
    x := Or(x, Shr(x, 32));
    assert x == Smear(start);
    Halves();
    if 1 <= i <= Pow2(WORD - 1) {
      RoundUpIsLeast(i);
      BelowTwice(i, x + 1);
    } else {
      SmearFills(start, WORD);
    }
    r := if x + 1 == Pow2(WORD) then 0 else x + 1;
  }

  /** No power of two from i on is smaller than r. */
  ghost predicate LeastAbove(i: nat, r: nat) {
    forall p: nat :: IsPow2(p) && i <= p ==> r <= p
  }

  lemma Halves()
    ensures Pow2(WORD) == 2 * Pow2(WORD - 1) && Pow2(WORD - 1) >= 1
  {
  }

  /** The least power of two not below i is less than twice i, for half of it is below i. */
  lemma BelowTwice(i: nat, r: nat)
    requires 1 <= i && IsPow2(r) && LeastAbove(i, r)
    ensures r < 2 * i
  {
    var k: nat :| r == Pow2(k);
    if k > 0 { assert IsPow2(Pow2(k - 1)); }
  }

  lemma RoundUpIsLeast(i: nat)
    requires 1 <= i <= Pow2(WORD - 1)
    ensures var r := Smear(i - 1) + 1; IsPow2(r) && i <= r <= Pow2(WORD - 1) && LeastAbove(i, r)
  {
    hide Smear, Pow2;
    PowZero();
    var r := Smear(i - 1) + 1;
    if i == 1 {
      SmearZero();
    } else {
      var k := BitLength(i - 1);
      SmearFills(i - 1, k);
      if k < WORD - 1 { Pow2Grows(k, WORD - 1); }
      forall p: nat | IsPow2(p) && i <= p ensures r <= p {
        var n: nat :| p == Pow2(n);
        if k < n { Pow2Grows(k, n); }
      }
    }
  }

  lemma SmearZero()
    ensures Smear(0) == 0
  {
    hide Pow2, Or, Shr;
    forall n: nat ensures Or(0, Shr(0, n)) == 0 {
      ShrShrinks(0, n);
      OrZero(0);
    }
  }

  /** `log2`: the exponent, rounded up; exact for a power of two. The doubling never overflows a word. */
  method Log2(i: nat) returns (n: nat)
    requires i <= Pow2(WORD - 1)
    ensures n < WORD && i <= Pow2(n) && (n > 0 ==> Pow2(n - 1) < i)
    ensures (forall k: nat :: i == Pow2(k) ==> n == k) && (IsPow2(i) ==> i == Pow2(n))
  {
    hide Pow2;
    var p := 1;
    n := 0;
    PowZero();
    while p < i
      invariant p == Pow2(n) && n < WORD && (n > 0 ==> Pow2(n - 1) < i)
      decreases WORD - n
    {
      PowSucc(n);
      n, p := n + 1, p + p;
      assert p < Pow2(WORD) by { if n < WORD { Pow2Grows(n, WORD); } }
    }
    forall k: nat | i == Pow2(k) ensures n == k {
      if k < n { if k < n - 1 { Pow2Grows(k, n - 1); } }
      if n < k { Pow2Grows(n, k); }
    }
  }

  lemma PowSucc(n: nat)
    ensures Pow2(n + 1) == 2 * Pow2(n)
  {
  }

  // ---------- slots ----------

  /** The slot of a hash in an index of 2^(64 - shift) slots. */
  function SlotOf(hash: nat, shift: nat): nat {
    Shr(hash, shift)
  }

  lemma SlotInRange(hash: nat, shift: nat)
    requires hash < Pow2(WORD) && shift <= WORD
    ensures SlotOf(hash, shift) < Pow2(WORD - shift)
  {
    Pow2Add(shift, WORD - shift);
    DivBelow(hash, Pow2(shift), Pow2(WORD - shift));
  }

  lemma SlotMonotone(a: nat, b: nat, shift: nat)
    requires a <= b
    ensures SlotOf(a, shift) <= SlotOf(b, shift)
  {
    hide Pow2;
    var d := Pow2(shift);
    assert a == d * (a / d) + a % d;
    DivAtLeast(b, d, a / d);
  }
}
