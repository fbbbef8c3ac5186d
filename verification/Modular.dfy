/** Unsigned 32-bit indices, and ring slots counted from them. */
module Modular {
  type U32 = x: int | 0 <= x < 0x1_0000_0000

  function Add(a: U32, k: int): U32 { (a + k) % 0x1_0000_0000 }

  function Sub(a: U32, b: U32): U32 { (a - b) % 0x1_0000_0000 }

  /** A ring's slot count: a power of two of at most 32, so it divides 2^32. */
  predicate Slots(n: nat) { n == 1 || n == 2 || n == 4 || n == 8 || n == 16 || n == 32 }

  /** The slot index `x` falls in. */
  function Mask(n: nat, x: int): (i: nat)
    requires Slots(n)
    ensures i < n
  {
    x % n
  }

  /** The distance of masked slot `i` past index `tail`. */
  function Off(n: nat, i: int, tail: U32): (r: nat)
    requires Slots(n)
    ensures r < n
  {
    (i - tail) % n
  }

  lemma SubAdd(a: U32, k: nat)
    requires k < 0x1_0000_0000
    ensures Sub(Add(a, k), a) == k
  {
  }

  lemma AddSub(a: U32, b: U32)
    ensures Add(a, Sub(b, a)) == b
  {
  }

  lemma AddAdd(a: U32, j: int, k: int)
    ensures Add(Add(a, j), k) == Add(a, j + k)
  {
  }

  /** Two distances that each fit a ring add up. */
  lemma SubSum(a: U32, b: U32, c: U32)
    requires Sub(a, b) <= 32 && Sub(b, c) <= 32
    ensures Sub(a, c) == Sub(a, b) + Sub(b, c)
  {
  }

  lemma MulAtLeast(n: int, a: int)
    requires n > 0 && a >= 1
    ensures n * a >= n
  {
  }

  lemma DivModUnique(n: int, x: int, d: int, r: int)
    requires n > 0 && x == n * d + r && 0 <= r < n
    ensures x % n == r && x / n == d
  {
    var e, t := x / n, x % n;
    assert x == n * e + t;
    assert n * (d - e) == t - r by { assert n * (d - e) == n * d - n * e; }
    if d > e {
      MulAtLeast(n, d - e);
      assert false;
    }
    if d < e {
      assert n * (e - d) == r - t by { assert n * (e - d) == n * e - n * d; }
      MulAtLeast(n, e - d);
      assert false;
    }
  }

  /** Whole turns do not move a slot. */
  lemma WholeTurns(n: int, x: int, q: int)
    requires n > 0
    ensures (x + n * q) % n == x % n
  {
    assert x == n * (x / n) + x % n;
    assert x + n * q == n * (x / n + q) + x % n;
    DivModUnique(n, x + n * q, x / n + q, x % n);
  }

  /** The turns of a ring of `n` slots that make up 2^32. */
  function Turns(n: nat): (q: nat)
    requires Slots(n)
    ensures n * q == 0x1_0000_0000
  {
    if n == 1 then 0x1_0000_0000
    else if n == 2 then 0x8000_0000
    else if n == 4 then 0x4000_0000
    else if n == 8 then 0x2000_0000
    else if n == 16 then 0x1000_0000
    else 0x0800_0000
  }

  lemma OffMod(n: nat, a: U32, k: int)
    requires Slots(n)
    ensures Add(a, k) % n == (a + k) % n
    ensures exists q: int :: Add(a, k) == a + k + n * q
  {
    var c := (a + k) / 0x1_0000_0000;
    assert Add(a, k) == a + k - 0x1_0000_0000 * c;
    assert 0x1_0000_0000 * c == (n * Turns(n)) * c == n * (Turns(n) * c);
    WholeTurns(n, a + k, -(Turns(n) * c));
    assert Add(a, k) == a + k + n * (-(Turns(n) * c));
  }

  lemma StepBack(n: int, x: int, k: int)
    requires n > 0 && 0 <= k <= n
    ensures (x - k) % n == if x % n >= k then x % n - k else x % n + n - k
  {
    var d, o := x / n, x % n;
    assert x == n * d + o;
    if o >= k {
      DivModUnique(n, x - k, d, o - k);
    } else {
      assert n * (d - 1) == n * d - n;
      DivModUnique(n, x - k, d - 1, o + n - k);
    }
  }

  /** Advancing the tail by `k` moves every slot `k` closer, around the ring. */
  lemma OffShift(n: nat, i: int, tail: U32, k: nat)
    requires Slots(n) && k <= n
    ensures Off(n, i, Add(tail, k)) == if Off(n, i, tail) >= k then Off(n, i, tail) - k else Off(n, i, tail) + n - k
  {
    OffMod(n, tail, k);
    var q: int :| Add(tail, k) == tail + k + n * q;
    hide Slots, Add;
    WholeTurns(n, i - tail - k, -q);
    assert i - Add(tail, k) == i - tail - k + n * -q;
    StepBack(n, i - tail, k);
  }

  /** The slot `k` past the tail is at distance `k`. */
  lemma OffAt(n: nat, tail: U32, k: nat)
    requires Slots(n) && k < n
    ensures Off(n, Add(tail, k) % n, tail) == k
  {
  }

  lemma OffInjective(n: nat, i: nat, j: nat, tail: U32)
    requires Slots(n) && i < n && j < n && Off(n, i, tail) == Off(n, j, tail)
    ensures i == j
  {
    SameRest(n, i - tail, j - tail);
  }

  /** Numbers less than a turn apart with the same remainder are equal. */
  lemma SameRest(n: int, x: int, y: int)
    requires n > 0 && x % n == y % n && -n < x - y < n
    ensures x == y
  {
    var d := x / n - y / n;
    assert x - y == n * d by { assert n * d == n * (x / n) - n * (y / n); }
    if d > 0 {
      MulAtLeast(n, d);
      assert false;
    }
    if d < 0 {
      MulAtLeast(n, -d);
      assert false;
    }
  }

  /** Advancing the nearer index by one. */
  lemma SubNext(a: U32, b: U32)
    requires a != b
    ensures Sub(a, b) > 0 && Sub(a, Add(b, 1)) == Sub(a, b) - 1
  {
    var w := 0x1_0000_0000;
    if Sub(a, b) == 0 {
      SameRest(w, a - b, 0);
      assert false;
    }
    var q := (b + 1) / w;
    assert Add(b, 1) == b + 1 - w * q;
    WholeTurns(w, a - b - 1, q);
    StepBack(w, a - b, 1);
  }

  lemma MaskAdd(n: nat, a: U32, k: int)
    requires Slots(n)
    ensures Mask(n, Add(a, k)) == Mask(n, a + k)
  {
    OffMod(n, a, k);
  }

  lemma MaskApart(n: nat, b: int, i: nat, j: nat)
    requires Slots(n) && i < j < i + n
    ensures Mask(n, b + i) != Mask(n, b + j)
  {
    StepBack(n, b + j, j - i);
  }
}
