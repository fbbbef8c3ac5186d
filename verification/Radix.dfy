/** Page numbers as radix paths: a table at height `h` holds the pages that share the prefix
    `Up(n, page, h + 1)`, and indexes them by one digit of base `n`. */
module Radix {
  type Width = n: nat | n >= 2 witness 2

  function Par(n: Width, p: nat): nat { p / n }

  function Idx(n: Width, p: nat): (i: nat)
    ensures i < n
  {
    p % n
  }

  function Kid(n: Width, p: nat, i: nat): nat { p * n + i }

  lemma MulMono(a: nat, b: nat, c: nat)
    requires a <= b
    ensures a * c <= b * c
  {
  }

  lemma ParKid(n: Width, x: nat)
    ensures Kid(n, Par(n, x), Idx(n, x)) == x
  {
  }

  lemma KidInjective(n: Width, p: nat, i: nat, q: nat, j: nat)
    requires i < n && j < n
    requires Kid(n, p, i) == Kid(n, q, j)
    ensures p == q && i == j
  {
    if p < q {
      MulMono(p + 1, q, n);
      assert false;
    }
    if q < p {
      MulMono(q + 1, p, n);
      assert false;
    }
  }

  lemma KidPar(n: Width, p: nat, i: nat)
    requires i < n
    ensures Par(n, Kid(n, p, i)) == p
    ensures Idx(n, Kid(n, p, i)) == i
  {
    var x := Kid(n, p, i);
    ParKid(n, x);
    KidInjective(n, p, i, Par(n, x), Idx(n, x));
  }

  lemma ParMono(n: Width, x: nat, y: nat)
    requires x <= y
    ensures Par(n, x) <= Par(n, y)
  {
    ParKid(n, x);
    ParKid(n, y);
    if Par(n, y) < Par(n, x) {
      MulMono(Par(n, y) + 1, Par(n, x), n);
      assert false;
    }
  }

  function Up(n: Width, v: nat, h: nat): nat
  {
    if h == 0 then v else Par(n, Up(n, v, h - 1))
  }

  lemma {:induction false} UpMono(n: Width, x: nat, y: nat, h: nat)
    requires x <= y
    ensures Up(n, x, h) <= Up(n, y, h)
  {
    if h > 0 {
      UpMono(n, x, y, h - 1);
      ParMono(n, Up(n, x, h - 1), Up(n, y, h - 1));
    }
  }

  lemma ParNext(n: Width, x: nat)
    ensures Par(n, x + 1) <= Par(n, x) + 1
  {
    ParKid(n, x);
    ParKid(n, x + 1);
    if Par(n, x) + 2 <= Par(n, x + 1) {
      MulMono(Par(n, x) + 2, Par(n, x + 1), n);
      assert false;
    }
  }

  lemma {:induction false} UpNext(n: Width, x: nat, h: nat)
    ensures Up(n, x + 1, h) <= Up(n, x, h) + 1
  {
    if h > 0 {
      UpNext(n, x, h - 1);
      ParMono(n, Up(n, x + 1, h - 1), Up(n, x, h - 1) + 1);
      ParNext(n, Up(n, x, h - 1));
    }
  }

  lemma {:induction false} UpCompose(n: Width, x: nat, a: nat, b: nat)
    ensures Up(n, Up(n, x, a), b) == Up(n, x, a + b)
  {
    if b > 0 {
      UpCompose(n, x, a, b - 1);
    }
  }

  /** Pages one entry at height `h` covers. */
  function Span(n: Width, h: nat): (r: nat)
    ensures r >= 1
  {
    if h == 0 then 1 else Span(n, h - 1) * n
  }

  lemma SpanStep(u: nat, q: nat, s: nat, n: nat)
    requires q * n <= u && u + 1 <= (q + 1) * n
    ensures q * (s * n) <= u * s
    ensures (u + 1) * s <= (q + 1) * (s * n)
  {
    MulMono(q * n, u, s);
    MulMono(u + 1, (q + 1) * n, s);
    assert q * (s * n) == (q * n) * s;
    assert (q + 1) * (s * n) == ((q + 1) * n) * s;
  }

  lemma {:induction false} UpSpan(n: Width, v: nat, h: nat)
    ensures Up(n, v, h) * Span(n, h) <= v
    ensures v + 1 <= (Up(n, v, h) + 1) * Span(n, h)
  {
    if h > 0 {
      var u := Up(n, v, h - 1);
      UpSpan(n, v, h - 1);
      ParKid(n, u);
      assert u + 1 <= (Par(n, u) + 1) * n by {
        assert (Par(n, u) + 1) * n == Par(n, u) * n + n;
      }
      SpanStep(u, Par(n, u), Span(n, h - 1), n);
    }
  }

  /** The first page under entry `q` of height `h`. */
  function First(n: Width, h: nat, q: nat): nat { q * Span(n, h) }

  lemma DivBounds(v: nat, s: nat)
    requires s >= 1
    ensures (v / s) * s <= v < (v / s + 1) * s
  {
    assert v == (v / s) * s + v % s;
    assert (v / s + 1) * s == (v / s) * s + s;
  }

  lemma FirstBounds(n: Width, h: nat, v: nat)
    ensures First(n, h, v / Span(n, h)) <= v < First(n, h, v / Span(n, h) + 1)
  {
    hide Span;
    DivBounds(v, Span(n, h));
  }

  lemma FirstMono(n: Width, h: nat, a: nat, b: nat)
    requires a < b
    ensures First(n, h, a) < First(n, h, b)
  {
    MulMono(a + 1, b, Span(n, h));
    assert (a + 1) * Span(n, h) == a * Span(n, h) + Span(n, h);
  }

  lemma UpUnique(n: Width, v: nat, h: nat, q: nat)
    requires First(n, h, q) <= v < First(n, h, q + 1)
    ensures Up(n, v, h) == q
  {
    UpSpan(n, v, h);
    var u := Up(n, v, h);
    if u < q {
      MulMono(u + 1, q, Span(n, h));
      assert false;
    }
    if q < u {
      MulMono(q + 1, u, Span(n, h));
      assert false;
    }
  }

  /** The pages of [v, v + pages) under the entry at height `h` that holds `v`. */
  function PagesUnder(n: Width, v: nat, h: nat, pages: nat): (here: nat)
    requires pages > 0
    ensures 1 <= here <= pages
  {
    FirstBounds(n, h, v);
    var here := First(n, h, v / Span(n, h) + 1) - v;
    if here > pages then pages else here
  }

  lemma PagesUnderEntry(n: Width, v: nat, h: nat, pages: nat)
    requires pages > 0
    ensures var here := PagesUnder(n, v, h, pages);
            && Up(n, v + here - 1, h) == Up(n, v, h)
            && (here < pages ==> Up(n, v + here, h) == Up(n, v, h) + 1)
  {
    hide First, Span, Up;
    var here, q := PagesUnder(n, v, h, pages), v / Span(n, h);
    FirstBounds(n, h, v);
    UpUnique(n, v, h, q);
    UpUnique(n, v + here - 1, h, q);
    if here < pages {
      FirstMono(n, h, q + 1, q + 2);
      UpUnique(n, v + here, h, q + 1);
    }
  }

  lemma {:induction false} UpDown(n: Width, p: nat, h: nat)
    ensures Up(n, First(n, h, p), h) == p
  {
    FirstMono(n, h, p, p + 1);
    UpUnique(n, First(n, h, p), h, p);
  }

  lemma UpLess(n: Width, x: nat, h: nat, p: nat)
    requires x < First(n, h, p)
    ensures Up(n, x, h) < p
  {
    FirstBounds(n, h, x);
    UpUnique(n, x, h, x / Span(n, h));
    if p <= x / Span(n, h) {
      MulMono(p, x / Span(n, h), Span(n, h));
      assert false;
    }
  }
}
