/** Bits of machine words: a 64-bit window on a bitmap of bytes, read by masks and lowest set bits. */
module Words {
  const WORD: nat := 64
  const ALL: bv64 := 0xFFFF_FFFF_FFFF_FFFF
  const TOP: bv64 := 0x8000_0000_0000_0000

  function Not(a: bv64): bv64 { !a }

  function And(a: bv64, b: bv64): bv64 { a & b }

  function Or(a: bv64, b: bv64): bv64 { a | b }

  function Less1(a: bv64): bv64 { a - 1 }

  function Dbl(a: bv64): bv64 { a << 1 }

  function Shl4(a: bv64): bv64 { a << 4 }

  function Shl8(a: bv64): bv64 { a << 8 }

  predicate Lt(a: bv64, b: bv64) { a < b }

  predicate OneHot(h: bv64) { h != 0 && h & (h - 1) == 0 }

  predicate Meets(w: bv64, h: bv64) { w & h != 0 }

  /** One shifted left `k` times. */
  function Hot(k: nat): bv64 { if k == 0 then 1 else Dbl(Hot(k - 1)) }

  /** Bit `k` of a word. */
  predicate Bit(w: bv64, k: nat) { Meets(w, Hot(k)) }

  // ---- One bit ----

  lemma Four(k: nat)
    ensures Hot(k + 4) == Shl4(Hot(k))
  {
    hide Dbl, Hot, Shl4;
    HotNext(k);
    HotNext(k + 1);
    HotNext(k + 2);
    HotNext(k + 3);
    FourShifts(Hot(k));
  }

  lemma HotNext(k: nat)
    ensures Hot(k + 1) == Dbl(Hot(k))
  {
  }

  lemma FourShifts(h: bv64)
    ensures Dbl(Dbl(Dbl(Dbl(h)))) == Shl4(h)
  {
  }

  lemma Some()
    ensures Hot(8) == 0x100 && Hot(60) == 0x1000_0000_0000_0000
  {
    assert Hot(0) == 1;
    hide Hot;
    Four(0); Four(4); Four(8); Four(12); Four(16); Four(20); Four(24); Four(28);
    Four(32); Four(36); Four(40); Four(44); Four(48); Four(52); Four(56);
  }

  lemma Last()
    ensures Hot(63) == TOP
  {
    Some();
    assert Hot(63) == Dbl(Hot(62)) && Hot(62) == Dbl(Hot(61)) && Hot(61) == Dbl(Hot(60));
  }

  lemma {:induction false} ZeroStays(k: nat, j: nat)
    requires k <= j && Hot(k) == 0
    ensures Hot(j) == 0
  {
    if k < j {
      ZeroStays(k, j - 1);
    }
  }

  lemma {:induction false} HotOk(k: nat)
    requires k < WORD
    ensures OneHot(Hot(k)) && (k < 63 ==> Lt(Hot(k), TOP))
  {
    hide OneHot, Dbl, Lt;
    if k == 0 {
      OneIs();
    } else {
      HotOk(k - 1);
      ShiftHot(Hot(k - 1));
    }
    if k < 63 {
      Last();
      if !Lt(Hot(k), TOP) {
        TopHot(Hot(k));
        ZeroStays(k + 1, 63);
        assert false;
      }
    }
  }

  lemma OneIs()
    ensures OneHot(1)
  {
  }

  lemma ShiftHot(h: bv64)
    requires OneHot(h) && Lt(h, TOP)
    ensures OneHot(Dbl(h)) && Lt(h, Dbl(h)) && Less1(Dbl(h)) == Or(Less1(h), h) && Not(Less1(Dbl(h))) == Dbl(Not(Less1(h)))
  {
  }

  lemma TopHot(h: bv64)
    requires OneHot(h) && !Lt(h, TOP)
    ensures Dbl(h) == 0
  {
  }

  lemma LtTrans(a: bv64, b: bv64, c: bv64)
    requires Lt(a, b) && Lt(b, c)
    ensures Lt(a, c)
  {
  }

  lemma LtApart(a: bv64, b: bv64)
    requires Lt(a, b)
    ensures a != b
  {
  }

  lemma LtOneWay(a: bv64, b: bv64)
    requires Lt(a, b)
    ensures !Lt(b, a)
  {
  }

  lemma LtNotSelf(a: bv64)
    ensures !Lt(a, a)
  {
  }

  lemma {:induction false} HotOrder(j: nat, k: nat)
    requires j < k < WORD
    ensures Lt(Hot(j), Hot(k))
  {
    hide OneHot, Lt, Dbl;
    HotOk(k - 1);
    ShiftHot(Hot(k - 1));
    if j < k - 1 {
      HotOrder(j, k - 1);
      LtTrans(Hot(j), Hot(k - 1), Hot(k));
    }
  }

  lemma HotApart(h: bv64, g: bv64)
    requires OneHot(h) && OneHot(g)
    ensures Meets(h, g) <==> h == g
  {
  }

  // ---- Masks ----

  lemma BitNot(w: bv64, k: nat)
    requires k < WORD
    ensures Bit(Not(w), k) <==> !Bit(w, k)
  {
    hide Hot, OneHot, Meets, Not;
    HotOk(k);
    NotHot(w, Hot(k));
  }

  lemma NotHot(w: bv64, h: bv64)
    requires OneHot(h)
    ensures Meets(Not(w), h) <==> !Meets(w, h)
  {
    NotBits(w, h);
  }

  lemma NotBits(w: bv64, h: bv64)
    requires h != 0 && h & (h - 1) == 0
    ensures !w & h != 0 <==> w & h == 0
  {
  }

  lemma BitAnd(a: bv64, b: bv64, k: nat)
    requires k < WORD
    ensures Bit(And(a, b), k) <==> Bit(a, k) && Bit(b, k)
  {
    hide Hot, OneHot, Meets, And;
    HotOk(k);
    AndHot(a, b, Hot(k));
  }

  lemma AndHot(a: bv64, b: bv64, h: bv64)
    requires OneHot(h)
    ensures Meets(And(a, b), h) <==> Meets(a, h) && Meets(b, h)
  {
    AndBits(a, b, h);
  }

  lemma AndBits(a: bv64, b: bv64, h: bv64)
    requires h != 0 && h & (h - 1) == 0
    ensures a & b & h != 0 <==> a & h != 0 && b & h != 0
  {
    HotAll(a, h);
    HotAll(b, h);
    AndSplit(a, b, h);
  }

  lemma AndSplit(a: bv64, b: bv64, h: bv64)
    ensures a & b & h == (a & h) & (b & h)
  {
  }

  lemma HotAll(x: bv64, h: bv64)
    requires h != 0 && h & (h - 1) == 0
    ensures x & h == 0 || x & h == h
  {
  }

  lemma BitOr(a: bv64, b: bv64, k: nat)
    requires k < WORD
    ensures Bit(Or(a, b), k) <==> Bit(a, k) || Bit(b, k)
  {
    hide Hot, OneHot, Meets, Or;
    HotOk(k);
    OrHot(a, b, Hot(k));
  }

  lemma OrHot(a: bv64, b: bv64, h: bv64)
    requires OneHot(h)
    ensures Meets(Or(a, b), h) <==> Meets(a, h) || Meets(b, h)
  {
    HotAll(a, h);
    HotAll(b, h);
    OrBits(a, b, h);
  }

  lemma OrBits(a: bv64, b: bv64, h: bv64)
    requires (a & h == 0 || a & h == h) && (b & h == 0 || b & h == h) && h != 0
    ensures (a | b) & h != 0 <==> a & h != 0 || b & h != 0
  {
  }

  lemma Join(w: bv64, a: bv64, b: bv64)
    requires !Meets(w, a) && !Meets(w, b)
    ensures !Meets(w, Or(a, b))
  {
    JoinBits(w, a, b);
  }

  lemma JoinBits(w: bv64, a: bv64, b: bv64)
    requires w & a == 0 && w & b == 0
    ensures w & (a | b) == 0
  {
  }

  /** All ones shifted left `k` times. */
  function Above(k: nat): bv64 { if k == 0 then ALL else Dbl(Above(k - 1)) }

  lemma {:induction false} AboveHot(k: nat)
    requires k < WORD
    ensures Above(k) == Not(Less1(Hot(k)))
  {
    if k == 0 {
      assert Hot(0) == 1;
    } else {
      hide OneHot, Dbl, Not, Less1, Lt;
      AboveHot(k - 1);
      HotOk(k - 1);
      ShiftHot(Hot(k - 1));
    }
  }

  lemma AboveBit(k: nat, j: nat)
    requires k < WORD && j < WORD
    ensures Bit(Above(k), j) <==> j >= k
  {
    hide Hot, OneHot, Meets, Above, Not, Less1, Lt;
    AboveHot(k);
    HotOk(k);
    HotOk(j);
    MaskHot(Hot(j), Hot(k));
    LtNotSelf(Hot(k));
    if j > k {
      HotOrder(k, j);
      LtOneWay(Hot(k), Hot(j));
    } else if j < k {
      HotOrder(j, k);
    }
  }

  lemma MaskHot(h: bv64, g: bv64)
    requires OneHot(h) && OneHot(g)
    ensures Meets(Not(Less1(g)), h) <==> !Lt(h, g)
  {
  }

  // ---- The lowest set bit ----

  /** The lowest set bit from `k` on, or the word's width. */
  function Ctz(w: bv64, k: nat): (r: nat)
    requires k <= WORD
    ensures k <= r <= WORD && (r < WORD ==> Bit(w, r)) && forall j :: k <= j < r ==> !Bit(w, j)
    decreases WORD - k
  {
    if k == WORD || Bit(w, k) then k else Ctz(w, k + 1)
  }

  /** With no bit set below `k`, none is set in the mask of those below it. */
  lemma {:induction false} NoneBelow(w: bv64, k: nat)
    requires k < WORD && forall j :: 0 <= j < k ==> !Bit(w, j)
    ensures !Meets(w, Less1(Hot(k)))
  {
    if k == 0 {
      assert Less1(Hot(0)) == 0;
    } else {
      hide OneHot, Meets, Less1, Or, Lt, Dbl;
      NoneBelow(w, k - 1);
      HotOk(k - 1);
      var h := Hot(k - 1);
      assert Hot(k) == Dbl(h) && !Bit(w, k - 1);
      ShiftHot(h);
      Join(w, Less1(h), h);
    }
  }

  /** A word is zero just when no bit of it is set. */
  lemma ZeroBits(w: bv64)
    ensures w == 0 <==> Ctz(w, 0) == WORD
  {
    hide Hot, Meets, Less1;
    if Ctz(w, 0) == WORD {
      assert !Bit(w, 63);
      NoneBelow(w, 63);
      Last();
      HighZero(w);
    } else {
      assert Bit(w, Ctz(w, 0));
      MeetsSome(w, Hot(Ctz(w, 0)));
    }
  }

  lemma MeetsSome(w: bv64, h: bv64)
    requires Meets(w, h)
    ensures w != 0
  {
  }

  lemma HighZero(w: bv64)
    requires !Meets(w, TOP) && !Meets(w, Less1(TOP))
    ensures w == 0
  {
  }

  /** Masking a word with its predecessor clears its lowest set bit and no other. */
  lemma DropLowest(w: bv64, j: nat)
    requires w != 0 && j < WORD
    ensures Ctz(w, 0) < WORD && (Bit(And(w, Less1(w)), j) <==> Bit(w, j) && j != Ctz(w, 0))
  {
    hide Hot, OneHot, Meets, Less1, And, Not, Lt;
    ZeroBits(w);
    var k := Ctz(w, 0);
    HotOk(k);
    HotOk(j);
    NoneBelow(w, k);
    Drop(w, Hot(k));
    BitAnd(w, Not(Hot(k)), j);
    BitNot(Hot(k), j);
    HotApart(Hot(k), Hot(j));
    if j != k {
      HotDiffers(j, k);
    }
  }

  lemma Drop(w: bv64, h: bv64)
    requires OneHot(h) && Meets(w, h) && !Meets(w, Less1(h))
    ensures And(w, Less1(w)) == And(w, Not(h))
  {
    hide OneHot, Meets, And, Not, Less1;
    DropBits(w, h);
    AndLess(w);
    AndNot(w, h);
  }

  lemma DropBits(w: bv64, h: bv64)
    requires OneHot(h) && Meets(w, h) && !Meets(w, Less1(h))
    ensures w & (w - 1) == w & !h
  {
  }

  lemma AndLess(w: bv64)
    ensures And(w, Less1(w)) == w & (w - 1)
  {
  }

  lemma AndNot(w: bv64, h: bv64)
    ensures And(w, Not(h)) == w & !h
  {
  }

  lemma HotDiffers(j: nat, k: nat)
    requires j < WORD && k < WORD && j != k
    ensures Hot(j) != Hot(k)
  {
    hide Hot, Lt;
    if j < k {
      HotOrder(j, k);
      LtApart(Hot(j), Hot(k));
    } else {
      HotOrder(k, j);
      LtApart(Hot(k), Hot(j));
    }
  }

  // ---- Bytes ----

  /** A byte of a word, shifted to place `k`. */
  function Placed(b: bv64, k: nat): bv64 { if k == 0 then b else Shl8(Placed(b, k - 1)) }

  lemma HotEight(j: nat)
    requires 8 <= j < WORD
    ensures Hot(j) == Shl8(Hot(j - 8)) && Back(Hot(j - 8))
  {
    hide Hot, OneHot, Back, Shl4, Shl8, Lt;
    Four(j - 8);
    Four(j - 4);
    EightShifts(Hot(j - 8));
    HotOk(j);
    HotOk(j - 8);
    HotSome(Hot(j));
    HotBack(Hot(j - 8));
  }

  lemma HotSome(h: bv64)
    requires OneHot(h)
    ensures h != 0
  {
  }

  predicate Back(h: bv64) { h << 8 >> 8 == h }

  lemma EightShifts(h: bv64)
    ensures Shl4(Shl4(h)) == Shl8(h)
  {
  }

  lemma HotBack(h: bv64)
    requires OneHot(h) && Shl8(h) != 0
    ensures Back(h)
  {
  }

  lemma ShiftEight(x: bv64, h: bv64)
    requires Back(h)
    ensures Meets(Shl8(x), Shl8(h)) <==> Meets(x, h)
  {
  }

  predicate IsByte(b: bv64) { b < 0x100 }

  lemma {:induction false} PlacedBit(b: bv64, k: nat, j: nat)
    requires IsByte(b) && k < 8 && j < WORD
    ensures Bit(Placed(b, k), j) <==> 8 * k <= j < 8 * k + 8 && Bit(b, j - 8 * k)
  {
    hide Hot, OneHot, Meets, Shl8, IsByte, Back, Lt;
    HotOk(j);
    Some();
    if k == 0 {
      if j >= 8 {
        LtNotSelf(0x100);
        if j > 8 {
          HotOrder(8, j);
          LtOneWay(0x100, Hot(j));
        }
        SmallHot(b, Hot(j));
      }
    } else if j < 8 {
      HotOrder(j, 8);
      HighHot(Placed(b, k - 1), Hot(j));
    } else {
      PlacedBit(b, k - 1, j - 8);
      HotEight(j);
      ShiftEight(Placed(b, k - 1), Hot(j - 8));
    }
  }

  lemma SmallHot(b: bv64, h: bv64)
    requires IsByte(b) && OneHot(h) && !Lt(h, 0x100)
    ensures !Meets(b, h)
  {
  }

  lemma HighHot(x: bv64, h: bv64)
    requires Lt(h, 0x100)
    ensures !Meets(Shl8(x), h)
  {
  }
}
