/** What mapping a run of pages does to the tree, page by page and table by table. */
module PageMap {
  import opened Radix
  import opened Sets
  import opened PageTree

  /** The output a map gives page `x`: page 0 would go to `base`. */
  function AddrFor(f: Format, base: int, x: nat): int { base + x * f.granule }

  lemma AddrStep(f: Format, base: int, x: nat, here: nat)
    ensures AddrFor(f, base, x) + here * f.granule == AddrFor(f, base, x + here)
  {
    assert (x + here) * f.granule == x * f.granule + here * f.granule;
  }

  ghost function LeafFor(f: Format, base: int, attrs: int, x: nat): Entry { Leaf(AddrFor(f, base, x), attrs) }

  /** What a map of `done` pages from `v` leaves in slot `i` of the table at `j`. */
  ghost function MappedWord(f: Format, s: Mem, s': Mem, v: nat, done: nat, base: int, attrs: int, j: Pos, i: nat): Entry {
    if j.h == 0 then
      var x := Kid(f.n, j.p, i);
      if v <= x < v + done then LeafFor(f, base, attrs, x) else Word(s, j, i)
    else if Valid(Word(s, j, i)) then Word(s, j, i)
    else if Child(f, j, i) in s'.loc then Table(s'.loc[Child(f, j, i)])
    else Zero
  }

  /** From `s` to `s'` tables are only added, out of free frames, below height `H` where
      [v, v + pages) needs one; none the first `done` pages need is left out. */
  ghost predicate Grown(f: Format, s: Mem, s': Mem, H: nat, v: nat, pages: nat, done: nat) {
    && done <= pages
    && (forall j {:trigger j in s'.loc} :: j in s.loc ==> j in s'.loc && s'.loc[j] == s.loc[j])
    && (forall j {:trigger j in s'.loc} :: j in s'.loc && j !in s.loc ==>
          j.h < H && Touches(f, j, v, pages) && s'.loc[j] in s.free)
    && (forall j: Pos {:trigger Touches(f, j, v, done)} :: j.h < H && Touches(f, j, v, done) ==> j in s'.loc)
    && s'.free <= s.free && |s'.free| + |s'.loc| == |s.free| + |s.loc|
  }

  /** `s'` is `s` after mapping the first `done` of `pages` pages from `v`. */
  ghost predicate Mapped(f: Format, s: Mem, s': Mem, H: nat, v: nat, pages: nat, done: nat, base: int, attrs: int) {
    && Grown(f, s, s', H, v, pages, done)
    && (forall j, i: nat {:trigger Word(s', j, i)} :: j in s'.loc && i < f.n ==>
          Word(s', j, i) == MappedWord(f, s, s', v, done, base, attrs, j, i))
  }

  lemma MappedNone(f: Format, root: int, s: Mem, H: nat, v: nat, pages: nat, base: int, attrs: int)
    requires Lawful(f) && Shape(f, root, s)
    ensures Mapped(f, s, s, H, v, pages, 0, base, attrs)
  {
    forall j, i: nat | j in s.loc && i < f.n
      ensures Word(s, j, i) == MappedWord(f, s, s, v, 0, base, attrs, j, i)
    {
      assert EntryOk(f, s, j, i);
      if j.h > 0 {
        LinkedWord(f, root, s, j, i);
      }
    }
  }

  lemma MappedKeeps(f: Format, s: Mem, s': Mem, H: nat, v: nat, pages: nat, done: nat, base: int, attrs: int, k: Pos)
    requires Mapped(f, s, s', H, v, pages, done, base, attrs) && k in s.loc
    ensures k in s'.loc && s'.loc[k] == s.loc[k]
  {
  }

  lemma MapLeafWord(f: Format, root: int, s0: Mem, s: Mem, k: Pos, v: nat, pages: nat, d: nat, base: int, attrs: int,
                    j: Pos, i: nat)
    requires Lawful(f) && Shape(f, root, s) && Mapped(f, s0, s, 0, v, pages, d, base, attrs) && d < pages
    requires k in s.loc && k == Holder(f, v + d, 0) && Sited(f, s, k) && j in s.loc && i < f.n
    ensures var s' := Store(s, k, Idx(f.n, v + d), LeafFor(f, base, attrs, v + d));
            Word(s', j, i) == MappedWord(f, s0, s', v, d + 1, base, attrs, j, i)
  {
    hide Grown;
    LeafHolder(f, v + d);
    StoreWord(f, root, s, k, Idx(f.n, v + d), LeafFor(f, base, attrs, v + d), j, i);
    KidPar(f.n, j.p, i);
    ParKid(f.n, v + d);
    assert Word(s, j, i) == MappedWord(f, s0, s, v, d, base, attrs, j, i);
  }

  lemma MapLeaf(f: Format, root: int, s0: Mem, s: Mem, k: Pos, v: nat, pages: nat, d: nat, base: int, attrs: int)
    requires Lawful(f) && Shape(f, root, s) && Mapped(f, s0, s, 0, v, pages, d, base, attrs) && d < pages
    requires k in s.loc && k == Holder(f, v + d, 0) && Sited(f, s, k)
    ensures var s' := Store(s, k, Idx(f.n, v + d), LeafFor(f, base, attrs, v + d));
            Shape(f, root, s') && Mapped(f, s0, s', 0, v, pages, d + 1, base, attrs)
  {
    hide Touches;
    var w, at := LeafFor(f, base, attrs, v + d), Idx(f.n, v + d);
    StoreLeaf(f, root, s, k, at, w);
    var s' := Store(s, k, at, w);
    forall j, i: nat | j in s'.loc && i < f.n
      ensures Word(s', j, i) == MappedWord(f, s0, s', v, d + 1, base, attrs, j, i)
    {
      MapLeafWord(f, root, s0, s, k, v, pages, d, base, attrs, j, i);
    }
  }

  lemma MapLinkWord(f: Format, root: int, s0: Mem, s: Mem, k: Pos, i: nat, x: int,
                    v: nat, pages: nat, d: nat, base: int, attrs: int, j: Pos, l: nat)
    requires Linkable(f, root, s, k, i, x) && Mapped(f, s0, s, k.h, v, pages, d, base, attrs)
    requires j in Link(f, s, k, i, x).loc && l < f.n
    ensures var s' := Link(f, s, k, i, x); Word(s', j, l) == MappedWord(f, s0, s', v, d, base, attrs, j, l)
  {
    hide Touches;
    var c := Child(f, k, i);
    LinkWord(f, root, s, k, i, x, j, l);
    KidPar(f.n, j.p, l);
    KidPar(f.n, k.p, i);
    if j in s.loc {
      assert Word(s, j, l) == MappedWord(f, s0, s, v, d, base, attrs, j, l);
    } else {
      assert j == c && c !in s0.loc;
      if c.h > 0 {
        NoOrphan(f, root, s, c, l);
      } else if v <= Kid(f.n, c.p, l) < v + d {
        LeafHolder(f, Kid(f.n, c.p, l));
        TouchesAt(f, Kid(f.n, c.p, l), 0, v, d);
        assert false;
      }
    }
  }

  lemma MapLink(f: Format, root: int, s0: Mem, s: Mem, k: Pos, i: nat, x: int,
                v: nat, pages: nat, d: nat, base: int, attrs: int)
    requires Linkable(f, root, s, k, i, x) && Mapped(f, s0, s, k.h, v, pages, d, base, attrs)
    requires Touches(f, Child(f, k, i), v, pages)
    ensures Mapped(f, s0, Link(f, s, k, i, x), k.h, v, pages, d, base, attrs)
  {
    hide Touches;
    var s' := Link(f, s, k, i, x);
    LinkWord(f, root, s, k, i, x, k, i);
    forall j, l: nat | j in s'.loc && l < f.n
      ensures Word(s', j, l) == MappedWord(f, s0, s', v, d, base, attrs, j, l)
    {
      MapLinkWord(f, root, s0, s, k, i, x, v, pages, d, base, attrs, j, l);
    }
  }

  lemma MapComposeWord(f: Format, root: int, s0: Mem, s1: Mem, s2: Mem, h: nat, v: nat, pages: nat,
                       d: nat, here: nat, e: nat, base: int, attrs: int, j: Pos, i: nat)
    requires Lawful(f) && Shape(f, root, s1) && h > 0 && d + here <= pages
    requires Mapped(f, s0, s1, h, v, pages, d, base, attrs)
    requires Mapped(f, s1, s2, h - 1, v + d, here, e, base, attrs)
    requires j in s2.loc && i < f.n
    ensures Word(s2, j, i) == MappedWord(f, s0, s2, v, d + e, base, attrs, j, i)
  {
    assert Word(s2, j, i) == MappedWord(f, s1, s2, v + d, e, base, attrs, j, i);
    if j in s1.loc {
      assert Word(s1, j, i) == MappedWord(f, s0, s1, v, d, base, attrs, j, i);
    }
    if j.h == 0 {
      var x := Kid(f.n, j.p, i);
      KidPar(f.n, j.p, i);
      LeafHolder(f, x);
      if v <= x < v + d {
        TouchesAt(f, x, 0, v, d);
        assert j in s1.loc;
      }
    }
  }

  lemma GrownCompose(f: Format, s0: Mem, s1: Mem, s2: Mem, c: Pos, v: nat, pages: nat, d: nat, here: nat, e: nat)
    requires c in s1.loc && d + here <= pages && Under(f, c, v + d, here)
    requires Grown(f, s0, s1, c.h + 1, v, pages, d) && Grown(f, s1, s2, c.h, v + d, here, e)
    ensures Grown(f, s0, s2, c.h + 1, v, pages, d + e)
  {
    hide Touches;
    forall j | j in s0.loc
      ensures j in s2.loc && s2.loc[j] == s0.loc[j]
    {
      assert j in s1.loc;
    }
    forall j | j in s2.loc && j !in s0.loc
      ensures j.h < c.h + 1 && Touches(f, j, v, pages) && s2.loc[j] in s0.free
    {
      if j !in s1.loc {
        TouchesGrow(f, j, v, pages, d, here);
      }
    }
    forall j: Pos | j.h < c.h + 1 && Touches(f, j, v, d + e)
      ensures j in s2.loc
    {
      TouchesSplit(f, j, v, d, e);
      if Touches(f, j, v + d, e) && j.h == c.h {
        UnderOnly(f, c, j, v + d, here, e);
      }
    }
  }

  lemma MapCompose(f: Format, root: int, s0: Mem, s1: Mem, s2: Mem, c: Pos, v: nat, pages: nat,
                   d: nat, here: nat, e: nat, base: int, attrs: int)
    requires Lawful(f) && Shape(f, root, s1) && c in s1.loc && d + here <= pages
    requires Under(f, c, v + d, here)
    requires Mapped(f, s0, s1, c.h + 1, v, pages, d, base, attrs)
    requires Mapped(f, s1, s2, c.h, v + d, here, e, base, attrs)
    ensures Mapped(f, s0, s2, c.h + 1, v, pages, d + e, base, attrs)
  {
    GrownCompose(f, s0, s1, s2, c, v, pages, d, here, e);
    forall j, i: nat | j in s2.loc && i < f.n
      ensures Word(s2, j, i) == MappedWord(f, s0, s2, v, d + e, base, attrs, j, i)
    {
      MapComposeWord(f, root, s0, s1, s2, c.h + 1, v, pages, d, here, e, base, attrs, j, i);
    }
  }

  lemma NoLargerKept(f: Format, s: Mem, s': Mem, H: nat, v: nat, pages: nat, done: nat, base: int, attrs: int)
    requires Mapped(f, s, s', H, v, pages, done, base, attrs) && NoLarger(f, s, v, pages)
    ensures NoLarger(f, s', v, pages)
  {
    forall x, h | v <= x < v + pages && 1 <= h <= f.top
      ensures !Blocked(f, s', x, h)
    {
      var j, i := Holder(f, x, h), Idx(f.n, Up(f.n, x, h));
      if j in s'.loc {
        assert Word(s', j, i) == MappedWord(f, s, s', v, done, base, attrs, j, i);
      }
      assert !Blocked(f, s, x, h);
    }
  }

  lemma PageAfter(f: Format, root: int, s: Mem, s': Mem, H: nat, v: nat, pages: nat, done: nat, base: int, attrs: int, x: nat)
    requires Lawful(f) && Shape(f, root, s') && Mapped(f, s, s', H, v, pages, done, base, attrs)
    requires Holder(f, x, 0) !in s'.loc ==> Holder(f, x, 0) !in s.loc
    requires v <= x < v + done ==> Holder(f, x, 0) in s'.loc
    ensures PageAt(f, s', x) == if v <= x < v + done then LeafFor(f, base, attrs, x) else PageAt(f, s, x)
  {
    hide Grown;
    LeafHolder(f, x);
    ParKid(f.n, x);
    var j := Holder(f, x, 0);
    if j in s'.loc {
      assert Word(s', j, Idx(f.n, x)) == MappedWord(f, s, s', v, done, base, attrs, j, Idx(f.n, x));
    }
  }

  lemma MapFlat(f: Format, root: int, s: Mem, s': Mem, v: nat, pages: nat, done: nat, base: int, attrs: int, x: nat)
    requires Lawful(f) && Shape(f, root, s') && Mapped(f, s, s', f.top, v, pages, done, base, attrs)
    ensures PageAt(f, s', x) == if v <= x < v + done then LeafFor(f, base, attrs, x) else PageAt(f, s, x)
  {
    hide Touches;
    if v <= x < v + done {
      TouchesAt(f, x, 0, v, done);
    } else {
      assert Holder(f, x, 0) in s.loc ==> Holder(f, x, 0) in s'.loc;
    }
    PageAfter(f, root, s, s', f.top, v, pages, done, base, attrs, x);
  }

  lemma MapNoEmpty(f: Format, root: int, s: Mem, s': Mem, v: nat, pages: nat, base: int, attrs: int, j: Pos)
    requires Lawful(f) && Shape(f, root, s) && Shape(f, root, s') && Mapped(f, s, s', f.top, v, pages, pages, base, attrs)
    requires NoEmpty(f, s) && j in s'.loc && j.h < f.top
    ensures NonEmpty(f, s', j)
  {
    hide Touches;
    var i: nat;
    if j in s.loc {
      assert NonEmpty(f, s, j);
      i :| i < f.n && Word(s, j, i) != Zero;
      assert EntryOk(f, s, j, i);
    } else {
      var x := TouchedPage(f, j, v, pages);
      i := Idx(f.n, Up(f.n, x, j.h));
      ParKid(f.n, Up(f.n, x, j.h));
      if j.h > 0 {
        assert Child(f, j, i) == Holder(f, x, j.h - 1);
        TouchesAt(f, x, j.h - 1, v, pages);
      } else {
        LeafHolder(f, x);
      }
    }
    assert Word(s', j, i) == MappedWord(f, s, s', v, pages, base, attrs, j, i);
  }

  lemma MapSettles(f: Format, root: int, s: Mem, s': Mem, v: nat, pages: nat, pa: int, attrs: int, base: int)
    requires Lawful(f) && Shape(f, root, s) && Shape(f, root, s') && Mapped(f, s, s', f.top, v, pages, pages, base, attrs)
    requires NoEmpty(f, s) && base == pa - v * f.granule
    ensures NoEmpty(f, s')
    ensures forall x: nat :: PageAt(f, s', x) ==
              if v <= x < v + pages then Leaf(pa + (x - v) * f.granule, attrs) else PageAt(f, s, x)
  {
    hide Mapped, Shape;
    forall j | j in s'.loc && j.h < f.top
      ensures NonEmpty(f, s', j)
    {
      MapNoEmpty(f, root, s, s', v, pages, base, attrs, j);
    }
    forall x: nat
      ensures PageAt(f, s', x) == if v <= x < v + pages then Leaf(pa + (x - v) * f.granule, attrs) else PageAt(f, s, x)
    {
      MapFlat(f, root, s, s', v, pages, pages, base, attrs, x);
      assert (x - v) * f.granule == x * f.granule - v * f.granule;
    }
  }

  /** Removing the leaf of page `x` owes the peers more than translation maintenance. */
  ghost predicate OwesAt(f: Format, s: Mem, x: nat) { PageAt(f, s, x).Leaf? && PageAt(f, s, x).attrs in f.owing }

  ghost predicate Owes(f: Format, s: Mem, v: nat, d: nat) { exists x :: v <= x < v + d && OwesAt(f, s, x) }

  lemma OwesNone(f: Format, s: Mem, v: nat)
    ensures !Owes(f, s, v, 0)
  {
  }

  lemma OwesStep(f: Format, s: Mem, v: nat, d: nat)
    ensures Owes(f, s, v, d + 1) == (Owes(f, s, v, d) || OwesAt(f, s, v + d))
  {
    if Owes(f, s, v, d) {
      var x :| v <= x < v + d && OwesAt(f, s, x);
      assert v <= x < v + (d + 1);
    }
  }

  lemma OwesSame(f: Format, root: int, s0: Mem, s: Mem, H: nat, v: nat, pages: nat, d: nat, base: int, attrs: int, x: nat)
    requires Lawful(f) && Shape(f, root, s) && Mapped(f, s0, s, H, v, pages, d, base, attrs) && v + d <= x
    ensures OwesAt(f, s, x) == OwesAt(f, s0, x)
  {
    assert Holder(f, x, 0) in s0.loc ==> Holder(f, x, 0) in s.loc;
    PageAfter(f, root, s0, s, H, v, pages, d, base, attrs, x);
  }

  lemma OwesSplit(f: Format, root: int, s0: Mem, s: Mem, H: nat, v: nat, pages: nat, d: nat, e: nat, base: int, attrs: int)
    requires Lawful(f) && Shape(f, root, s) && Mapped(f, s0, s, H, v, pages, d, base, attrs) && d + e <= pages
    ensures Owes(f, s0, v, d + e) == (Owes(f, s0, v, d) || Owes(f, s, v + d, e))
  {
    hide OwesAt, Mapped, Shape;
    forall x: nat | v + d <= x
      ensures OwesAt(f, s, x) == OwesAt(f, s0, x)
    {
      OwesSame(f, root, s0, s, H, v, pages, d, base, attrs, x);
    }
    if Owes(f, s0, v, d) {
      var x :| v <= x < v + d && OwesAt(f, s0, x);
      assert v <= x < v + (d + e);
    }
    if Owes(f, s, v + d, e) {
      var x :| v + d <= x < v + d + e && OwesAt(f, s, x);
      assert v <= x < v + (d + e) && OwesAt(f, s0, x);
    }
  }

  /** The positions below the root that [v, v + pages) touches and that hold no table yet. */
  ghost function Needed(f: Format, s: Mem, v: nat, pages: nat): set<Pos> {
    if pages == 0 then {}
    else set h: nat, p: nat | h < f.top && Up(f.n, v, h + 1) <= p <= Up(f.n, v + pages - 1, h + 1)
            && Pos(h, p) !in s.loc :: Pos(h, p)
  }

  lemma NeededIn(f: Format, s: Mem, v: nat, pages: nat, j: Pos)
    ensures j in Needed(f, s, v, pages) <==> j.h < f.top && Touches(f, j, v, pages) && j !in s.loc
  {
  }

  /** A map that runs to its end links exactly the tables needed. */
  lemma MapLinksNeeded(f: Format, s: Mem, s': Mem, v: nat, pages: nat, base: int, attrs: int)
    requires Mapped(f, s, s', f.top, v, pages, pages, base, attrs)
    ensures s'.loc.Keys == s.loc.Keys + Needed(f, s, v, pages)
    ensures |s'.loc| == |s.loc| + |Needed(f, s, v, pages)|
    ensures |s.free| - |s'.free| == |Needed(f, s, v, pages)|
  {
    hide Needed, Touches;
    forall j
      ensures j in s'.loc.Keys <==> j in s.loc.Keys + Needed(f, s, v, pages)
    {
      NeededIn(f, s, v, pages, j);
      if j in s.loc {
        assert j in s'.loc;
      }
    }
    assert s.loc.Keys !! Needed(f, s, v, pages) by {
      forall j | j in s.loc
        ensures j !in Needed(f, s, v, pages)
      {
        NeededIn(f, s, v, pages, j);
      }
    }
    assert s'.loc.Keys == s.loc.Keys + Needed(f, s, v, pages);
    assert |s'.loc| == |s'.loc.Keys| && |s.loc| == |s.loc.Keys|;
  }

  /** A map that runs out of frames had fewer free than the tables it needs. */
  lemma MapShort(f: Format, s: Mem, s': Mem, v: nat, pages: nat, done: nat, base: int, attrs: int, missing: Pos)
    requires Mapped(f, s, s', f.top, v, pages, done, base, attrs) && s'.free == {}
    requires missing.h < f.top && Touches(f, missing, v, pages) && missing !in s'.loc
    ensures |s.free| < |Needed(f, s, v, pages)|
  {
    hide Needed, Touches;
    var need, added := Needed(f, s, v, pages), s'.loc.Keys - s.loc.Keys;
    assert missing !in s.loc by {
      assert missing in s.loc ==> missing in s'.loc;
    }
    NeededIn(f, s, v, pages, missing);
    forall j | j in added
      ensures j in need && j != missing
    {
      NeededIn(f, s, v, pages, j);
    }
    assert s.loc.Keys <= s'.loc.Keys by {
      forall j | j in s.loc.Keys
        ensures j in s'.loc.Keys
      {
        assert j in s'.loc;
      }
    }
    assert |added| == |s'.loc.Keys| - |s.loc.Keys|;
    SubsetSize(added, need - {missing});
  }

  /** A wholly mapped range needs no table. */
  lemma MappedNeedsNone(f: Format, root: int, s: Mem, v: nat, pages: nat)
    requires Lawful(f) && Shape(f, root, s) && AllMapped(f, s, v, pages)
    ensures Needed(f, s, v, pages) == {}
  {
    hide Needed, Touches;
    forall j
      ensures j !in Needed(f, s, v, pages)
    {
      NeededIn(f, s, v, pages, j);
      if j.h < f.top && Touches(f, j, v, pages) {
        var x := TouchedPage(f, j, v, pages);
        assert Valid(PageAt(f, s, x));
        if j.h > 0 {
          HolderChain(f, root, s, x, 0, j.h);
        }
      }
    }
  }

  lemma NotMapped(f: Format, root: int, s: Mem, v: nat, pages: nat)
    requires Lawful(f) && Shape(f, root, s) && |s.free| < |Needed(f, s, v, pages)|
    ensures !AllMapped(f, s, v, pages)
  {
    if AllMapped(f, s, v, pages) {
      MappedNeedsNone(f, root, s, v, pages);
      assert false;
    }
  }

  /** The map refuses the range: a larger leaf covers part of it, or it is partly mapped. */
  ghost predicate Refused(f: Format, s: Mem, v: nat, pages: nat) {
    !NoLarger(f, s, v, pages) || (!AllMapped(f, s, v, pages) && !AllUnmapped(f, s, v, pages))
  }

  lemma AdmitMeans(f: Format, s: Mem, v: nat, pages: nat)
    requires !Refused(f, s, v, pages)
    ensures NoLarger(f, s, v, pages) && (AllMapped(f, s, v, pages) || AllUnmapped(f, s, v, pages))
  {
  }

  lemma SamePrefix(f: Format, a: nat, b: nat, h: nat, g: nat)
    requires Up(f.n, a, h) == Up(f.n, b, h) && h <= g
    ensures Up(f.n, a, g) == Up(f.n, b, g)
  {
    UpCompose(f.n, a, h, g - h);
    UpCompose(f.n, b, h, g - h);
  }

  lemma BlockedSame(f: Format, s: Mem, a: nat, b: nat, h: nat, g: nat)
    requires Up(f.n, a, h) == Up(f.n, b, h) && h <= g
    ensures Blocked(f, s, a, g) == Blocked(f, s, b, g)
  {
    SamePrefix(f, a, b, h, g);
    SamePrefix(f, a, b, h, g + 1);
  }

  /** Entry `p` at height `h`, seen from the first page it covers: the table under it is the one the
      range needs, and nothing larger blocks the walk to it. */
  lemma ChunkSeen(f: Format, s: Mem, v: nat, pages: nat, h: nat, p: nat)
    requires 1 <= h <= f.top && Touches(f, Pos(h - 1, p), v, pages) && InReach(f, v, pages) && NoLarger(f, s, v, pages)
    ensures var at := First(f.n, h, p);
            && Up(f.n, at, h) == p && Reaches(f, at) && Holder(f, at, h - 1) == Pos(h - 1, p)
            && forall g {:trigger Blocked(f, s, at, g)} :: h <= g <= f.top ==> !Blocked(f, s, at, g)
  {
    hide Blocked, Touches;
    var at := First(f.n, h, p);
    UpDown(f.n, p, h);
    var x := TouchedPage(f, Pos(h - 1, p), v, pages);
    SamePrefix(f, at, x, h, f.top);
    SamePrefix(f, at, x, h, f.top + 1);
    assert Reaches(f, x);
    forall g | h <= g <= f.top
      ensures !Blocked(f, s, at, g)
    {
      assert !Blocked(f, s, x, g);
      BlockedSame(f, s, at, x, h, g);
    }
  }

  /** The needed positions counted once height `h` has been swept up to prefix `p`. */
  ghost function Swept(need: set<Pos>, h: nat, p: nat): set<Pos> {
    set j | j in need && (j.h >= h || (j.h + 1 == h && j.p < p))
  }

  lemma SweptStep(need: set<Pos>, h: nat, p: nat)
    requires h > 0
    ensures |Swept(need, h, p + 1)| == |Swept(need, h, p)| + if Pos(h - 1, p) in need then 1 else 0
  {
    if Pos(h - 1, p) in need {
      assert Swept(need, h, p + 1) == Swept(need, h, p) + {Pos(h - 1, p)};
    } else {
      assert Swept(need, h, p + 1) == Swept(need, h, p);
    }
  }

  lemma SweptRow(f: Format, s: Mem, v: nat, pages: nat, h: nat)
    requires pages > 0 && h > 0
    ensures var need := Needed(f, s, v, pages);
            && Swept(need, h, 0) == Swept(need, h, Up(f.n, v, h))
            && Swept(need, h, Up(f.n, v + pages - 1, h) + 1) == Swept(need, h - 1, 0)
  {
  }

  lemma SweptAll(f: Format, s: Mem, v: nat, pages: nat)
    ensures var need := Needed(f, s, v, pages); Swept(need, f.top, 0) == {} && Swept(need, 0, 0) == need
  {
    var need := Needed(f, s, v, pages);
    assert forall j :: j in need ==> j.h < f.top;
  }
}
