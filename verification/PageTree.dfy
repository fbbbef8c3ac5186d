/** Page tables as a tree: where each table sits, how its parent names it, and the edits of one word. */
module PageTree {
  import opened Radix

  /** One table entry: a word stored as it is, or a descriptor a backend's hook makes, naming a table
      or an output. A `Leaf` above height 0 is a larger leaf. */
  datatype Entry = Bare(word: int) | Table(frame: int) | Leaf(pa: int, attrs: int)

  const Zero: Entry := Bare(0)

  /** The entry's bit 0: set in every descriptor, and in a bare word what it is. */
  function Bit0(w: Entry): int { if w.Bare? then w.word % 2 else 1 }

  predicate Valid(w: Entry) { Bit0(w) == 1 }

  /** A backend's table format: the width of a table, the granule, the height of the root, the root
      slots shared with the boot root, and the leaf attributes whose removal the peers are owed. */
  datatype Format = Format(n: Width, granule: nat, top: nat, kept: set<nat>, owing: set<int>)

  /** Where a table sits: its height above the leaves and the prefix of the pages it holds. */
  datatype Pos = Pos(h: nat, p: nat)

  /** Table memory by frame, the tree's position index, and the frames the allocator has free. */
  datatype Mem = Mem(words: map<int, seq<Entry>>, loc: map<Pos, int>, free: set<int>)

  predicate Frame(f: Format, x: int)
    requires f.granule > 0
  {
    x > 0 && x % f.granule == 0
  }

  predicate Lawful(f: Format) { f.granule > 0 && f.granule % 2 == 0 && f.top >= 1 }

  function Child(f: Format, j: Pos, i: nat): Pos
    requires j.h > 0
  {
    Pos(j.h - 1, Kid(f.n, j.p, i))
  }

  function Parent(f: Format, j: Pos): Pos { Pos(j.h + 1, Par(f.n, j.p)) }

  /** The table position that holds page `v` at height `h`. */
  function Holder(f: Format, v: nat, h: nat): Pos { Pos(h, Up(f.n, v, h + 1)) }

  /** The word in slot `i` of the table at `j`, 0 where there is none. */
  ghost function Word(s: Mem, j: Pos, i: nat): Entry {
    if j in s.loc && s.loc[j] in s.words && i < |s.words[s.loc[j]]| then s.words[s.loc[j]][i] else Zero
  }

  /** Entry `w` at slot `i` of `j` names a table of this space, not a shared root entry. */
  ghost predicate Descends(f: Format, j: Pos, i: nat, w: Entry) {
    w.Table? && !(j.h == f.top && i in f.kept)
  }

  ghost predicate Sited(f: Format, s: Mem, j: Pos)
    requires f.granule > 0 && j in s.loc
  {
    && j.h <= f.top && (j.h == f.top ==> j.p == 0)
    && Frame(f, s.loc[j]) && s.loc[j] !in s.free
    && s.loc[j] in s.words && |s.words[s.loc[j]]| == f.n
  }

  ghost predicate Linked(f: Format, s: Mem, j: Pos)
    requires j in s.loc
  {
    && Parent(f, j) in s.loc
    && var w := Word(s, Parent(f, j), Idx(f.n, j.p));
       Descends(f, Parent(f, j), Idx(f.n, j.p), w) && w.frame == s.loc[j]
  }

  ghost predicate EntryOk(f: Format, s: Mem, j: Pos, i: nat)
    requires j in s.loc
  {
    && (Word(s, j, i).Bare? ==> Word(s, j, i) == Zero)
    && (j.h > 0 && Descends(f, j, i, Word(s, j, i)) ==>
          Child(f, j, i) in s.loc && Word(s, j, i).frame == s.loc[Child(f, j, i)])
  }

  /** The tables reachable from `root` form a tree: every position is linked by its parent's entry,
      no frame sits at two positions, and no linked table is free. */
  ghost predicate Shape(f: Format, root: int, s: Mem)
    requires f.granule > 0
  {
    && Pos(f.top, 0) in s.loc && s.loc[Pos(f.top, 0)] == root
    && (forall j :: j in s.loc ==> Sited(f, s, j))
    && (forall j {:trigger Linked(f, s, j)} :: j in s.loc && j.h < f.top ==> Linked(f, s, j))
    && (forall j, i: nat {:trigger EntryOk(f, s, j, i)} :: j in s.loc && i < f.n ==> EntryOk(f, s, j, i))
    && (forall j, k :: j in s.loc && k in s.loc && s.loc[j] == s.loc[k] ==> j == k)
    && (forall x :: x in s.free ==> Frame(f, x))
  }

  /** The flat view: the leaf word of page `v`, 0 where it has none. */
  ghost function PageAt(f: Format, s: Mem, v: nat): Entry { Word(s, Holder(f, v, 0), Idx(f.n, v)) }

  /** The walk to `v` meets a valid entry at height `h` that names no table. */
  ghost predicate Blocked(f: Format, s: Mem, v: nat, h: nat)
  {
    && Holder(f, v, h) in s.loc
    && var w := Word(s, Holder(f, v, h), Idx(f.n, Up(f.n, v, h)));
       w.Leaf?
  }

  ghost predicate Larger(f: Format, s: Mem, v: nat)
  {
    exists h :: 1 <= h <= f.top && Blocked(f, s, v, h)
  }

  /** Page `x` lies inside the root's reach and clear of the root slots shared with the boot root. */
  ghost predicate Reaches(f: Format, x: nat) {
    Up(f.n, x, f.top + 1) == 0 && Idx(f.n, Up(f.n, x, f.top)) !in f.kept
  }

  ghost predicate InReach(f: Format, v: nat, pages: nat) { forall x :: v <= x < v + pages ==> Reaches(f, x) }

  ghost predicate NonEmpty(f: Format, s: Mem, j: Pos) { exists i: nat :: i < f.n && Word(s, j, i) != Zero }

  /** No table but the root is empty. */
  ghost predicate NoEmpty(f: Format, s: Mem) {
    forall j {:trigger NonEmpty(f, s, j)} :: j in s.loc && j.h < f.top ==> NonEmpty(f, s, j)
  }

  lemma {:induction false} HolderChain(f: Format, root: int, s: Mem, v: nat, g: nat, h: nat)
    requires Lawful(f) && Shape(f, root, s)
    requires g < h <= f.top && Holder(f, v, g) in s.loc
    ensures Holder(f, v, h) in s.loc
    ensures Descends(f, Holder(f, v, h), Idx(f.n, Up(f.n, v, h)), Word(s, Holder(f, v, h), Idx(f.n, Up(f.n, v, h))))
    decreases h
  {
    if g + 1 < h {
      HolderChain(f, root, s, v, g, h - 1);
    }
    assert Linked(f, s, Holder(f, v, h - 1));
  }

  lemma NoneBelow(f: Format, root: int, s: Mem, v: nat, h: nat, g: nat)
    requires Lawful(f) && Shape(f, root, s) && g < h <= f.top
    requires !Word(s, Holder(f, v, h), Idx(f.n, Up(f.n, v, h))).Table?
    ensures Holder(f, v, g) !in s.loc
  {
    if Holder(f, v, g) in s.loc {
      HolderChain(f, root, s, v, g, h);
      assert false;
    }
  }

  lemma NoneAbove(f: Format, root: int, s: Mem, v: nat, h: nat)
    requires Lawful(f) && Shape(f, root, s) && 0 < h <= f.top && Holder(f, v, h) !in s.loc
    ensures Holder(f, v, h - 1) !in s.loc
  {
    if Holder(f, v, h - 1) in s.loc {
      HolderChain(f, root, s, v, h - 1, h);
      assert false;
    }
  }

  lemma LinkedWord(f: Format, root: int, s: Mem, j: Pos, i: nat)
    requires Lawful(f) && Shape(f, root, s) && j in s.loc && j.h > 0 && i < f.n
    ensures Child(f, j, i) in s.loc <==> Descends(f, j, i, Word(s, j, i))
    ensures Child(f, j, i) in s.loc ==> Word(s, j, i).frame == s.loc[Child(f, j, i)]
  {
    assert EntryOk(f, s, j, i);
    assert Sited(f, s, j);
    KidPar(f.n, j.p, i);
    if Child(f, j, i) in s.loc {
      assert Linked(f, s, Child(f, j, i));
    }
  }

  lemma NoOrphan(f: Format, root: int, s: Mem, c: Pos, l: nat)
    requires Lawful(f) && Shape(f, root, s) && c !in s.loc && 0 < c.h <= f.top && l < f.n
    ensures Child(f, c, l) !in s.loc
  {
    KidPar(f.n, c.p, l);
    assert Child(f, c, l) in s.loc ==> Linked(f, s, Child(f, c, l));
  }

  lemma SitedAt(f: Format, root: int, s: Mem, k: Pos)
    requires Lawful(f) && Shape(f, root, s)
    ensures k in s.loc ==> Sited(f, s, k)
  {
  }

  lemma RootThere(f: Format, root: int, s: Mem)
    requires Lawful(f) && Shape(f, root, s)
    ensures Pos(f.top, 0) in s.loc && s.loc[Pos(f.top, 0)] == root
  {
  }

  lemma LeafHolder(f: Format, x: nat)
    ensures Holder(f, x, 0) == Pos(0, Par(f.n, x))
  {
    assert Up(f.n, x, 1) == Par(f.n, Up(f.n, x, 0));
  }

  /** The span of the table at `j` meets [v, v + pages). */
  ghost predicate Touches(f: Format, j: Pos, v: nat, pages: nat) {
    pages > 0 && Up(f.n, v, j.h + 1) <= j.p <= Up(f.n, v + pages - 1, j.h + 1)
  }

  /** [v, v + pages) lies under the table at `k`. */
  ghost predicate Under(f: Format, k: Pos, v: nat, pages: nat) {
    pages > 0 ==> Up(f.n, v, k.h + 1) == k.p && Up(f.n, v + pages - 1, k.h + 1) == k.p
  }

  ghost predicate NoLarger(f: Format, s: Mem, v: nat, pages: nat) {
    forall x, h {:trigger Blocked(f, s, x, h)} :: v <= x < v + pages && 1 <= h <= f.top ==> !Blocked(f, s, x, h)
  }

  lemma TouchesAt(f: Format, x: nat, g: nat, v: nat, pages: nat)
    requires v <= x < v + pages
    ensures Touches(f, Holder(f, x, g), v, pages)
  {
    UpMono(f.n, v, x, g + 1);
    UpMono(f.n, x, v + pages - 1, g + 1);
  }

  lemma TouchesSplit(f: Format, j: Pos, v: nat, d: nat, e: nat)
    requires Touches(f, j, v, d + e)
    ensures Touches(f, j, v, d) || Touches(f, j, v + d, e)
  {
    if d > 0 && e > 0 {
      UpNext(f.n, v + d - 1, j.h + 1);
    }
  }

  lemma TouchesGrow(f: Format, j: Pos, v: nat, pages: nat, d: nat, here: nat)
    requires Touches(f, j, v + d, here) && d + here <= pages
    ensures Touches(f, j, v, pages)
  {
    UpMono(f.n, v, v + d, j.h + 1);
    UpMono(f.n, v + d + here - 1, v + pages - 1, j.h + 1);
  }

  lemma TouchesParent(f: Format, j: Pos, v: nat, pages: nat)
    requires Touches(f, j, v, pages)
    ensures Touches(f, Parent(f, j), v, pages)
  {
    ParMono(f.n, Up(f.n, v, j.h + 1), j.p);
    ParMono(f.n, j.p, Up(f.n, v + pages - 1, j.h + 1));
  }

  lemma TouchesUnder(f: Format, c: Pos, v: nat, here: nat)
    requires Under(f, c, v, here) && here > 0
    ensures Touches(f, c, v, here)
  {
  }

  lemma UnderOnly(f: Format, c: Pos, j: Pos, v: nat, here: nat, e: nat)
    requires Under(f, c, v, here) && Touches(f, j, v, e) && e <= here && j.h == c.h
    ensures j == c
  {
    UpMono(f.n, v + e - 1, v + here - 1, c.h + 1);
  }

  lemma Sandwich(f: Format, k: Pos, v: nat, pages: nat, x: nat)
    requires Under(f, k, v, pages) && v <= x < v + pages
    ensures Holder(f, x, k.h) == k
    ensures k.h > 0 ==> Child(f, k, Idx(f.n, Up(f.n, x, k.h))) == Holder(f, x, k.h - 1)
  {
    UpMono(f.n, v, x, k.h + 1);
    UpMono(f.n, x, v + pages - 1, k.h + 1);
    ParKid(f.n, Up(f.n, x, k.h));
  }

  lemma OpenAt(f: Format, v: nat, pages: nat, at: nat)
    requires InReach(f, v, pages) && v <= at < v + pages
    ensures Idx(f.n, Up(f.n, at, f.top)) !in f.kept
  {
    assert Reaches(f, at);
  }

  lemma Subrange(f: Format, s: Mem, v: nat, pages: nat, at: nat, here: nat)
    requires InReach(f, v, pages) && NoLarger(f, s, v, pages) && v <= at && at + here <= v + pages
    ensures InReach(f, at, here) && NoLarger(f, s, at, here)
  {
  }

  lemma RootUnder(f: Format, v: nat, pages: nat)
    requires InReach(f, v, pages)
    ensures Under(f, Pos(f.top, 0), v, pages)
  {
    if pages > 0 {
      assert Reaches(f, v) && Reaches(f, v + pages - 1);
    }
  }

  /** A page of the range under a table the range touches. */
  lemma TouchedPage(f: Format, j: Pos, v: nat, pages: nat) returns (x: nat)
    requires Touches(f, j, v, pages)
    ensures v <= x < v + pages && Holder(f, x, j.h) == j
  {
    var first := First(f.n, j.h + 1, j.p);
    UpDown(f.n, j.p, j.h + 1);
    if first <= v {
      x := v;
      UpMono(f.n, first, v, j.h + 1);
    } else {
      x := first;
      if v + pages - 1 < first {
        UpLess(f.n, v + pages - 1, j.h + 1, j.p);
        assert false;
      }
    }
  }

  /** The ancestor of `j` at height `g`. */
  ghost function Above(f: Format, j: Pos, g: nat): Pos
    requires j.h <= g
  {
    Pos(g, Up(f.n, j.p, g - j.h))
  }

  lemma {:induction false} AboveIn(f: Format, root: int, s: Mem, j: Pos, g: nat)
    requires Lawful(f) && Shape(f, root, s) && j in s.loc && j.h <= g <= f.top
    ensures Above(f, j, g) in s.loc
    decreases g
  {
    if j.h < g {
      AboveIn(f, root, s, j, g - 1);
      assert Linked(f, s, Above(f, j, g - 1));
    }
  }

  lemma {:induction false} AboveTouches(f: Format, j: Pos, g: nat, v: nat, pages: nat)
    requires Touches(f, j, v, pages) && j.h <= g
    ensures Touches(f, Above(f, j, g), v, pages)
    decreases g
  {
    if j.h < g {
      AboveTouches(f, j, g - 1, v, pages);
      TouchesParent(f, Above(f, j, g - 1), v, pages);
    }
  }

  /** Nothing under an absent table is in the tree. */
  lemma NoneUnder(f: Format, root: int, s: Mem, c: Pos, v: nat, here: nat, j: Pos)
    requires Lawful(f) && Shape(f, root, s) && c !in s.loc && c.h <= f.top && Under(f, c, v, here)
    requires j.h <= c.h && Touches(f, j, v, here)
    ensures j !in s.loc
  {
    AboveTouches(f, j, c.h, v, here);
    UnderOnly(f, c, Above(f, j, c.h), v, here, here);
    if j in s.loc {
      AboveIn(f, root, s, j, c.h);
      assert false;
    }
  }

  lemma EntryChild(f: Format, root: int, s: Mem, k: Pos, at: nat, here: nat)
    requires Lawful(f) && Shape(f, root, s) && k in s.loc && 0 < k.h && Holder(f, at, k.h) == k
    requires InReach(f, at, here) && here > 0
    ensures var i := Idx(f.n, Up(f.n, at, k.h));
            && Child(f, k, i) == Holder(f, at, k.h - 1) && k.h <= f.top
            && (k.h == f.top ==> i !in f.kept)
            && (Word(s, k, i).Table? <==> Holder(f, at, k.h - 1) in s.loc)
            && (Word(s, k, i).Table? ==> Word(s, k, i).frame == s.loc[Holder(f, at, k.h - 1)])
  {
    var i := Idx(f.n, Up(f.n, at, k.h));
    ParKid(f.n, Up(f.n, at, k.h));
    assert Reaches(f, at) && Sited(f, s, k);
    LinkedWord(f, root, s, k, i);
  }

  lemma EntryRange(f: Format, k: Pos, v: nat, pages: nat, at: nat, left: nat)
    requires k.h > 0 && Under(f, k, v, pages) && InReach(f, v, pages) && v <= at && at + left == v + pages && left > 0
    ensures var here := PagesUnder(f.n, at, k.h, left);
            Holder(f, at, k.h) == k && Under(f, Holder(f, at, k.h - 1), at, here) && InReach(f, at, here)
  {
    Sandwich(f, k, v, pages, at);
    PagesUnderEntry(f.n, at, k.h, left);
  }

  /** In a table of the tree only a zero entry has bit 0 clear. */
  lemma TreeWord(f: Format, root: int, s: Mem, k: Pos, i: nat)
    requires Lawful(f) && Shape(f, root, s) && k in s.loc && i < f.n
    ensures Valid(Word(s, k, i)) <==> !Word(s, k, i).Bare?
    ensures !Valid(Word(s, k, i)) ==> Word(s, k, i) == Zero
  {
    assert EntryOk(f, s, k, i);
  }

  /** Once entry `at` of `k` is valid, it names the table that holds page `at` one height down. */
  lemma Descent(f: Format, root: int, s: Mem, k: Pos, v: nat, pages: nat, at: nat)
    requires Lawful(f) && Shape(f, root, s) && k in s.loc && k.h > 0 && Under(f, k, v, pages) && v <= at < v + pages
    requires InReach(f, v, pages) && NoLarger(f, s, v, pages)
    requires Valid(Word(s, k, Idx(f.n, Up(f.n, at, k.h))))
    ensures Word(s, k, Idx(f.n, Up(f.n, at, k.h))).Table?
    ensures Holder(f, at, k.h - 1) in s.loc
    ensures s.loc[Holder(f, at, k.h - 1)] == Word(s, k, Idx(f.n, Up(f.n, at, k.h))).frame
  {
    Sandwich(f, k, v, pages, at);
    assert Sited(f, s, k) && Reaches(f, at);
    assert !Blocked(f, s, at, k.h);
    TreeWord(f, root, s, k, Idx(f.n, Up(f.n, at, k.h)));
    LinkedWord(f, root, s, k, Idx(f.n, Up(f.n, at, k.h)));
  }

  /** One word of the table at `k` stored. */
  ghost function Store(s: Mem, k: Pos, i: nat, w: Entry): Mem
    requires k in s.loc && s.loc[k] in s.words && i < |s.words[s.loc[k]]|
  {
    s.(words := s.words[s.loc[k] := s.words[s.loc[k]][i := w]])
  }

  lemma StoreWord(f: Format, root: int, s: Mem, k: Pos, i: nat, w: Entry, j: Pos, l: nat)
    requires Lawful(f) && Shape(f, root, s) && k in s.loc && i < f.n && j in s.loc && l < f.n
    ensures Sited(f, s, k) && Word(Store(s, k, i, w), j, l) == if j == k && l == i then w else Word(s, j, l)
    ensures Sited(f, s, j) && Sited(f, Store(s, k, i, w), j)
  {
    assert Sited(f, s, k) && Sited(f, s, j);
  }

  lemma StoreLeaf(f: Format, root: int, s: Mem, k: Pos, i: nat, w: Entry)
    requires Lawful(f) && Shape(f, root, s) && k in s.loc && k.h == 0 && i < f.n
    requires w.Bare? ==> w == Zero
    ensures Sited(f, s, k) && Shape(f, root, Store(s, k, i, w))
  {
    var s' := Store(s, k, i, w);
    assert Sited(f, s, k);
    forall j | j in s'.loc
      ensures Sited(f, s', j)
    {
      StoreWord(f, root, s, k, i, w, j, 0);
    }
    forall j | j in s'.loc && j.h < f.top
      ensures Linked(f, s', j)
    {
      assert Linked(f, s, j);
      StoreWord(f, root, s, k, i, w, Parent(f, j), Idx(f.n, j.p));
    }
    forall j, l: nat | j in s'.loc && l < f.n
      ensures EntryOk(f, s', j, l)
    {
      assert EntryOk(f, s, j, l);
      StoreWord(f, root, s, k, i, w, j, l);
    }
  }

  /** A zeroed frame linked at slot `i` of the table at `k`. */
  ghost function Link(f: Format, s: Mem, k: Pos, i: nat, x: int): Mem
    requires k.h > 0 && k in s.loc && s.loc[k] in s.words && i < |s.words[s.loc[k]]|
  {
    Mem(s.words[x := seq(f.n, _ => Zero)][s.loc[k] := s.words[s.loc[k]][i := Table(x)]],
        s.loc[Child(f, k, i) := x], s.free - {x})
  }

  lemma LinkWord(f: Format, root: int, s: Mem, k: Pos, i: nat, x: int, j: Pos, l: nat)
    requires Lawful(f) && Shape(f, root, s) && k in s.loc && k.h > 0 && i < f.n && l < f.n
    requires x in s.free && !Valid(Word(s, k, i)) && (k.h == f.top ==> i !in f.kept)
    ensures Sited(f, s, k) && Child(f, k, i) !in s.loc
    ensures var s' := Link(f, s, k, i, x);
            j in s'.loc ==> Sited(f, s', j) && Word(s', j, l) ==
                            if j == k && l == i then Table(x) else if j == Child(f, k, i) then Zero else Word(s, j, l)
  {
    assert Sited(f, s, k);
    LinkedWord(f, root, s, k, i);
    if j in s.loc {
      assert Sited(f, s, j);
    }
    KidPar(f.n, k.p, i);
  }

  ghost predicate Linkable(f: Format, root: int, s: Mem, k: Pos, i: nat, x: int) {
    && Lawful(f) && Shape(f, root, s) && k in s.loc && k.h > 0 && i < f.n
    && x in s.free && !Valid(Word(s, k, i)) && (k.h == f.top ==> i !in f.kept)
    && Sited(f, s, k)
  }

  lemma LinkLinked(f: Format, root: int, s: Mem, k: Pos, i: nat, x: int, j: Pos)
    requires Linkable(f, root, s, k, i, x)
    requires j in Link(f, s, k, i, x).loc && j.h < f.top
    ensures Linked(f, Link(f, s, k, i, x), j)
  {
    LinkWord(f, root, s, k, i, x, Parent(f, j), Idx(f.n, j.p));
    KidPar(f.n, k.p, i);
    if j != Child(f, k, i) {
      assert Linked(f, s, j);
      ParKid(f.n, j.p);
    }
  }

  lemma LinkEntry(f: Format, root: int, s: Mem, k: Pos, i: nat, x: int, j: Pos, l: nat)
    requires Linkable(f, root, s, k, i, x)
    requires j in Link(f, s, k, i, x).loc && l < f.n
    ensures EntryOk(f, Link(f, s, k, i, x), j, l)
  {
    LinkWord(f, root, s, k, i, x, j, l);
    if j in s.loc {
      assert EntryOk(f, s, j, l);
    }
  }

  lemma LinkShape(f: Format, root: int, s: Mem, k: Pos, i: nat, x: int)
    requires Linkable(f, root, s, k, i, x)
    ensures Shape(f, root, Link(f, s, k, i, x))
  {
    var s' := Link(f, s, k, i, x);
    LinkWord(f, root, s, k, i, x, k, i);
    forall j | j in s'.loc
      ensures Sited(f, s', j)
    {
      LinkWord(f, root, s, k, i, x, j, 0);
    }
    forall j | j in s'.loc && j.h < f.top
      ensures Linked(f, s', j)
    {
      LinkLinked(f, root, s, k, i, x, j);
    }
    forall j, l: nat | j in s'.loc && l < f.n
      ensures EntryOk(f, s', j, l)
    {
      LinkEntry(f, root, s, k, i, x, j, l);
    }
    assert forall j :: j in s.loc ==> Sited(f, s, j);
  }

  lemma LinkFresh(f: Format, root: int, s: Mem, k: Pos, i: nat, x: int)
    requires Linkable(f, root, s, k, i, x)
    ensures Child(f, k, i) !in s.loc && s.loc[k] != x
    ensures var s' := Link(f, s, k, i, x); k in s'.loc && s'.loc[k] == s.loc[k] && Word(s', k, i) == Table(x)
  {
    LinkWord(f, root, s, k, i, x, k, i);
  }

  /** The table at `c`, linked at slot `i` of `k`, taken out of the tree. */
  ghost function Unlink(s: Mem, k: Pos, i: nat, c: Pos): Mem
    requires k in s.loc && s.loc[k] in s.words && i < |s.words[s.loc[k]]|
  {
    Store(s, k, i, Zero).(loc := s.loc - {c})
  }

  ghost predicate Unlinkable(f: Format, root: int, s: Mem, k: Pos, i: nat) {
    && Lawful(f) && Shape(f, root, s) && k in s.loc && k.h > 0 && i < f.n && Sited(f, s, k)
    && Child(f, k, i) in s.loc && !NonEmpty(f, s, Child(f, k, i))
  }

  lemma UnlinkWord(f: Format, root: int, s: Mem, k: Pos, i: nat, j: Pos, l: nat)
    requires Unlinkable(f, root, s, k, i) && l < f.n && j in s.loc && j != Child(f, k, i)
    ensures var s' := Unlink(s, k, i, Child(f, k, i));
            j in s'.loc && Sited(f, s', j) && Word(s', j, l) == if j == k && l == i then Zero else Word(s, j, l)
  {
    StoreWord(f, root, s, k, i, Zero, j, l);
  }

  lemma UnlinkLinked(f: Format, root: int, s: Mem, k: Pos, i: nat, j: Pos)
    requires Unlinkable(f, root, s, k, i) && j in s.loc && j != Child(f, k, i) && j.h < f.top
    ensures Linked(f, Unlink(s, k, i, Child(f, k, i)), j)
  {
    assert Linked(f, s, j);
    ParKid(f.n, j.p);
    if Parent(f, j) == Child(f, k, i) {
      assert false;
    }
    UnlinkWord(f, root, s, k, i, Parent(f, j), Idx(f.n, j.p));
  }

  lemma UnlinkEntry(f: Format, root: int, s: Mem, k: Pos, i: nat, j: Pos, l: nat)
    requires Unlinkable(f, root, s, k, i) && j in s.loc && j != Child(f, k, i) && l < f.n
    ensures EntryOk(f, Unlink(s, k, i, Child(f, k, i)), j, l)
  {
    assert EntryOk(f, s, j, l);
    UnlinkWord(f, root, s, k, i, j, l);
    KidPar(f.n, k.p, i);
    if j.h > 0 {
      KidPar(f.n, j.p, l);
    }
  }

  lemma UnlinkShape(f: Format, root: int, s: Mem, k: Pos, i: nat)
    requires Unlinkable(f, root, s, k, i)
    ensures Shape(f, root, Unlink(s, k, i, Child(f, k, i)))
  {
    var c := Child(f, k, i);
    var s' := Unlink(s, k, i, c);
    forall j | j in s'.loc
      ensures Sited(f, s', j)
    {
      UnlinkWord(f, root, s, k, i, j, 0);
    }
    forall j | j in s'.loc && j.h < f.top
      ensures Linked(f, s', j)
    {
      UnlinkLinked(f, root, s, k, i, j);
    }
    forall j, l: nat | j in s'.loc && l < f.n
      ensures EntryOk(f, s', j, l)
    {
      UnlinkEntry(f, root, s, k, i, j, l);
    }
  }

  lemma UnlinkOut(f: Format, root: int, s: Mem, k: Pos, i: nat)
    requires Unlinkable(f, root, s, k, i)
    ensures var c := Child(f, k, i);
            && k != c && s.loc[k] != s.loc[c] && Sited(f, s, c)
            && forall j :: j in Unlink(s, k, i, c).loc ==> j in s.loc && s.loc[j] != s.loc[c]
  {
    assert Sited(f, s, Child(f, k, i));
  }

  /** The words of a table out of the tree are of no account to it. */
  lemma ShapeOutside(f: Format, root: int, s: Mem, x: int, w: seq<Entry>)
    requires Lawful(f) && Shape(f, root, s) && forall j :: j in s.loc ==> s.loc[j] != x
    ensures Shape(f, root, s.(words := s.words[x := w]))
    ensures forall j, i: nat :: Word(s.(words := s.words[x := w]), j, i) == Word(s, j, i)
  {
    var s' := s.(words := s.words[x := w]);
    forall j, i: nat
      ensures Word(s', j, i) == Word(s, j, i)
    {
    }
    forall j | j in s'.loc
      ensures Sited(f, s', j)
    {
      assert Sited(f, s, j);
    }
    forall j | j in s'.loc && j.h < f.top
      ensures Linked(f, s', j)
    {
      assert Linked(f, s, j);
    }
    forall j, i: nat | j in s'.loc && i < f.n
      ensures EntryOk(f, s', j, i)
    {
      assert EntryOk(f, s, j, i);
    }
  }

  ghost predicate AllUnmapped(f: Format, s: Mem, v: nat, pages: nat) {
    forall x :: v <= x < v + pages ==> !Valid(PageAt(f, s, x))
  }

  ghost predicate AllMapped(f: Format, s: Mem, v: nat, pages: nat) {
    forall x :: v <= x < v + pages ==> Valid(PageAt(f, s, x))
  }

  /** The same tables in the same places with the same entries, and the same frames free. */
  ghost predicate Same(f: Format, s: Mem, s': Mem) {
    && s'.loc == s.loc && s'.free == s.free
    && (forall j, i: nat {:trigger Word(s', j, i)} :: j in s.loc && i < f.n ==> Word(s', j, i) == Word(s, j, i))
  }

  lemma SameSelf(f: Format, s: Mem)
    ensures Same(f, s, s)
  {
  }

  lemma SameNoEmpty(f: Format, s: Mem, s': Mem)
    requires Same(f, s, s') && NoEmpty(f, s)
    ensures NoEmpty(f, s')
  {
    forall j | j in s'.loc && j.h < f.top
      ensures NonEmpty(f, s', j)
    {
      assert NonEmpty(f, s, j);
      var i: nat :| i < f.n && Word(s, j, i) != Zero;
      assert Word(s', j, i) != Zero;
    }
  }

  /** An empty root alone. */
  lemma RootAlone(f: Format, root: int, free: set<int>)
    requires Lawful(f) && Frame(f, root) && root !in free && forall x :: x in free ==> Frame(f, x)
    ensures var s := Mem(map[root := seq(f.n, _ => Zero)], map[Pos(f.top, 0) := root], free);
            Shape(f, root, s) && NoEmpty(f, s) && forall x: nat :: PageAt(f, s, x) == Zero
  {
    var s := Mem(map[root := seq(f.n, _ => Zero)], map[Pos(f.top, 0) := root], free);
    forall j, i: nat | j in s.loc && i < f.n
      ensures EntryOk(f, s, j, i)
    {
      assert Word(s, j, i) == Zero;
    }
  }
}
