/** Walks over a page-table tree in memory (arch/common/aspace_walk.h): mapping and unmapping a range,
    undoing a map that ran out of frames, taking emptied tables out, and counting the tables a map
    is going to link. */
module PageWalk {
  import opened Radix
  import opened Sets
  import opened PageTree
  import opened PageMap
  import opened PageRemove

  datatype Result = Ok | Einval | Enomem

  /** A count kept modulo 2^32. */
  function Wrap(x: int): nat { x % 0x1_0000_0000 }

  lemma WrapStep(x: int, d: int)
    ensures Wrap(Wrap(x) + d) == Wrap(x + d)
  {
  }

  lemma WrapDelta(origin: int, a: int, b: int)
    ensures Wrap(origin + b) == Wrap(Wrap(origin + a) + b - a)
  {
    WrapStep(origin + a, b - a);
  }

  class Walker {
    const f: Format
    const root: int
    var words: map<int, seq<Entry>>
    var free: set<int>
    // The edit in progress: tables linked less tables given back, the detached chain, what is owed.
    var tables: nat
    var detached: int
    var owed: bool
    ghost var loc: map<Pos, int>
    // The detached tables, last detached first, and the table count before any of this space's.
    ghost var chain: seq<int>
    ghost const origin: int

    ghost function S(): Mem
      reads this
    {
      Mem(words, loc, free)
    }

    ghost predicate Wf()
      reads this
    {
      Lawful(f) && Shape(f, root, S()) && tables == Wrap(origin + |loc| + |chain|)
    }

    /** Between calls: nothing is detached and no table but the root is empty. */
    ghost predicate Settled()
      reads this
    {
      Wf() && chain == [] && detached == 0 && NoEmpty(f, S())
    }

    /** A space with an empty root and nothing edited yet. */
    constructor (f: Format, root: int, free: set<int>)
      requires Lawful(f) && Frame(f, root) && root !in free && forall x :: x in free ==> Frame(f, x)
      ensures this.f == f && this.root == root && this.free == free
      ensures Settled() && tables == 0 && !owed && loc == map[Pos(f.top, 0) := root]
      ensures forall x: nat :: PageAt(f, S(), x) == Zero
    {
      this.f, this.root, this.free := f, root, free;
      words := map[root := seq(f.n, _ => Zero)];
      tables, detached, owed := 0, 0, false;
      loc, chain, origin := map[Pos(f.top, 0) := root], [], -1;
      new;
      RootAlone(f, root, free);
    }

    method WalkLeaf(v: nat) returns (found: bool, table: int, idx: nat, larger: bool)
      requires Wf() && InReach(f, v, 1)
      ensures found == Valid(PageAt(f, S(), v))
      ensures larger == Larger(f, S(), v)
      ensures found ==> Holder(f, v, 0) in loc && table == loc[Holder(f, v, 0)] && idx == Idx(f.n, v)
    {
      table, larger, found, idx := root, false, false, 0;
      var height := f.top;
      assert Reaches(f, v);
      while height > 0
        invariant 0 <= height <= f.top
        invariant Holder(f, v, height) in loc && table == loc[Holder(f, v, height)]
        invariant !found && !larger
        invariant forall h :: height < h <= f.top ==> !Blocked(f, S(), v, h)
      {
        ghost var j := Holder(f, v, height);
        assert Sited(f, S(), j);
        var at := Idx(f.n, Up(f.n, v, height));
        var desc := words[table][at];
        assert EntryOk(f, S(), j, at);
        assert desc == Word(S(), j, at);
        ParKid(f.n, Up(f.n, v, height));
        if !Valid(desc) {
          NotBelow(v, height);
          return;
        }
        if !desc.Table? {
          larger := true;
          assert Blocked(f, S(), v, height);
          NotBelow(v, height);
          return;
        }
        assert Descends(f, j, at, desc);
        assert Child(f, j, at) == Holder(f, v, height - 1);
        table := desc.frame;
        height := height - 1;
      }
      idx := Idx(f.n, v);
      assert Sited(f, S(), Holder(f, v, 0));
      found := Valid(words[table][idx]);
    }

    lemma NotBelow(v: nat, height: nat)
      requires Wf() && 1 <= height <= f.top && Holder(f, v, height) in loc
      requires !Word(S(), Holder(f, v, height), Idx(f.n, Up(f.n, v, height))).Table?
      ensures forall g :: 0 <= g < height ==> Holder(f, v, g) !in loc
    {
      forall g | 0 <= g < height
        ensures Holder(f, v, g) !in loc
      {
        if Holder(f, v, g) in loc {
          HolderChain(f, root, S(), v, g, height);
        }
      }
    }

    /** Break before make: a live leaf is cleared, and what its removal owes noted, before the new
        one is stored. */
    method StoreOne(table: int, idx: nat, leaf: Entry)
      requires table in words && idx < |words[table]|
      modifies this`words, this`owed
      ensures words == old(words)[table := old(words)[table][idx := leaf]]
      ensures owed == (old(owed) || (old(words)[table][idx].Leaf? && old(words)[table][idx].attrs in f.owing))
    {
      var w := words[table][idx];
      if Valid(w) {
        if w.Leaf? && w.attrs in f.owing {
          owed := true;
        }
        words := words[table := words[table][idx := Zero]];
        assert words[table][idx := leaf] == old(words)[table][idx := leaf];
      }
      words := words[table := words[table][idx := leaf]];
    }

    method LinkTable(table: int, idx: nat, ghost k: Pos) returns (ok: bool, ghost x: int)
      requires Wf() && k in loc && loc[k] == table && k.h > 0 && idx < f.n
      requires !Valid(Word(S(), k, idx)) && (k.h == f.top ==> idx !in f.kept)
      modifies this`words, this`free, this`tables, this`loc
      ensures Wf() && ok == (old(free) != {})
      ensures !ok ==> S() == old(S()) && Child(f, k, idx) !in loc
      ensures ok ==> Linkable(f, root, old(S()), k, idx, x) && S() == Link(f, old(S()), k, idx, x)
    {
      hide Shape, Wrap;
      SitedAt(f, root, S(), k);
      if free == {} {
        LinkedWord(f, root, S(), k, idx);
        return false, 0;
      }
      SomeIn(free);
      var y :| y in free;
      ghost var s := S();
      LinkShape(f, root, s, k, idx, y);
      LinkFresh(f, root, s, k, idx, y);
      words := words[y := seq(f.n, _ => Zero)];
      words := words[table := words[table][idx := Table(y)]];
      free := free - {y};
      WrapStep(origin + |loc| + |chain|, 1);
      tables := Wrap(tables + 1);
      loc := loc[Child(f, k, idx) := y];
      return true, y;
    }

    /** The table under entry `at` of `table`, linked first where the entry names none. */
    method Reach(table: int, height: nat, v: nat, pages: nat, at: nat,
                 ghost s0: Mem, ghost base: int, ghost attrs: int) returns (ok: bool, child: int)
      requires Wf() && 0 < height <= f.top && v <= at < v + pages
      requires Holder(f, v, height) in loc && loc[Holder(f, v, height)] == table
      requires Under(f, Holder(f, v, height), v, pages)
      requires InReach(f, v, pages) && NoLarger(f, s0, v, pages)
      requires Mapped(f, s0, S(), height, v, pages, at - v, base, attrs)
      modifies this`words, this`free, this`tables, this`loc
      ensures Wf() && (!ok ==> free == {} && Holder(f, at, height - 1) !in loc)
      ensures Mapped(f, s0, S(), height, v, pages, at - v, base, attrs)
      ensures ok ==> Holder(f, at, height - 1) in loc && loc[Holder(f, at, height - 1)] == child
    {
      hide Shape, Mapped, NoLarger, InReach, Touches, Blocked, Link, Linkable, Up, Idx, Wrap, Under, Lawful, Child;
      ghost var k, s := Holder(f, v, height), S();
      Sandwich(f, k, v, pages, at);
      SitedAt(f, root, s, k);
      var idx := Idx(f.n, Up(f.n, at, height));
      if !Valid(words[table][idx]) {
        OpenAt(f, v, pages, at);
        var linked;
        ghost var x;
        linked, x := LinkTable(table, idx, k);
        if !linked {
          return false, 0;
        }
        TouchesAt(f, at, height - 1, v, pages);
        MapLink(f, root, s0, s, k, idx, x, v, pages, at - v, base, attrs);
        LinkFresh(f, root, s, k, idx, x);
      }
      SitedAt(f, root, S(), k);
      NoLargerKept(f, s0, S(), height, v, pages, at - v, base, attrs);
      Descent(f, root, S(), k, v, pages, at);
      return true, words[table][idx].frame;
    }

    method MapLeaves(table: int, v: nat, pages: nat, pa: int, attrs: int, ghost base: int)
      requires Wf() && Under(f, Holder(f, v, 0), v, pages) && pa == AddrFor(f, base, v)
      requires pages > 0 ==> Holder(f, v, 0) in loc && loc[Holder(f, v, 0)] == table
      modifies this`words, this`owed
      ensures Wf() && Mapped(f, old(S()), S(), 0, v, pages, pages, base, attrs)
      ensures owed == (old(owed) || Owes(f, old(S()), v, pages))
    {
      hide Shape, Mapped, Touches, AddrFor, Up, Wrap, Owes;
      ghost var s0, k := S(), Holder(f, v, 0);
      MappedNone(f, root, s0, 0, v, pages, base, attrs);
      OwesNone(f, s0, v);
      var done, out := 0, pa;
      while done != pages
        invariant done <= pages && out == AddrFor(f, base, v + done)
        invariant Wf() && Mapped(f, s0, S(), 0, v, pages, done, base, attrs)
        invariant owed == (old(owed) || Owes(f, s0, v, done))
      {
        var idx := Idx(f.n, v + done);
        Sandwich(f, k, v, pages, v + done);
        SitedAt(f, root, S(), k);
        MappedKeeps(f, s0, S(), 0, v, pages, done, base, attrs, k);
        MapLeaf(f, root, s0, S(), k, v, pages, done, base, attrs);
        OwesSame(f, root, s0, S(), 0, v, pages, done, base, attrs, v + done);
        OwesStep(f, s0, v, done);
        StoreOne(table, idx, Leaf(out, attrs));
        AddrStep(f, base, v + done, 1);
        done, out := done + 1, out + f.granule;
      }
    }

    method MapInto(table: int, height: nat, v: nat, pages: nat, pa: int, attrs: int, ghost base: int)
      returns (ok: bool, ghost done: nat, ghost missing: Pos)
      requires Wf() && height <= f.top
      requires pages > 0 ==> Holder(f, v, height) in loc && loc[Holder(f, v, height)] == table
      requires Under(f, Holder(f, v, height), v, pages)
      requires InReach(f, v, pages) && NoLarger(f, S(), v, pages) && pa == AddrFor(f, base, v)
      modifies this`words, this`free, this`tables, this`loc, this`owed
      decreases height
      ensures Wf()
      ensures Mapped(f, old(S()), S(), height, v, pages, done, base, attrs)
      ensures owed == (old(owed) || Owes(f, old(S()), v, done))
      ensures if ok then done == pages
              else done < pages && free == {} && missing.h < height && Touches(f, missing, v, pages) && missing !in loc
    {
      hide Shape, Mapped, NoLarger, InReach, Touches, Blocked, AddrFor, Up, Idx, Wrap, Lawful, PagesUnder, Owes;
      if height == 0 {
        MapLeaves(table, v, pages, pa, attrs, base);
        return true, pages, Pos(0, 0);
      }
      ghost var s0, k := S(), Holder(f, v, height);
      var at: nat, left: nat, out := v, pages, pa;
      MappedNone(f, root, s0, height, v, pages, base, attrs);
      OwesNone(f, s0, v);
      while left != 0
        invariant at + left == v + pages && v <= at && out == AddrFor(f, base, at)
        invariant Wf() && Mapped(f, s0, S(), height, v, pages, at - v, base, attrs)
        invariant pages > 0 ==> k in loc && loc[k] == table
        invariant owed == (old(owed) || Owes(f, s0, v, at - v))
      {
        var linked, child := Reach(table, height, v, pages, at, s0, base, attrs);
        if !linked {
          TouchesAt(f, at, height - 1, v, pages);
          return false, at - v, Holder(f, at, height - 1);
        }
        ghost var s, c := S(), Holder(f, at, height - 1);
        NoLargerKept(f, s0, s, height, v, pages, at - v, base, attrs);
        var here := PagesUnder(f.n, at, height, left);
        PagesUnderEntry(f.n, at, height, left);
        Subrange(f, s, v, pages, at, here);
        var rc;
        ghost var e, gap;
        rc, e, gap := MapInto(child, height - 1, at, here, out, attrs, base);
        MapCompose(f, root, s0, s, S(), c, v, pages, at - v, here, e, base, attrs);
        OwesSplit(f, root, s0, s, height, v, pages, at - v, e, base, attrs);
        if !rc {
          TouchesGrow(f, gap, v, pages, at - v, here);
          return false, at - v + e, gap;
        }
        MappedKeeps(f, s0, S(), height, v, pages, at - v + e, base, attrs, k);
        AddrStep(f, base, at, here);
        at, out, left := at + here, out + here * f.granule, left - here;
      }
      return true, pages, Pos(0, 0);
    }

    /** Clears the leaves from `v` up to the first page without one. */
    method ClearRun(v: nat, pages: nat) returns (ghost count: nat)
      requires Wf() && InReach(f, v, pages)
      modifies this`words, this`owed
      ensures Wf() && count <= pages && Cleared(f, old(S()), S(), v, count)
      ensures owed == (old(owed) || Owes(f, old(S()), v, count))
      ensures forall x :: v <= x < v + count ==> Valid(PageAt(f, old(S()), x))
      ensures count < pages ==> !Valid(PageAt(f, old(S()), v + count))
    {
      hide Shape, Cleared, Valid, Wrap, Owes;
      ghost var s0 := S();
      var i := 0;
      ClearedNone(f, s0, v);
      OwesNone(f, s0, v);
      while i < pages
        invariant 0 <= i <= pages && Wf() && Cleared(f, s0, S(), v, i)
        invariant forall x :: v <= x < v + i ==> Valid(PageAt(f, s0, x))
        invariant owed == (old(owed) || Owes(f, s0, v, i))
      {
        assert Reaches(f, v + i);
        var found, table, idx, larger := WalkLeaf(v + i);
        ClearedPage(f, s0, S(), v, i, v + i);
        if !found {
          return i;
        }
        ClearOne(f, root, s0, S(), v, i);
        OwesStep(f, s0, v, i);
        var w := words[table][idx];
        if w.Leaf? && w.attrs in f.owing {
          owed := true;
        }
        words := words[table := words[table][idx := Zero]];
        i := i + 1;
      }
      return i;
    }

    method TableEmpty(table: int, ghost j: Pos) returns (empty: bool)
      requires Wf() && j in loc && loc[j] == table
      ensures empty == !NonEmpty(f, S(), j)
    {
      SitedAt(f, root, S(), j);
      var i: nat := 0;
      while i < f.n
        invariant i <= f.n
        invariant forall l: nat :: l < i ==> Word(S(), j, l) == Zero
      {
        assert words[table][i] == Word(S(), j, i);
        if words[table][i] != Zero {
          return false;
        }
        i := i + 1;
      }
      return true;
    }

    /** Zeroes the entry that names an empty table and threads that table in front of the detached. */
    method TakeOut(table: int, idx: nat, child: int, ghost k: Pos)
      requires Wf() && Chained(f, S(), detached, chain) && Unlinkable(f, root, S(), k, idx)
      requires loc[k] == table && loc[Child(f, k, idx)] == child
      modifies this`words, this`detached, this`loc, this`chain
      ensures Wf() && Chained(f, S(), detached, chain) && chain == [child] + old(chain)
      ensures S() == Taken(f, root, old(S()), k, idx, old(detached))
      ensures |loc| + 1 == |old(loc)| && k in loc && loc[k] == table
    {
      hide Shape, Chained, Wrap;
      ghost var s, c := S(), Child(f, k, idx);
      ChainPush(f, root, s, k, idx, detached, chain);
      UnlinkShape(f, root, s, k, idx);
      UnlinkOut(f, root, s, k, idx);
      ShapeOutside(f, root, Unlink(s, k, idx, c), child, Threaded(f, detached));
      EmptyWords(f, root, s, c, detached);
      words := words[table := words[table][idx := Zero]];
      words := words[child := words[child][0 := Bare(detached)]];
      detached := child;
      loc := loc - {c};
      chain := [child] + chain;
    }

    method DetachEntry(table: int, height: nat, at: nat, here: nat, isRoot: bool, ghost k: Pos)
      requires Wf() && Chained(f, S(), detached, chain) && 0 < height <= f.top && here > 0
      requires k.h == height && k in loc && loc[k] == table && isRoot == (height == f.top)
      requires Holder(f, at, height) == k && Under(f, Holder(f, at, height - 1), at, here) && InReach(f, at, here)
      modifies this`words, this`detached, this`loc, this`chain
      decreases height, 0
      ensures Wf() && Chained(f, S(), detached, chain) && k in loc && loc[k] == table
      ensures Pruned(f, old(S()), S(), height, at, here)
      ensures |chain| + |loc| == |old(chain)| + |old(loc)|
      ensures forall x :: x in chain ==> x in old(chain) || x in old(loc).Values
    {
      hide Shape, Chained, Pruned, Unlinkable, Taken, NonEmpty, Under, Wrap, Up, Idx;
      ghost var s, c := S(), Holder(f, at, height - 1);
      SitedAt(f, root, s, k);
      var idx := Idx(f.n, Up(f.n, at, height));
      EntryChild(f, root, s, k, at, here);
      var desc := words[table][idx];
      if desc.Table? && !(isRoot && idx in f.kept) {
        var child, empty := desc.frame, false;
        if height == 1 {
          PruneNone(f, s, 0, at, here);
          empty := TableEmpty(child, c);
        } else {
          empty := DetachEmpty(child, height - 1, at, here, false, c);
        }
        ghost var s' := S();
        PrunedStays(f, root, s, s', k, c, at, here);
        if empty {
          PruneTaken(f, root, s, s', k, idx, at, here, detached);
          TakeOut(table, idx, child, k);
        } else {
          PruneKeep(f, s, s', c, at, here);
        }
      } else {
        PruneAbsent(f, root, s, c, at, here);
      }
    }

    method DetachEmpty(table: int, height: nat, v: nat, pages: nat, isRoot: bool, ghost k: Pos) returns (empty: bool)
      requires Wf() && Chained(f, S(), detached, chain) && 0 < height <= f.top
      requires k.h == height && k in loc && loc[k] == table && isRoot == (height == f.top)
      requires Under(f, k, v, pages) && InReach(f, v, pages)
      modifies this`words, this`detached, this`loc, this`chain
      decreases height, 1
      ensures Wf() && Chained(f, S(), detached, chain) && k in loc && loc[k] == table
      ensures Pruned(f, old(S()), S(), height, v, pages) && empty == !NonEmpty(f, S(), k)
      ensures |chain| + |loc| == |old(chain)| + |old(loc)|
      ensures forall x :: x in chain ==> x in old(chain) || x in old(loc).Values
    {
      hide Shape, Chained, Pruned, NonEmpty, Under, InReach, Wrap, Up, Idx;
      ghost var s := S();
      var at: nat, left: nat := v, pages;
      PruneNone(f, s, height, v, 0);
      while left != 0
        invariant v <= at && at + left == v + pages
        invariant Wf() && Chained(f, S(), detached, chain) && k in loc && loc[k] == table
        invariant Pruned(f, s, S(), height, v, at - v)
        invariant |chain| + |loc| == |old(chain)| + |old(loc)|
        invariant forall x :: x in chain ==> x in old(chain) || x in old(loc).Values
      {
        var here := PagesUnder(f.n, at, height, left);
        EntryRange(f, k, v, pages, at, left);
        ghost var s' := S();
        DetachEntry(table, height, at, here, isRoot, k);
        PruneCompose(f, s, s', S(), height, v, at - v, here);
        PrunedValues(f, s, s', height, v, at - v);
        at, left := at + here, left - here;
      }
      empty := TableEmpty(table, k);
    }

    /** The first detached table back to the allocator. */
    method GiveOne()
      requires Wf() && Chained(f, S(), detached, chain) && chain != []
      modifies this`free, this`tables, this`detached, this`chain
      ensures Wf() && Chained(f, S(), detached, chain) && (chain == [] <==> detached == 0)
      ensures old(chain) == [old(detached)] + chain && old(detached) !in old(free) && free == old(free) + {old(detached)}
    {
      hide Shape, Chained, Wrap;
      ChainPop(f, root, S(), detached, chain);
      ChainFirst(f, S(), detached, chain);
      var table := detached;
      detached := words[table][0].word;
      free := free + {table};
      WrapStep(origin + |loc| + |chain|, -1);
      tables := Wrap(tables - 1);
      chain := chain[1..];
      ChainHead(f, S(), detached, chain);
    }

    /** Gives every detached table back to the allocator. */
    method GiveBack()
      requires Wf() && Chained(f, S(), detached, chain)
      modifies this`free, this`tables, this`detached, this`chain
      ensures Wf() && chain == [] && detached == 0
      ensures old(free) <= free && forall x :: x in free ==> x in old(free) || x in old(chain)
      ensures |free| == |old(free)| + |old(chain)|
    {
      hide Shape, Chained, Wrap;
      HeadHere();
      while detached != 0
        invariant Wf() && Chained(f, S(), detached, chain) && (chain == [] <==> detached == 0)
        invariant old(free) <= free && forall x :: x in free ==> x in old(free) || x in old(chain)
        invariant |free| + |chain| == |old(free)| + |old(chain)|
        invariant forall x :: x in chain ==> x in old(chain)
        decreases |chain|
      {
        GiveOne();
      }
    }

    lemma HeadHere()
      requires Wf() && Chained(f, S(), detached, chain)
      ensures chain == [] <==> detached == 0
    {
      ChainHead(f, S(), detached, chain);
    }

    /** Clears the run's leaves, takes the emptied tables out, then gives them back. */
    method RemoveRun(v: nat, pages: nat) returns (ghost count: nat, ghost s1: Mem, ghost s2: Mem)
      requires Wf() && chain == [] && detached == 0 && InReach(f, v, pages)
      modifies this`words, this`owed, this`detached, this`loc, this`chain, this`free, this`tables
      ensures Wf() && chain == [] && detached == 0
      ensures count <= pages && Shape(f, root, s1) && Cleared(f, old(S()), s1, v, count)
      ensures owed == (old(owed) || Owes(f, old(S()), v, count))
      ensures forall x :: v <= x < v + count ==> Valid(PageAt(f, old(S()), x))
      ensures count < pages ==> !Valid(PageAt(f, old(S()), v + count))
      ensures Shape(f, root, s2) && Pruned(f, s1, s2, f.top, v, pages) && S() == s2.(free := free)
      ensures s2.free <= free && (forall x :: x in free ==> x in s2.free || x in s1.loc.Values)
      ensures |free| + |loc| == |s1.free| + |s1.loc|
    {
      hide Shape, Cleared, Pruned, Wrap, Valid, Owes;
      count := ClearRun(v, pages);
      s1 := S();
      RootUnder(f, v, pages);
      RootThere(f, root, s1);
      ChainNone(f, s1);
      var empty := DetachEmpty(root, f.top, v, pages, true, Pos(f.top, 0));
      s2 := S();
      PrunedFree(f, s1, s2, f.top, v, pages);
      GiveBack();
    }

    /** Refuses, before any edit, a range a larger leaf covers and one partly mapped. */
    method Admit(v: nat, pages: nat) returns (ok: bool)
      requires Settled() && InReach(f, v, pages)
      ensures ok == !Refused(f, S(), v, pages)
    {
      hide Shape, Blocked, NoEmpty, Wrap, Valid;
      var mapped, i := 0, 0;
      while i < pages
        invariant 0 <= mapped <= i <= pages
        invariant mapped == 0 <==> AllUnmapped(f, S(), v, i)
        invariant mapped == i <==> AllMapped(f, S(), v, i)
        invariant NoLarger(f, S(), v, i)
      {
        assert Reaches(f, v + i);
        var found, table, idx, larger := WalkLeaf(v + i);
        if found {
          mapped := mapped + 1;
        }
        if larger {
          return false;
        }
        assert forall h {:trigger Blocked(f, S(), v + i, h)} :: 1 <= h <= f.top ==> !Blocked(f, S(), v + i, h);
        i := i + 1;
      }
      return mapped == 0 || mapped == pages;
    }

    method WalkMap(v: nat, pa: int, pages: nat, attrs: int) returns (rc: Result)
      requires Settled() && InReach(f, v, pages)
      modifies this
      ensures Settled()
      ensures rc == Einval <==> Refused(f, old(S()), v, pages)
      ensures rc != Einval ==> (rc == Enomem <==> |old(free)| < |Needed(f, old(S()), v, pages)|)
      ensures rc == Ok ==> forall x: nat ::
                PageAt(f, S(), x) ==
                    (if v <= x < v + pages then Leaf(pa + (x - v) * f.granule, attrs) else PageAt(f, old(S()), x))
      ensures rc == Ok ==> loc.Keys == old(loc).Keys + Needed(f, old(S()), v, pages)
      ensures rc == Ok ==> owed == (old(owed) || Owes(f, old(S()), v, pages))
      ensures rc != Ok ==> Same(f, old(S()), S())
      ensures tables == Wrap(old(tables) + |loc| - |old(loc)|)
    {
      hide Shape, Mapped, NoEmpty, Refused, Needed, Wrap, AllMapped, AllUnmapped, Same, Touches, Owes;
      ghost var s := S();
      ghost var base := pa - v * f.granule;
      var ok := Admit(v, pages);
      if !ok {
        SameSelf(f, s);
        WrapDelta(origin, |loc|, |loc|);
        return Einval;
      }
      AdmitMeans(f, s, v, pages);
      RootUnder(f, v, pages);
      RootThere(f, root, s);
      ghost var done, missing;
      assert pages > 0 ==> Holder(f, v, f.top) == Pos(f.top, 0);
      ok, done, missing := MapInto(root, f.top, v, pages, pa, attrs, base);
      ghost var s1 := S();
      if !ok {
        MapShort(f, s, s1, v, pages, done, base, attrs, missing);
        NotMapped(f, root, s, v, pages);
        ghost var count, s2, s3;
        count, s2, s3 := RemoveRun(v, pages);
        PrefixCleared(f, root, s, s1, v, pages, done, base, attrs, count);
        UnwindRestores(f, root, s, s1, s2, s3, v, pages, done, base, attrs, free);
        SameNoEmpty(f, s, S());
        WrapDelta(origin, |s.loc|, |loc|);
        return Enomem;
      }
      MapLinksNeeded(f, s, s1, v, pages, base, attrs);
      MapSettles(f, root, s, s1, v, pages, pa, attrs, base);
      WrapDelta(origin, |s.loc|, |loc|);
      return Ok;
    }

    method WalkUnmap(v: nat, pages: nat) returns (rc: Result)
      requires Settled() && InReach(f, v, pages)
      modifies this
      ensures Settled()
      ensures rc == if AllMapped(f, old(S()), v, pages) then Ok else Einval
      ensures rc == Ok ==> forall x: nat :: PageAt(f, S(), x) == if v <= x < v + pages then Zero else PageAt(f, old(S()), x)
      ensures rc == Ok ==> loc.Keys <= old(loc).Keys && old(free) <= free && |free| + |loc| == |old(free)| + |old(loc)|
      ensures rc != Ok ==> S() == old(S())
      ensures owed == (old(owed) || (rc == Ok && Owes(f, old(S()), v, pages)))
      ensures tables == Wrap(old(tables) + |loc| - |old(loc)|)
    {
      hide Shape, Cleared, Pruned, NoEmpty, Wrap, Valid, Owes;
      ghost var s := S();
      var i := 0;
      while i < pages
        invariant 0 <= i <= pages && AllMapped(f, s, v, i)
        modifies {}
      {
        assert Reaches(f, v + i);
        var found, table, idx, larger := WalkLeaf(v + i);
        if !found {
          WrapDelta(origin, |loc|, |loc|);
          return Einval;
        }
        i := i + 1;
      }
      ghost var count, s1, s2;
      count, s1, s2 := RemoveRun(v, pages);
      UnmapSettles(f, root, s, s1, s2, v, pages, free);
      WrapDelta(origin, |s.loc|, |loc|);
      return Ok;
    }

    /** The table whose entries at `height` hold page `at`, where the walk meets one. */
    method TableHolding(at: nat, height: nat) returns (found: bool, table: int)
      requires Wf() && Reaches(f, at) && height <= f.top
      ensures found <==> Holder(f, at, height) in loc
      ensures found ==> table == loc[Holder(f, at, height)]
    {
      hide Shape;
      table := root;
      RootThere(f, root, S());
      var h := f.top;
      while h > height
        invariant height <= h <= f.top
        invariant Holder(f, at, h) in loc && table == loc[Holder(f, at, h)]
      {
        ghost var j := Holder(f, at, h);
        SitedAt(f, root, S(), j);
        EntryChild(f, root, S(), j, at, 1);
        var desc := words[table][Idx(f.n, Up(f.n, at, h))];
        if !desc.Table? {
          assert desc == Word(S(), j, Idx(f.n, Up(f.n, at, h)));
          NoneBelow(f, root, S(), at, h, height);
          return false, 0;
        }
        table := desc.frame;
        h := h - 1;
      }
      return true, table;
    }

    /** The tables a map of [v, v + pages) would add, counted height by height without recursion. */
    method TablesNeeded(v: nat, pages: nat) returns (count: nat)
      requires Wf() && InReach(f, v, pages) && NoLarger(f, S(), v, pages)
      ensures count == |Needed(f, S(), v, pages)|
    {
      count := 0;
      if pages == 0 {
        return;
      }
      hide Shape, Needed, Swept, NoLarger, InReach, Up;
      ghost var need := Needed(f, S(), v, pages);
      var last := v + (pages - 1);
      var h: nat := f.top;
      SweptAll(f, S(), v, pages);
      while h > 0
        invariant h <= f.top
        invariant count == |Swept(need, h, 0)|
      {
        var p, end := Up(f.n, v, h), Up(f.n, last, h) + 1;
        UpMono(f.n, v, last, h);
        SweptRow(f, S(), v, pages, h);
        while p < end
          invariant Up(f.n, v, h) <= p <= end
          invariant count == |Swept(need, h, p)|
        {
          var missing := ChunkMissing(v, pages, h, p);
          SweptStep(need, h, p);
          if missing {
            count := count + 1;
          }
          p := p + 1;
        }
        h := h - 1;
      }
    }

    method ChunkMissing(v: nat, pages: nat, h: nat, p: nat) returns (missing: bool)
      requires Wf() && InReach(f, v, pages) && NoLarger(f, S(), v, pages) && 1 <= h <= f.top
      requires pages > 0 && Up(f.n, v, h) <= p <= Up(f.n, v + pages - 1, h)
      ensures missing == (Pos(h - 1, p) in Needed(f, S(), v, pages))
    {
      hide Shape, NoLarger, InReach, Needed, First;
      NeededIn(f, S(), v, pages, Pos(h - 1, p));
      ChunkSeen(f, S(), v, pages, h, p);
      var at := First(f.n, h, p);
      var found, table := TableHolding(at, h);
      if !found {
        NoneAbove(f, root, S(), at, h);
        return true;
      }
      ghost var j := Holder(f, at, h);
      SitedAt(f, root, S(), j);
      EntryChild(f, root, S(), j, at, 1);
      var w := words[table][Idx(f.n, p)];
      assert w == Word(S(), j, Idx(f.n, p)) && !Blocked(f, S(), at, h);
      TreeWord(f, root, S(), j, Idx(f.n, p));
      return !Valid(w);
    }
  }
}
