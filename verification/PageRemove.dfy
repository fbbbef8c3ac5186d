/** What removing a run of pages does to the tree, and what the unwind of a failed map restores. */
module PageRemove {
  import opened Radix
  import opened Sets
  import opened PageTree
  import opened PageMap

  /** `s'` is `s` with the leaves of [v, v + count) cleared. */
  ghost predicate Cleared(f: Format, s: Mem, s': Mem, v: nat, count: nat) {
    && s'.loc == s.loc && s'.free == s.free
    && (forall j, i: nat {:trigger Word(s', j, i)} :: j in s.loc && i < f.n ==>
          Word(s', j, i) == if j.h == 0 && v <= Kid(f.n, j.p, i) < v + count then Zero else Word(s, j, i))
  }

  lemma ClearedNone(f: Format, s: Mem, v: nat)
    ensures Cleared(f, s, s, v, 0)
  {
  }

  lemma ClearedPage(f: Format, s: Mem, s': Mem, v: nat, count: nat, x: nat)
    requires Cleared(f, s, s', v, count)
    ensures PageAt(f, s', x) == if v <= x < v + count then Zero else PageAt(f, s, x)
  {
    LeafHolder(f, x);
    ParKid(f.n, x);
    var j := Holder(f, x, 0);
    if j in s.loc {
      assert Word(s', j, Idx(f.n, x)) ==
             if j.h == 0 && v <= Kid(f.n, j.p, Idx(f.n, x)) < v + count then Zero else Word(s, j, Idx(f.n, x));
    }
  }

  lemma ClearOne(f: Format, root: int, s0: Mem, s: Mem, v: nat, d: nat)
    requires Lawful(f) && Shape(f, root, s) && Cleared(f, s0, s, v, d) && Holder(f, v + d, 0) in s.loc
    ensures Sited(f, s, Holder(f, v + d, 0))
    ensures var s' := Store(s, Holder(f, v + d, 0), Idx(f.n, v + d), Zero);
            Shape(f, root, s') && Cleared(f, s0, s', v, d + 1)
  {
    var k, at := Holder(f, v + d, 0), Idx(f.n, v + d);
    StoreLeaf(f, root, s, k, at, Zero);
    var s' := Store(s, k, at, Zero);
    forall j, i: nat | j in s.loc && i < f.n
      ensures Word(s', j, i) == if j.h == 0 && v <= Kid(f.n, j.p, i) < v + (d + 1) then Zero else Word(s0, j, i)
    {
      LeafHolder(f, v + d);
      StoreWord(f, root, s, k, at, Zero, j, i);
      KidPar(f.n, j.p, i);
      ParKid(f.n, v + d);
      assert Word(s, j, i) == if j.h == 0 && v <= Kid(f.n, j.p, i) < v + d then Zero else Word(s0, j, i);
    }
  }

  lemma SameTables(f: Format, s: Mem, s': Mem, v: nat, count: nat)
    requires Cleared(f, s, s', v, count)
    ensures s'.loc == s.loc && s'.free == s.free
  {
  }

  ghost predicate Gone(s: Mem, s': Mem, j: Pos) { j in s.loc && j !in s'.loc }

  /** What pruning leaves in slot `i` of the table at `j`: an entry naming a table taken out is zeroed. */
  ghost function PrunedWord(f: Format, s: Mem, s': Mem, j: Pos, i: nat): Entry {
    if j.h > 0 && Gone(s, s', Child(f, j, i)) then Zero else Word(s, j, i)
  }

  /** `s'` is `s` with exactly the tables below height `H` that [v, v + pages) reaches and that are
      left empty taken out: none taken out held an entry, none reached and left in is empty. */
  ghost predicate Pruned(f: Format, s: Mem, s': Mem, H: nat, v: nat, pages: nat) {
    && s'.free == s.free
    && (forall j {:trigger j in s'.loc} :: j in s'.loc ==> j in s.loc && s'.loc[j] == s.loc[j])
    && (forall j {:trigger Gone(s, s', j)} :: Gone(s, s', j) ==> j.h < H && Touches(f, j, v, pages))
    && (forall j, i: nat {:trigger PrunedWord(f, s, s', j, i)} :: Gone(s, s', j) && i < f.n ==>
          PrunedWord(f, s, s', j, i) == Zero)
    && (forall j, i: nat {:trigger Word(s', j, i)} :: j in s'.loc && i < f.n ==>
          Word(s', j, i) == PrunedWord(f, s, s', j, i))
    && (forall j {:trigger NonEmpty(f, s', j)} :: j in s'.loc && j.h < H && Touches(f, j, v, pages) ==>
          NonEmpty(f, s', j))
  }

  lemma PruneNone(f: Format, s: Mem, H: nat, v: nat, pages: nat)
    requires H == 0 || pages == 0
    ensures Pruned(f, s, s, H, v, pages)
  {
  }

  lemma PruneAbsent(f: Format, root: int, s: Mem, c: Pos, v: nat, here: nat)
    requires Lawful(f) && Shape(f, root, s) && c !in s.loc && c.h <= f.top && Under(f, c, v, here)
    ensures Pruned(f, s, s, c.h + 1, v, here)
  {
    forall j: Pos | j.h < c.h + 1 && Touches(f, j, v, here)
      ensures j !in s.loc
    {
      NoneUnder(f, root, s, c, v, here, j);
    }
  }

  lemma PruneKeep(f: Format, s: Mem, s': Mem, c: Pos, v: nat, here: nat)
    requires Pruned(f, s, s', c.h, v, here) && NonEmpty(f, s', c) && Under(f, c, v, here)
    ensures Pruned(f, s, s', c.h + 1, v, here)
  {
    forall j | j in s'.loc && j.h < c.h + 1 && Touches(f, j, v, here)
      ensures NonEmpty(f, s', j)
    {
      if j.h == c.h {
        UnderOnly(f, c, j, v, here, here);
      }
    }
  }

  lemma PruneTakeWord(f: Format, root: int, s: Mem, s': Mem, k: Pos, i: nat, v: nat, here: nat, j: Pos, l: nat)
    requires Unlinkable(f, root, s', k, i) && Pruned(f, s, s', k.h - 1, v, here)
    requires j in s.loc && l < f.n && k.h > 0
    ensures var c := Child(f, k, i); var t := Unlink(s', k, i, c);
            && (Gone(s, t, j) ==> PrunedWord(f, s, t, j, l) == Zero)
            && (j in t.loc ==> Word(t, j, l) == PrunedWord(f, s, t, j, l))
  {
    hide Touches;
    var c := Child(f, k, i);
    KidPar(f.n, k.p, i);
    if j.h > 0 {
      KidPar(f.n, j.p, l);
    }
    if j in s'.loc {
      assert Word(s', j, l) == PrunedWord(f, s, s', j, l);
      if j != c {
        UnlinkWord(f, root, s', k, i, j, l);
      }
    } else {
      assert PrunedWord(f, s, s', j, l) == Zero;
    }
  }

  lemma PruneTakeKeeps(f: Format, root: int, s: Mem, s': Mem, k: Pos, i: nat, v: nat, here: nat, j: Pos)
    requires Unlinkable(f, root, s', k, i) && Pruned(f, s, s', k.h - 1, v, here) && Under(f, Child(f, k, i), v, here)
    requires j in s'.loc && j != Child(f, k, i) && j.h < k.h && Touches(f, j, v, here)
    ensures NonEmpty(f, Unlink(s', k, i, Child(f, k, i)), j)
  {
    var c := Child(f, k, i);
    var t := Unlink(s', k, i, c);
    if j.h == c.h {
      UnderOnly(f, c, j, v, here, here);
      assert false;
    }
    assert NonEmpty(f, s', j);
    var l: nat :| l < f.n && Word(s', j, l) != Zero;
    UnlinkWord(f, root, s', k, i, j, l);
    assert Word(t, j, l) != Zero;
  }

  lemma PruneTake(f: Format, root: int, s: Mem, s': Mem, k: Pos, i: nat, v: nat, here: nat)
    requires Unlinkable(f, root, s', k, i) && Pruned(f, s, s', k.h - 1, v, here)
    requires Under(f, Child(f, k, i), v, here) && here > 0
    ensures Pruned(f, s, Unlink(s', k, i, Child(f, k, i)), k.h, v, here)
  {
    hide Touches, NonEmpty, PrunedWord, Word, Shape;
    var c := Child(f, k, i);
    var t := Unlink(s', k, i, c);
    TouchesUnder(f, c, v, here);
    forall j, l: nat | j in s.loc && l < f.n
      ensures Gone(s, t, j) ==> PrunedWord(f, s, t, j, l) == Zero
      ensures j in t.loc ==> Word(t, j, l) == PrunedWord(f, s, t, j, l)
    {
      PruneTakeWord(f, root, s, s', k, i, v, here, j, l);
    }
    forall j | j in t.loc && j.h < k.h && Touches(f, j, v, here)
      ensures NonEmpty(f, t, j)
    {
      PruneTakeKeeps(f, root, s, s', k, i, v, here, j);
    }
    forall j | Gone(s, t, j)
      ensures j.h < k.h && Touches(f, j, v, here)
    {
      if j != c {
        assert Gone(s, s', j);
      }
    }
  }

  lemma PruneComposeWord(f: Format, s0: Mem, s1: Mem, s2: Mem, H: nat, v: nat, d: nat, here: nat, j: Pos, i: nat)
    requires Pruned(f, s0, s1, H, v, d) && Pruned(f, s1, s2, H, v + d, here) && j in s0.loc && i < f.n
    ensures Gone(s0, s2, j) ==> PrunedWord(f, s0, s2, j, i) == Zero
    ensures j in s2.loc ==> Word(s2, j, i) == PrunedWord(f, s0, s2, j, i)
  {
    hide Touches, NonEmpty;
    if j.h > 0 {
      var c := Child(f, j, i);
      assert c in s2.loc ==> c in s1.loc;
      assert c in s1.loc ==> c in s0.loc;
    }
    if j in s1.loc {
      assert Word(s1, j, i) == PrunedWord(f, s0, s1, j, i);
      if j in s2.loc {
        assert Word(s2, j, i) == PrunedWord(f, s1, s2, j, i);
      } else {
        assert PrunedWord(f, s1, s2, j, i) == Zero;
      }
    } else {
      assert PrunedWord(f, s0, s1, j, i) == Zero;
    }
  }

  lemma PruneComposeKeeps(f: Format, s0: Mem, s1: Mem, s2: Mem, H: nat, v: nat, d: nat, here: nat, j: Pos)
    requires Pruned(f, s0, s1, H, v, d) && Pruned(f, s1, s2, H, v + d, here) && here > 0
    requires j in s2.loc && j.h < H && Touches(f, j, v, d + here)
    ensures NonEmpty(f, s2, j)
  {
    hide Touches, NonEmpty, PrunedWord, Word;
    assert j in s1.loc;
    TouchesSplit(f, j, v, d, here);
    if !Touches(f, j, v + d, here) {
      assert NonEmpty(f, s1, j);
      PrunedElsewhere(f, s1, s2, H, v + d, here, j);
    }
  }

  /** A table the range does not touch keeps an entry it has. */
  lemma PrunedElsewhere(f: Format, s: Mem, t: Mem, H: nat, v: nat, here: nat, j: Pos)
    requires Pruned(f, s, t, H, v, here) && j in t.loc && !Touches(f, j, v, here) && NonEmpty(f, s, j)
    ensures NonEmpty(f, t, j)
  {
    hide Touches;
    var i: nat :| i < f.n && Word(s, j, i) != Zero;
    if j.h > 0 && Gone(s, t, Child(f, j, i)) {
      KidPar(f.n, j.p, i);
      TouchesParent(f, Child(f, j, i), v, here);
      assert false;
    }
    assert Word(t, j, i) == PrunedWord(f, s, t, j, i);
  }

  lemma PruneCompose(f: Format, s0: Mem, s1: Mem, s2: Mem, H: nat, v: nat, d: nat, here: nat)
    requires Pruned(f, s0, s1, H, v, d) && Pruned(f, s1, s2, H, v + d, here) && here > 0
    ensures Pruned(f, s0, s2, H, v, d + here)
  {
    hide Touches, NonEmpty, PrunedWord, Word;
    forall j | j in s2.loc
      ensures j in s0.loc && s2.loc[j] == s0.loc[j]
    {
      assert j in s1.loc;
    }
    forall j, i: nat | j in s0.loc && i < f.n
      ensures Gone(s0, s2, j) ==> PrunedWord(f, s0, s2, j, i) == Zero
      ensures j in s2.loc ==> Word(s2, j, i) == PrunedWord(f, s0, s2, j, i)
    {
      PruneComposeWord(f, s0, s1, s2, H, v, d, here, j, i);
    }
    forall j | j in s2.loc && j.h < H && Touches(f, j, v, d + here)
      ensures NonEmpty(f, s2, j)
    {
      PruneComposeKeeps(f, s0, s1, s2, H, v, d, here, j);
    }
    forall j | Gone(s0, s2, j)
      ensures j.h < H && Touches(f, j, v, d + here)
    {
      if j in s1.loc {
        assert Gone(s1, s2, j);
        TouchesGrow(f, j, v, d + here, d, here);
      } else {
        assert Gone(s0, s1, j);
        TouchesGrow(f, j, v, d + here, 0, d);
      }
    }
  }

  lemma PrunedOutside(f: Format, s: Mem, t: Mem, H: nat, v: nat, pages: nat, x: int, w: seq<Entry>)
    requires Pruned(f, s, t, H, v, pages) && forall j :: j in t.loc ==> t.loc[j] != x
    ensures Pruned(f, s, t.(words := t.words[x := w]), H, v, pages)
  {
    var t' := t.(words := t.words[x := w]);
    forall j, i: nat
      ensures Word(t', j, i) == Word(t, j, i)
    {
    }
    forall j, i: nat
      ensures PrunedWord(f, s, t', j, i) == PrunedWord(f, s, t, j, i)
    {
    }
    forall j | Gone(s, t', j)
      ensures Gone(s, t, j)
    {
    }
    forall j | j in t'.loc && j.h < H && Touches(f, j, v, pages)
      ensures NonEmpty(f, t', j)
    {
      assert NonEmpty(f, t, j);
      var i: nat :| i < f.n && Word(t, j, i) != Zero;
      assert Word(t', j, i) != Zero;
    }
  }

  /** Pruning below `c` leaves `c`, its parent `k` and the entry between them in place. */
  lemma PrunedStays(f: Format, root: int, s: Mem, s': Mem, k: Pos, c: Pos, at: nat, here: nat)
    requires Lawful(f) && Shape(f, root, s) && Shape(f, root, s') && Pruned(f, s, s', c.h, at, here)
    requires k in s.loc && c in s.loc && k.h == c.h + 1 && k.h <= f.top
    requires Child(f, k, Idx(f.n, Up(f.n, at, k.h))) == c
    ensures k in s'.loc && s'.loc[k] == s.loc[k] && c in s'.loc && s'.loc[c] == s.loc[c]
    ensures !NonEmpty(f, s', c) ==> Unlinkable(f, root, s', k, Idx(f.n, Up(f.n, at, k.h)))
  {
    assert !Gone(s, s', k) && !Gone(s, s', c);
    assert Sited(f, s', k);
  }

  lemma PrunedValues(f: Format, s: Mem, s': Mem, H: nat, v: nat, pages: nat)
    requires Pruned(f, s, s', H, v, pages)
    ensures s'.loc.Values <= s.loc.Values
  {
  }

  lemma PrunedFree(f: Format, s: Mem, s': Mem, H: nat, v: nat, pages: nat)
    requires Pruned(f, s, s', H, v, pages)
    ensures s'.free == s.free
  {
  }

  /** The tree with the empty table at slot `i` of `k` unlinked and threaded onto the detached. */
  ghost function Taken(f: Format, root: int, s: Mem, k: Pos, i: nat, detached: int): Mem
    requires Unlinkable(f, root, s, k, i)
  {
    var t := Unlink(s, k, i, Child(f, k, i));
    t.(words := t.words[s.loc[Child(f, k, i)] := Threaded(f, detached)])
  }

  lemma PruneTaken(f: Format, root: int, s: Mem, s': Mem, k: Pos, i: nat, v: nat, here: nat, detached: int)
    requires Unlinkable(f, root, s', k, i) && Pruned(f, s, s', k.h - 1, v, here)
    requires Under(f, Child(f, k, i), v, here) && here > 0
    ensures Pruned(f, s, Taken(f, root, s', k, i, detached), k.h, v, here)
  {
    hide Pruned, Shape;
    PruneTake(f, root, s, s', k, i, v, here);
    UnlinkOut(f, root, s', k, i);
    PrunedOutside(f, s, Unlink(s', k, i, Child(f, k, i)), k.h, v, here, s'.loc[Child(f, k, i)], Threaded(f, detached));
  }

  lemma EmptyWords(f: Format, root: int, s: Mem, c: Pos, detached: int)
    requires Lawful(f) && Shape(f, root, s) && c in s.loc && !NonEmpty(f, s, c)
    ensures Sited(f, s, c)
    ensures s.words[s.loc[c]][0 := Bare(detached)] == Threaded(f, detached)
  {
    assert Sited(f, s, c);
    forall i: nat | i < f.n
      ensures s.words[s.loc[c]][i] == Zero
    {
      assert Word(s, c, i) == Zero;
    }
  }

  /** The words of a detached table: its first entry keeps the next one, every other is zero. */
  function Threaded(f: Format, next: int): seq<Entry> {
    seq(f.n, i => if i == 0 then Bare(next) else Zero)
  }

  function NextOf(chain: seq<int>, i: nat): int { if i + 1 < |chain| then chain[i + 1] else 0 }

  /** `chain` is the detached list that starts at `detached`, out of the tree and not yet free. */
  ghost predicate Chained(f: Format, s: Mem, detached: int, chain: seq<int>)
    requires f.granule > 0
  {
    && detached == (if chain == [] then 0 else chain[0])
    && (forall i {:trigger chain[i]} :: 0 <= i < |chain| ==>
          && Frame(f, chain[i]) && chain[i] !in s.free && chain[i] in s.words
          && s.words[chain[i]] == Threaded(f, NextOf(chain, i)))
    && (forall i, l {:trigger chain[i], chain[l]} :: 0 <= i < l < |chain| ==> chain[i] != chain[l])
    && (forall j, i {:trigger s.loc[j], chain[i]} :: j in s.loc && 0 <= i < |chain| ==> s.loc[j] != chain[i])
  }

  /** A frame of an even granule has bit 0 clear. */
  lemma FrameEven(f: Format, x: int)
    requires Lawful(f) && Frame(f, x)
    ensures x % 2 == 0
  {
    var g, q := f.granule / 2, x / f.granule;
    assert x == f.granule * q == 2 * (g * q);
  }

  /** A walk still holding a detached table finds bit 0 clear in every entry, the first one being the
      next detached table's own address. */
  lemma DetachedReadsInvalid(f: Format, s: Mem, detached: int, chain: seq<int>, l: nat, i: nat)
    requires Lawful(f) && Chained(f, s, detached, chain) && l < |chain| && i < f.n
    ensures chain[l] in s.words && i < |s.words[chain[l]]| && !Valid(s.words[chain[l]][i])
    ensures s.words[chain[l]][0] == Bare(NextOf(chain, l))
  {
    if l + 1 < |chain| {
      FrameEven(f, chain[l + 1]);
    }
  }

  /** Unlinking `c` and threading it in front of `chain`. */
  lemma ChainPush(f: Format, root: int, s: Mem, k: Pos, i: nat, detached: int, chain: seq<int>)
    requires Unlinkable(f, root, s, k, i) && Chained(f, s, detached, chain)
    ensures var c := Child(f, k, i); var x := s.loc[c];
            && x in s.words && x != s.loc[k]
            && var t := Unlink(s, k, i, c);
               var t' := t.(words := t.words[x := Threaded(f, detached)]);
               Chained(f, t', x, [x] + chain)
  {
    var c := Child(f, k, i);
    var x := s.loc[c];
    assert Sited(f, s, c) && Sited(f, s, k);
    var t := Unlink(s, k, i, c);
    var t', chain' := t.(words := t.words[x := Threaded(f, detached)]), [x] + chain;
    forall l | 0 <= l < |chain'|
      ensures && Frame(f, chain'[l]) && chain'[l] !in t'.free && chain'[l] in t'.words
              && t'.words[chain'[l]] == Threaded(f, NextOf(chain', l))
    {
      if l > 0 {
        assert chain'[l] == chain[l - 1];
      }
    }
  }

  /** A frame outside the tree given back. */
  lemma FreeShape(f: Format, root: int, s: Mem, x: int)
    requires Lawful(f) && Shape(f, root, s) && Frame(f, x) && forall j :: j in s.loc ==> s.loc[j] != x
    ensures Shape(f, root, s.(free := s.free + {x}))
  {
    hide Linked, EntryOk;
    var s' := s.(free := s.free + {x});
    forall j | j in s'.loc
      ensures Sited(f, s', j)
    {
      assert Sited(f, s, j);
    }
    forall j | j in s'.loc && j.h < f.top
      ensures Linked(f, s', j)
    {
      SameLinks(f, s, s', j, 0);
    }
    forall j, i: nat | j in s'.loc && i < f.n
      ensures EntryOk(f, s', j, i)
    {
      SameLinks(f, s, s', j, i);
    }
  }

  lemma SameLinks(f: Format, s: Mem, t: Mem, j: Pos, i: nat)
    requires t.loc == s.loc && t.words == s.words && j in s.loc
    ensures Linked(f, t, j) == Linked(f, s, j) && EntryOk(f, t, j, i) == EntryOk(f, s, j, i)
  {
  }

  /** The first detached table given back. */
  lemma ChainPop(f: Format, root: int, s: Mem, detached: int, chain: seq<int>)
    requires Lawful(f) && Shape(f, root, s) && Chained(f, s, detached, chain) && chain != []
    ensures var s' := s.(free := s.free + {detached});
            && detached in s.words && s.words[detached] == Threaded(f, NextOf(chain, 0)) && detached !in s.free
            && NextOf(chain, 0) >= 0 && Shape(f, root, s') && Chained(f, s', NextOf(chain, 0), chain[1..])
  {
    hide Shape, Threaded;
    assert detached == chain[0];
    FreeShape(f, root, s, detached);
    var s', rest := s.(free := s.free + {detached}), chain[1..];
    forall i | 0 <= i < |rest|
      ensures && Frame(f, rest[i]) && rest[i] !in s'.free && rest[i] in s'.words
              && s'.words[rest[i]] == Threaded(f, NextOf(rest, i))
    {
      assert rest[i] == chain[i + 1];
    }
    if rest != [] {
      assert Frame(f, chain[1]);
    }
  }

  lemma ChainHead(f: Format, s: Mem, detached: int, chain: seq<int>)
    requires Lawful(f) && Chained(f, s, detached, chain)
    ensures chain == [] <==> detached == 0
  {
    if chain != [] {
      assert Frame(f, chain[0]);
    }
  }

  lemma ChainFirst(f: Format, s: Mem, detached: int, chain: seq<int>)
    requires Lawful(f) && Chained(f, s, detached, chain) && chain != []
    ensures chain == [detached] + chain[1..]
    ensures |Threaded(f, NextOf(chain, 0))| == f.n
    ensures Threaded(f, NextOf(chain, 0))[0] == Bare(NextOf(chain, 0))
  {
  }

  lemma ChainNone(f: Format, s: Mem)
    requires Lawful(f)
    ensures Chained(f, s, 0, [])
  {
  }

  /** A failed map of [v, v + pages), the leaves it stored cleared and the empty tables taken out. */
  ghost predicate Unwound(f: Format, root: int, s0: Mem, s1: Mem, s2: Mem, s3: Mem,
                          v: nat, pages: nat, done: nat, base: int, attrs: int) {
    && Lawful(f) && Shape(f, root, s0) && Shape(f, root, s1) && Shape(f, root, s2) && Shape(f, root, s3)
    && NoEmpty(f, s0) && AllUnmapped(f, s0, v, pages)
    && Mapped(f, s0, s1, f.top, v, pages, done, base, attrs)
    && Cleared(f, s1, s2, v, done) && Pruned(f, s2, s3, f.top, v, pages)
  }

  lemma UnwoundWord(f: Format, root: int, s0: Mem, s1: Mem, s2: Mem, s3: Mem,
                    v: nat, pages: nat, done: nat, base: int, attrs: int, j: Pos, i: nat)
    requires Unwound(f, root, s0, s1, s2, s3, v, pages, done, base, attrs) && j in s1.loc && i < f.n
    ensures Word(s2, j, i) == (if j.h == 0 || Valid(Word(s0, j, i)) then Word(s0, j, i)
                               else if Child(f, j, i) in s1.loc then Table(s1.loc[Child(f, j, i)]) else Zero)
  {
    hide Touches, Pruned;
    assert Word(s1, j, i) == MappedWord(f, s0, s1, v, done, base, attrs, j, i);
    assert Word(s2, j, i) == if j.h == 0 && v <= Kid(f.n, j.p, i) < v + done then Zero else Word(s1, j, i);
    if j.h == 0 && v <= Kid(f.n, j.p, i) < v + done {
      var x := Kid(f.n, j.p, i);
      KidPar(f.n, j.p, i);
      LeafHolder(f, x);
      assert !Valid(PageAt(f, s0, x));
      if j in s0.loc {
        assert EntryOk(f, s0, j, i);
      }
    }
  }

  lemma {:induction false} UnwindKeeps(f: Format, root: int, s0: Mem, s1: Mem, s2: Mem, s3: Mem,
                                       v: nat, pages: nat, done: nat, base: int, attrs: int, j: Pos)
    requires Unwound(f, root, s0, s1, s2, s3, v, pages, done, base, attrs) && j in s0.loc
    ensures j in s3.loc
    decreases j.h
  {
    hide Touches, Mapped;
    MappedKeeps(f, s0, s1, f.top, v, pages, done, base, attrs, j);
    assert Sited(f, s0, j);
    if j !in s3.loc {
      assert Gone(s2, s3, j);
      assert NonEmpty(f, s0, j);
      var i: nat :| i < f.n && Word(s0, j, i) != Zero;
      assert EntryOk(f, s0, j, i);
      UnwoundWord(f, root, s0, s1, s2, s3, v, pages, done, base, attrs, j, i);
      assert PrunedWord(f, s2, s3, j, i) == Zero;
      LinkedWord(f, root, s2, j, i);
      LinkedWord(f, root, s0, j, i);
      UnwindKeeps(f, root, s0, s1, s2, s3, v, pages, done, base, attrs, Child(f, j, i));
      assert false;
    }
  }

  lemma {:induction false} UnwindDrops(f: Format, root: int, s0: Mem, s1: Mem, s2: Mem, s3: Mem,
                                       v: nat, pages: nat, done: nat, base: int, attrs: int, j: Pos)
    requires Unwound(f, root, s0, s1, s2, s3, v, pages, done, base, attrs) && j in s3.loc
    ensures j in s0.loc
    decreases j.h
  {
    hide Touches;
    if j !in s0.loc {
      assert j in s1.loc && NonEmpty(f, s3, j);
      var i: nat :| i < f.n && Word(s3, j, i) != Zero;
      UnwoundWord(f, root, s0, s1, s2, s3, v, pages, done, base, attrs, j, i);
      assert Word(s3, j, i) == PrunedWord(f, s2, s3, j, i);
      UnwindDrops(f, root, s0, s1, s2, s3, v, pages, done, base, attrs, Child(f, j, i));
      assert Sited(f, s1, j);
      NoOrphan(f, root, s0, j, i);
      assert false;
    }
  }

  lemma UnwindLoc(f: Format, root: int, s0: Mem, s1: Mem, s2: Mem, s3: Mem,
                  v: nat, pages: nat, done: nat, base: int, attrs: int)
    requires Unwound(f, root, s0, s1, s2, s3, v, pages, done, base, attrs)
    ensures s3.loc == s0.loc
  {
    hide Touches, Shape, NoEmpty, AllUnmapped, MappedWord, PrunedWord, NonEmpty;
    forall j
      ensures j in s3.loc <==> j in s0.loc
    {
      if j in s0.loc {
        UnwindKeeps(f, root, s0, s1, s2, s3, v, pages, done, base, attrs, j);
      }
      if j in s3.loc {
        UnwindDrops(f, root, s0, s1, s2, s3, v, pages, done, base, attrs, j);
      }
    }
    forall j | j in s0.loc
      ensures s3.loc[j] == s0.loc[j]
    {
      assert j in s3.loc && j in s1.loc;
    }
  }

  lemma UnwindWord(f: Format, root: int, s0: Mem, s1: Mem, s2: Mem, s3: Mem,
                   v: nat, pages: nat, done: nat, base: int, attrs: int, j: Pos, i: nat)
    requires Unwound(f, root, s0, s1, s2, s3, v, pages, done, base, attrs) && s3.loc == s0.loc && j in s0.loc && i < f.n
    ensures Word(s3, j, i) == Word(s0, j, i)
  {
    hide Touches, Mapped, Cleared;
    MappedKeeps(f, s0, s1, f.top, v, pages, done, base, attrs, j);
    UnwoundWord(f, root, s0, s1, s2, s3, v, pages, done, base, attrs, j, i);
    assert Word(s3, j, i) == PrunedWord(f, s2, s3, j, i);
    assert EntryOk(f, s0, j, i);
    SameTables(f, s1, s2, v, done);
    if j.h > 0 {
      LinkedWord(f, root, s0, j, i);
      LinkedWord(f, root, s2, j, i);
    }
  }

  lemma UnwindFrees(f: Format, root: int, s0: Mem, s1: Mem, s2: Mem, s3: Mem,
                    v: nat, pages: nat, done: nat, base: int, attrs: int, free: set<int>)
    requires Unwound(f, root, s0, s1, s2, s3, v, pages, done, base, attrs) && s3.loc == s0.loc
    requires s3.free <= free && (forall x :: x in free ==> x in s3.free || x in s2.loc.Values)
    requires |free| + |s3.loc| == |s2.free| + |s2.loc| && Shape(f, root, s3.(free := free))
    ensures free == s0.free
  {
    hide Touches;
    forall x | x in free
      ensures x in s0.free
    {
      if x !in s3.free {
        var j :| j in s1.loc && s1.loc[j] == x;
        SitedAt(f, root, s3.(free := free), j);
      }
    }
    SubsetSame(free, s0.free);
  }

  /** A failed map leaves nothing behind: the tables, their entries and the free frames are restored
      once the frames of the tables taken out are given back. */
  lemma UnwindRestores(f: Format, root: int, s0: Mem, s1: Mem, s2: Mem, s3: Mem,
                       v: nat, pages: nat, done: nat, base: int, attrs: int, free: set<int>)
    requires Unwound(f, root, s0, s1, s2, s3, v, pages, done, base, attrs)
    requires s3.free <= free && (forall x :: x in free ==> x in s3.free || x in s2.loc.Values)
    requires |free| + |s3.loc| == |s2.free| + |s2.loc| && Shape(f, root, s3.(free := free))
    ensures Same(f, s0, s3.(free := free))
  {
    hide Unwound;
    UnwindLoc(f, root, s0, s1, s2, s3, v, pages, done, base, attrs);
    UnwindFrees(f, root, s0, s1, s2, s3, v, pages, done, base, attrs, free);
    forall j, i: nat | j in s0.loc && i < f.n
      ensures Word(s3.(free := free), j, i) == Word(s0, j, i)
    {
      UnwindWord(f, root, s0, s1, s2, s3, v, pages, done, base, attrs, j, i);
    }
  }

  /** The leaves a failed map left are those of the pages it reached. */
  lemma PrefixCleared(f: Format, root: int, s: Mem, s': Mem, v: nat, pages: nat, done: nat, base: int, attrs: int, count: nat)
    requires Lawful(f) && Shape(f, root, s') && Mapped(f, s, s', f.top, v, pages, done, base, attrs)
    requires AllUnmapped(f, s, v, pages) && done < pages && count <= pages
    requires forall x :: v <= x < v + count ==> Valid(PageAt(f, s', x))
    requires count < pages ==> !Valid(PageAt(f, s', v + count))
    ensures count == done
  {
    hide Mapped;
    MapFlat(f, root, s, s', v, pages, done, base, attrs, v + done);
    if count < pages {
      MapFlat(f, root, s, s', v, pages, done, base, attrs, v + count);
    }
  }

  /** [v, v + pages) mapped in `s`, its leaves cleared in `s1` and the emptied tables out in `s2`. */
  ghost predicate Unmapped(f: Format, root: int, s: Mem, s1: Mem, s2: Mem, v: nat, pages: nat) {
    && Lawful(f) && Shape(f, root, s) && Shape(f, root, s1) && Shape(f, root, s2)
    && Cleared(f, s, s1, v, pages) && Pruned(f, s1, s2, f.top, v, pages)
  }

  lemma UnmapFlat(f: Format, root: int, s: Mem, s1: Mem, s2: Mem, v: nat, pages: nat, x: nat)
    requires Unmapped(f, root, s, s1, s2, v, pages)
    ensures PageAt(f, s2, x) == if v <= x < v + pages then Zero else PageAt(f, s, x)
  {
    hide Touches, Cleared;
    ClearedPage(f, s, s1, v, pages, x);
    LeafHolder(f, x);
    var j, i := Holder(f, x, 0), Idx(f.n, x);
    if j in s2.loc {
      assert Word(s2, j, i) == PrunedWord(f, s1, s2, j, i);
    } else if j in s1.loc {
      assert Gone(s1, s2, j);
      assert PrunedWord(f, s1, s2, j, i) == Zero;
    }
  }

  lemma UnmapNoEmpty(f: Format, root: int, s: Mem, s1: Mem, s2: Mem, v: nat, pages: nat, j: Pos)
    requires Unmapped(f, root, s, s1, s2, v, pages) && NoEmpty(f, s) && j in s2.loc && j.h < f.top
    ensures NonEmpty(f, s2, j)
  {
    hide Touches;
    if Touches(f, j, v, pages) {
      assert NonEmpty(f, s2, j);
    } else {
      assert j in s1.loc && NonEmpty(f, s, j);
      var i: nat :| i < f.n && Word(s, j, i) != Zero;
      KidPar(f.n, j.p, i);
      if j.h == 0 && v <= Kid(f.n, j.p, i) < v + pages {
        LeafHolder(f, Kid(f.n, j.p, i));
        TouchesAt(f, Kid(f.n, j.p, i), 0, v, pages);
        assert false;
      }
      assert Word(s1, j, i) == Word(s, j, i);
      if j.h > 0 && Gone(s1, s2, Child(f, j, i)) {
        TouchesParent(f, Child(f, j, i), v, pages);
        assert false;
      }
      assert Word(s2, j, i) == PrunedWord(f, s1, s2, j, i);
    }
  }

  lemma UnmapSettles(f: Format, root: int, s: Mem, s1: Mem, s2: Mem, v: nat, pages: nat, free: set<int>)
    requires Unmapped(f, root, s, s1, s2, v, pages) && NoEmpty(f, s)
    ensures var t := s2.(free := free);
            && NoEmpty(f, t) && t.loc.Keys <= s.loc.Keys && s2.free == s.free && |s1.loc| == |s.loc| && s1.free == s.free
            && forall x: nat :: PageAt(f, t, x) == if v <= x < v + pages then Zero else PageAt(f, s, x)
  {
    hide Touches, Shape;
    var t := s2.(free := free);
    forall j | j in t.loc && j.h < f.top
      ensures NonEmpty(f, t, j)
    {
      UnmapNoEmpty(f, root, s, s1, s2, v, pages, j);
      var i: nat :| i < f.n && Word(s2, j, i) != Zero;
      assert Word(t, j, i) != Zero;
    }
    forall x: nat
      ensures PageAt(f, t, x) == if v <= x < v + pages then Zero else PageAt(f, s, x)
    {
      UnmapFlat(f, root, s, s1, s2, v, pages, x);
      assert Word(t, Holder(f, x, 0), Idx(f.n, x)) == Word(s2, Holder(f, x, 0), Idx(f.n, x));
    }
  }
}
