/** Protection domains, their reference counts and the borrow edges between them
    (kernel/domain/domain.cc). */
module Borrowing {
  import opened Sets

  /** A domain: its count, the domain whose memory it borrows or -1, and whether it has an address
      space. An immortal domain is not counted. */
  datatype Dom = Dom(refcount: nat, immortal: bool, donor: int, space: bool, generation: nat)

  /** The pool: `free` the slots freed, last first, and `used` how many were ever claimed past the
      two immortal ones. `outside` is how many references each domain has from outside the pool. */
  datatype Pool = Pool(doms: seq<Dom>, free: seq<nat>, used: nat, outside: seq<nat>)

  const FIRST: nat := 2

  /** The domains that borrow from `d`. */
  ghost function Borrowers(p: Pool, d: int): set<nat> { set x: nat | x < |p.doms| && p.doms[x].donor == d }

  ghost function Refs(p: Pool, d: nat): nat
    requires d < |p.outside|
  {
    p.outside[d] + |Borrowers(p, d)|
  }

  /** Following `k` borrow edges from `d`; -1 past the end of the chain. */
  ghost function Up(p: Pool, d: int, k: nat): int
    decreases k
  {
    if k == 0 then d else if 0 <= d < |p.doms| then Up(p, p.doms[d].donor, k - 1) else -1
  }

  /** A measure that every borrow edge lowers. */
  ghost predicate Ranked(p: Pool, rank: seq<nat>) {
    |rank| == |p.doms| &&
    forall d :: 0 <= d < |p.doms| ==>
                  p.doms[d].donor == -1 || (0 <= p.doms[d].donor < |rank| && rank[p.doms[d].donor] < rank[d])
  }

  ghost predicate Idle(p: Pool, d: nat)
    requires d < |p.doms|
  {
    p.doms[d].refcount == 0 && p.doms[d].donor == -1 && !p.doms[d].space
  }

  /** A domain's count is its references, one more if one of `owed` is about to be given up. */
  ghost predicate DomOk(p: Pool, d: nat, owed: int)
    requires d < |p.doms| == |p.outside|
  {
    && -1 <= p.doms[d].donor < |p.doms|
    && (p.doms[d].immortal <==> d < FIRST)
    && (!p.doms[d].immortal ==> p.doms[d].refcount == Refs(p, d) + if d == owed then 1 else 0)
    && (d >= FIRST + p.used || d in p.free ==> Idle(p, d))
  }

  ghost predicate Owing(p: Pool, owed: int) {
    && FIRST + p.used <= |p.doms| == |p.outside|
    && (forall i :: 0 <= i < |p.free| ==> FIRST <= p.free[i] < FIRST + p.used)
    && (forall i, j :: 0 <= i < j < |p.free| ==> p.free[i] != p.free[j])
    && (forall d {:trigger DomOk(p, d, owed)} :: 0 <= d < |p.doms| ==> DomOk(p, d, owed))
  }

  ghost predicate PoolOk(p: Pool) { Owing(p, -1) }

  // ---- No cycles ----

  /** Along a chain of edges the measure falls, so no domain borrows from itself through others. */
  lemma {:induction false} NoCycle(p: Pool, rank: seq<nat>, d: nat, k: nat)
    requires Ranked(p, rank) && d < |p.doms| && k > 0
    ensures Up(p, d, k) != d
  {
    UpFalls(p, rank, d, k);
  }

  lemma {:induction false} UpFalls(p: Pool, rank: seq<nat>, d: nat, k: nat)
    requires Ranked(p, rank) && d < |p.doms| && k > 0
    ensures 0 <= Up(p, d, k) < |p.doms| ==> rank[Up(p, d, k)] < rank[d]
    decreases k
  {
    var e := p.doms[d].donor;
    if 0 <= e < |p.doms| && k > 1 {
      UpFalls(p, rank, e, k - 1);
    }
  }

  // ---- Giving up a reference ----

  /** One reference to `d` given up: at none it is freed, its space dropped, and the edge it held on
      its donor given up in turn. */
  ghost function Drop(p: Pool, rank: seq<nat>, d: int): (q: Pool)
    requires Ranked(p, rank) && -1 <= d < |p.doms|
    ensures |q.doms| == |p.doms| && q.used == p.used && q.outside == p.outside
    decreases if d < 0 then 0 else rank[d] + 1
  {
    if d < 0 || p.doms[d].immortal then p
    else if p.doms[d].refcount > 1 then p.(doms := p.doms[d := p.doms[d].(refcount := p.doms[d].refcount - 1)])
    else
      var q := Freed(p, d);
      Drop(q, rank, p.doms[d].donor)
  }

  /** `d` freed: on the free list once, and holding no edge and no space. */
  function Freed(p: Pool, d: nat): Pool
    requires d < |p.doms|
  {
    p.(doms := p.doms[d := p.doms[d].(refcount := 0, donor := -1, space := false)],
       free := if d in p.free then p.free else [d] + p.free)
  }

  /** The domains a release of `d` frees: those up its chain, as long as each has one reference. */
  ghost function Doomed(p: Pool, rank: seq<nat>, d: int): set<nat>
    requires Ranked(p, rank) && -1 <= d < |p.doms|
    decreases if d < 0 then 0 else rank[d] + 1
  {
    if d < 0 || p.doms[d].immortal || p.doms[d].refcount > 1 then {} else {d} + Doomed(p, rank, p.doms[d].donor)
  }

  lemma {:induction false} DropOk(p: Pool, rank: seq<nat>, d: int)
    requires Ranked(p, rank) && -1 <= d < |p.doms| && Owing(p, d)
    ensures PoolOk(Drop(p, rank, d)) && Ranked(Drop(p, rank, d), rank)
    decreases if d < 0 then 0 else rank[d] + 1
  {
    if d >= 0 {
      assert DomOk(p, d, d);
      if p.doms[d].immortal {
        forall x | 0 <= x < |p.doms|
          ensures DomOk(p, x, -1)
        {
          assert DomOk(p, x, d);
        }
      } else if p.doms[d].refcount > 1 {
        LessOk(p, d);
      } else {
        FreedOk(p, d);
        DropOk(Freed(p, d), rank, p.doms[d].donor);
      }
    }
  }

  lemma SameBorrowers(p: Pool, q: Pool, x: int)
    requires |q.doms| == |p.doms| && forall y :: 0 <= y < |p.doms| ==> q.doms[y].donor == p.doms[y].donor
    ensures Borrowers(q, x) == Borrowers(p, x)
  {
  }

  lemma LessOk(p: Pool, d: nat)
    requires d < |p.doms| && Owing(p, d) && !p.doms[d].immortal && p.doms[d].refcount > 1
    ensures PoolOk(p.(doms := p.doms[d := p.doms[d].(refcount := p.doms[d].refcount - 1)]))
  {
    var q := p.(doms := p.doms[d := p.doms[d].(refcount := p.doms[d].refcount - 1)]);
    assert DomOk(p, d, d);
    forall x | 0 <= x < |q.doms|
      ensures DomOk(q, x, -1)
    {
      assert DomOk(p, x, d);
      SameBorrowers(p, q, x);
    }
  }

  /** Freeing a domain with no reference left leaves its donor's count one over. */
  lemma FreedOk(p: Pool, d: nat)
    requires d < |p.doms| && !p.doms[d].immortal && p.doms[d].refcount <= 1
    requires Owing(p, d) || (PoolOk(p) && p.doms[d].refcount == 0 && d < FIRST + p.used)
    ensures Owing(Freed(p, d), p.doms[d].donor)
  {
    var q, e := Freed(p, d), p.doms[d].donor;
    var owed := if p.doms[d].refcount == 0 then -1 else d;
    if Owing(p, d) {
      assert DomOk(p, d, d);
      assert p.doms[d].refcount == 1 && !Idle(p, d);
    }
    assert Owing(p, owed) && d < FIRST + p.used;
    assert DomOk(p, d, owed);
    assert Borrowers(p, d) == {} && p.outside[d] == 0;
    assert FIRST <= d < FIRST + p.used;
    forall i | 0 <= i < |q.free|
      ensures FIRST <= q.free[i] < FIRST + q.used
    {
      assert d !in p.free ==> (if i == 0 then q.free[0] == d else q.free[i] == p.free[i - 1]);
    }
    forall i, j | 0 <= i < j < |q.free|
      ensures q.free[i] != q.free[j]
    {
      assert d !in p.free ==> q.free[j] == p.free[j - 1] && (i > 0 ==> q.free[i] == p.free[i - 1]);
    }
    forall x | 0 <= x < |q.doms|
      ensures DomOk(q, x, e)
    {
      assert DomOk(p, x, owed);
      FreedBorrowers(p, d, x);
    }
  }

  lemma FreedBorrowers(p: Pool, d: nat, x: nat)
    requires d < |p.doms|
    ensures Borrowers(Freed(p, d), x) == Borrowers(p, x) - {d}
    ensures |Borrowers(Freed(p, d), x)| == |Borrowers(p, x)| - if p.doms[d].donor == x then 1 else 0
  {
    assert Borrowers(Freed(p, d), x) == Borrowers(p, x) - {d};
  }

  // ---- What a release frees ----

  /** The domains a release frees depend on nothing of rank `r` or above. */
  lemma {:induction false} DoomedSame(p: Pool, q: Pool, rank: seq<nat>, d: int, r: nat)
    requires Ranked(p, rank) && Ranked(q, rank) && -1 <= d < |p.doms| && (d >= 0 ==> rank[d] < r)
    requires forall x :: 0 <= x < |p.doms| && rank[x] < r ==> q.doms[x] == p.doms[x]
    ensures Doomed(q, rank, d) == Doomed(p, rank, d)
    ensures forall x :: x in Doomed(p, rank, d) ==> x < |rank| && rank[x] < r
    decreases if d < 0 then 0 else rank[d] + 1
  {
    if d >= 0 && !p.doms[d].immortal && p.doms[d].refcount <= 1 {
      DoomedSame(p, q, rank, p.doms[d].donor, r);
    }
  }

  /** A release frees exactly the domains its chain dooms, and changes no other but the one the
      chain stops at, whose count it lowers. */
  lemma {:induction false} DropFrees(p: Pool, rank: seq<nat>, d: int, x: nat)
    requires Ranked(p, rank) && -1 <= d < |p.doms| && x < |p.doms|
    ensures x in Drop(p, rank, d).free <==> x in p.free || x in Doomed(p, rank, d)
    ensures x in Doomed(p, rank, d) ==> Idle(Drop(p, rank, d), x)
    ensures x !in Doomed(p, rank, d) ==> Drop(p, rank, d).doms[x] == p.doms[x].(refcount := Drop(p, rank, d).doms[x].refcount)
    ensures x !in Doomed(p, rank, d) && x != Stop(p, rank, d) ==> Drop(p, rank, d).doms[x] == p.doms[x]
    ensures x == Stop(p, rank, d) ==> Drop(p, rank, d).doms[x].refcount == p.doms[x].refcount - 1 > 0
    ensures Drop(p, rank, d).doms[x].generation == p.doms[x].generation
    decreases if d < 0 then 0 else rank[d] + 1
  {
    if d >= 0 && !p.doms[d].immortal && p.doms[d].refcount <= 1 {
      var q, e := Freed(p, d), p.doms[d].donor;
      DropFrees(q, rank, e, x);
      DoomedSame(p, q, rank, e, rank[d]);
      StopSame(p, q, rank, e, rank[d]);
      assert Idle(q, d);
    }
  }

  /** The counted domain a release's chain stops at, or -1 where it runs out or ends at an immortal one. */
  ghost function Stop(p: Pool, rank: seq<nat>, d: int): int
    requires Ranked(p, rank) && -1 <= d < |p.doms|
    decreases if d < 0 then 0 else rank[d] + 1
  {
    if d < 0 || p.doms[d].immortal then -1 else if p.doms[d].refcount > 1 then d else Stop(p, rank, p.doms[d].donor)
  }

  lemma {:induction false} StopSame(p: Pool, q: Pool, rank: seq<nat>, d: int, r: nat)
    requires Ranked(p, rank) && Ranked(q, rank) && -1 <= d < |p.doms| && (d >= 0 ==> rank[d] < r)
    requires forall x :: 0 <= x < |p.doms| && rank[x] < r ==> q.doms[x] == p.doms[x]
    ensures Stop(q, rank, d) == Stop(p, rank, d)
    ensures Stop(p, rank, d) >= 0 ==> Stop(p, rank, d) < |rank| && rank[Stop(p, rank, d)] < r
    decreases if d < 0 then 0 else rank[d] + 1
  {
    if d >= 0 && !p.doms[d].immortal && p.doms[d].refcount <= 1 {
      StopSame(p, q, rank, p.doms[d].donor, r);
    }
  }

  // ---- Taking and lending ----

  /** One more reference from outside. */
  function Ref(p: Pool, d: nat): Pool
    requires d < |p.doms| == |p.outside|
  {
    p.(outside := p.outside[d := p.outside[d] + 1],
       doms := if p.doms[d].immortal then p.doms else p.doms[d := p.doms[d].(refcount := p.doms[d].refcount + 1)])
  }

  lemma RefOk(p: Pool, d: nat, rank: seq<nat>)
    requires PoolOk(p) && Ranked(p, rank) && d < FIRST + p.used && d !in p.free
    ensures PoolOk(Ref(p, d)) && Ranked(Ref(p, d), rank)
  {
    var q := Ref(p, d);
    forall x | 0 <= x < |q.doms|
      ensures DomOk(q, x, -1)
    {
      assert DomOk(p, x, -1) && DomOk(p, d, -1);
      SameBorrowers(p, q, x);
    }
  }

  /** The slot freed last, else one never claimed; -1 when there is neither. */
  function Next(p: Pool): int {
    if p.free != [] then p.free[0] else if FIRST + p.used < |p.doms| then FIRST + p.used else -1
  }

  /** That slot claimed anew: no reference and no edge, and a generation of its own. */
  function Claimed(p: Pool, space: bool): Pool
    requires 0 <= Next(p) < |p.doms|
  {
    var d := Next(p);
    p.(doms := p.doms[d := Dom(0, false, -1, space, p.doms[d].generation + 1)],
       free := if p.free != [] then p.free[1..] else [], used := if p.free != [] then p.used else p.used + 1)
  }

  /** The slot's generation moves on, so what named its last occupant does not name this one; every
      other domain is as it was. */
  lemma ClaimedAnew(p: Pool, space: bool, x: nat)
    requires 0 <= Next(p) < |p.doms| && x < |p.doms|
    ensures x == Next(p) ==> Claimed(p, space).doms[x].generation == p.doms[x].generation + 1
    ensures x == Next(p) ==> Claimed(p, space).doms[x].donor == -1 && Claimed(p, space).doms[x].refcount == 0
    ensures x == Next(p) ==> Claimed(p, space).doms[x].space == space && !Claimed(p, space).doms[x].immortal
    ensures x != Next(p) ==> Claimed(p, space).doms[x] == p.doms[x]
  {
  }

  /** What a domain borrows from is not free, nor ever was the slot a new domain takes. */
  lemma DonorHeld(p: Pool, d: nat)
    requires PoolOk(p) && d < |p.doms| && p.doms[d].donor >= 0
    ensures var o := p.doms[d].donor;
            o < FIRST + p.used && o !in p.free && o != Next(p) && (p.doms[o].immortal || p.doms[o].refcount > 0)
  {
    var o := p.doms[d].donor;
    assert DomOk(p, d, -1) && DomOk(p, o, -1);
    assert d in Borrowers(p, o);
    assert p.free != [] ==> Next(p) in p.free;
  }

  lemma ClaimedOk(p: Pool, space: bool, rank: seq<nat>)
    requires PoolOk(p) && Ranked(p, rank) && 0 <= Next(p)
    ensures FIRST <= Next(p) < |p.doms| && Idle(p, Next(p)) && Borrowers(p, Next(p)) == {}
    ensures PoolOk(Claimed(p, space)) && Ranked(Claimed(p, space), rank)
    ensures Next(p) < FIRST + Claimed(p, space).used && Next(p) !in Claimed(p, space).free
            && Borrowers(Claimed(p, space), Next(p)) == {}
  {
    var d := Next(p);
    assert p.free != [] ==> d in p.free;
    assert DomOk(p, d, -1);
    assert Borrowers(p, d) == {};
    var q := Claimed(p, space);
    forall x | 0 <= x < |q.doms|
      ensures DomOk(q, x, -1)
    {
      assert DomOk(p, x, -1);
      SameBorrowers(p, q, x);
    }
    SameBorrowers(p, q, d);
  }

  /** The lifetime edge: `d`, with no borrower of its own, borrows from `o`. */
  function Lent(p: Pool, d: nat, o: nat): Pool
    requires d < |p.doms| && o < |p.doms|
  {
    var doms := p.doms[d := p.doms[d].(donor := o)];
    p.(doms := if doms[o].immortal then doms else doms[o := doms[o].(refcount := doms[o].refcount + 1)])
  }

  lemma LentOk(p: Pool, d: nat, o: nat, rank: seq<nat>)
    requires PoolOk(p) && Ranked(p, rank) && d < |p.doms| && o < |p.doms| && d != o
    requires FIRST <= d < FIRST + p.used && d !in p.free && p.doms[d].donor == -1 && Borrowers(p, d) == {}
    requires o < FIRST + p.used && o !in p.free
    ensures PoolOk(Lent(p, d, o)) && Ranked(Lent(p, d, o), rank[d := rank[o] + 1])
  {
    var q := Lent(p, d, o);
    forall x | 0 <= x < |q.doms|
      ensures DomOk(q, x, -1)
    {
      assert DomOk(p, x, -1) && DomOk(p, d, -1);
      LentBorrowers(p, d, o, x);
    }
    forall x | 0 <= x < |q.doms|
      ensures q.doms[x].donor != d || x == d
    {
      assert x !in Borrowers(p, d);
    }
  }

  lemma LentTo(p: Pool, d: nat, o: nat, x: nat)
    requires d < |p.doms| && o < |p.doms| && p.doms[d].donor == -1
    ensures Borrowers(Lent(p, d, o), x) == if x == o then Borrowers(p, x) + {d} else Borrowers(p, x)
  {
  }

  lemma LentBorrowers(p: Pool, d: nat, o: nat, x: nat)
    requires d < |p.doms| && o < |p.doms| && p.doms[d].donor == -1
    ensures |Borrowers(Lent(p, d, o), x)| == |Borrowers(p, x)| + if x == o then 1 else 0
  {
    LentTo(p, d, o, x);
    assert d !in Borrowers(p, x);
  }

  /** A borrower returns what it borrowed: the edge becomes the caller's own reference. */
  function Returned(p: Pool, d: nat): Pool
    requires d < |p.doms| == |p.outside| && 0 <= p.doms[d].donor < |p.doms|
  {
    var o := p.doms[d].donor;
    p.(doms := p.doms[d := p.doms[d].(donor := -1)], outside := p.outside[o := p.outside[o] + 1])
  }

  lemma ReturnedOk(p: Pool, d: nat, rank: seq<nat>)
    requires PoolOk(p) && Ranked(p, rank) && d < |p.doms| && p.doms[d].donor >= 0
    ensures p.doms[d].donor < |p.doms| && PoolOk(Returned(p, d)) && Ranked(Returned(p, d), rank)
  {
    assert DomOk(p, d, -1);
    var q := Returned(p, d);
    forall x | 0 <= x < |q.doms|
      ensures DomOk(q, x, -1)
    {
      assert DomOk(p, x, -1);
      assert Borrowers(q, x) == Borrowers(p, x) - {d};
    }
  }

  /** A reference from outside withdrawn: until it is given up the count is one over. */
  lemma WithdrawnOk(p: Pool, d: nat)
    requires PoolOk(p) && d < |p.doms| && p.outside[d] > 0
    ensures Owing(p.(outside := p.outside[d := p.outside[d] - 1]), d)
  {
    var q := p.(outside := p.outside[d := p.outside[d] - 1]);
    forall x | 0 <= x < |q.doms|
      ensures DomOk(q, x, d)
    {
      assert DomOk(p, x, -1);
      SameBorrowers(p, q, x);
    }
  }

  /** A handle's slot moves on: no handle made before names what it holds next. */
  function Aged(p: Pool, d: nat): Pool
    requires d < |p.doms|
  {
    if p.doms[d].immortal then p else p.(doms := p.doms[d := p.doms[d].(generation := p.doms[d].generation + 1)])
  }

  lemma AgedOk(p: Pool, d: nat, rank: seq<nat>)
    requires PoolOk(p) && Ranked(p, rank) && d < |p.doms|
    ensures PoolOk(Aged(p, d)) && Ranked(Aged(p, d), rank)
  {
    var q := Aged(p, d);
    forall x | 0 <= x < |q.doms|
      ensures DomOk(q, x, -1)
    {
      assert DomOk(p, x, -1);
      SameBorrowers(p, q, x);
    }
  }
}
