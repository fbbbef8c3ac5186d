/** The domain pool (kernel/domain/domain.cc), its slots updated in place. */
module DomainPool {
  import opened Borrowing

  class Domains {
    const doms: array<Dom>
    var free: seq<nat>
    var used: nat
    ghost var outside: seq<nat>
    ghost var rank: seq<nat>

    ghost function View(): Pool
      reads this, doms
    {
      Pool(doms[..], free, used, outside)
    }

    ghost predicate Valid()
      reads this, doms
    {
      PoolOk(View()) && Ranked(View(), rank)
    }

    constructor (size: nat)
      requires size >= FIRST
      ensures Valid() && doms.Length == size && free == [] && used == 0
    {
      doms := new Dom[size](i => Dom(0, i < FIRST, -1, false, 0));
      free, used := [], 0;
      outside, rank := seq(size, _ => 0), seq(size, _ => 0);
      new;
      BootOk(View(), rank);
    }

    /** The slot freed last, else one never claimed; -1 when there is neither. */
    method FreeSlot() returns (d: int)
      requires Valid()
      modifies this`free, this`used
      ensures d == Next(old(View()))
      ensures d < 0 ==> free == old(free) && used == old(used)
      ensures d >= 0 ==> free == Claimed(old(View()), false).free && used == Claimed(old(View()), false).used
    {
      if free != [] {
        d := free[0];
        free := free[1..];
        return;
      }
      if FIRST + used >= doms.Length {
        return -1;
      }
      d := FIRST + used;
      used := used + 1;
    }

    /** A domain with no reference left heads the free list, once. */
    method FreePut(d: nat)
      requires d < doms.Length
      modifies this`free
      ensures free == if doms[d].immortal || doms[d].refcount != 0 || d in old(free) then old(free) else [d] + old(free)
    {
      if doms[d].immortal || doms[d].refcount != 0 || d in free {
        return;
      }
      free := [d] + free;
    }

    /** The space dropped; the edge is handed to the caller. */
    method DropSpace(d: nat) returns (donor: int)
      requires d < doms.Length
      modifies doms
      ensures donor == old(doms[d].donor)
      ensures doms[..] == old(doms[..])[d := old(doms[d]).(donor := -1, space := false)]
    {
      donor := doms[d].donor;
      doms[d] := doms[d].(donor := -1, space := false);
    }

    method DomainRef(d: nat)
      requires Valid() && d < FIRST + used && d !in free
      modifies this`outside, doms
      ensures Valid() && View() == Ref(old(View()), d)
    {
      hide PoolOk, Ranked;
      ghost var p := View();
      Bounds(p);
      RefOk(p, d, rank);
      outside := outside[d := outside[d] + 1];
      if !doms[d].immortal {
        doms[d] := doms[d].(refcount := doms[d].refcount + 1);
      }
      assert View() == Ref(p, d);
    }

    /** One reference given up, the caller's own, or none of a domain that never had one. */
    method Release(first: int)
      requires Valid() && -1 <= first < doms.Length
      requires first >= 0 && !doms[first].immortal ==> MayRelease(View(), first)
      modifies this`free, this`outside, doms
      ensures Valid()
      ensures Withdrawn(old(View()), first).doms == old(View()).doms
      ensures View() == Drop(Withdrawn(old(View()), first), rank, first)
    {
      hide PoolOk, Owing, Ranked, Drop;
      var d := first;
      ghost var p := View();
      Bounds(p);
      ReleaseStart(p, rank, first);
      outside := Withdrawn(p, first).outside;
      assert View() == Withdrawn(p, first);
      ghost var goal := Drop(View(), rank, d);
      while d >= 0 && !doms[d].immortal
        invariant -1 <= d < doms.Length && Ranked(View(), rank) && Giving(View(), d) && Drop(View(), rank, d) == goal
        invariant |outside| == doms.Length
        modifies this`free, doms
        decreases if d < 0 then 0 else rank[d] + 1
      {
        ghost var q := View();
        ReleaseStep(q, rank, d);
        if doms[d].refcount > 0 {
          doms[d] := doms[d].(refcount := doms[d].refcount - 1);
        }
        if doms[d].refcount != 0 {
          assert View() == q.(doms := q.doms[d := q.doms[d].(refcount := q.doms[d].refcount - 1)]);
          return;
        }
        FreePut(d);
        var donor := DropSpace(d);
        assert View() == Freed(q, d);
        d := donor;
      }
      ReleaseEnd(View(), rank, d);
    }

    /** A fresh domain with a space, if a slot, the budget, the space and the image all allow it. */
    method ClaimSlot(admitted: bool, created: bool, seeded: bool) returns (d: int)
      requires Valid()
      modifies this`free, this`used, this`outside, doms
      ensures Valid() && outside == old(outside)
      ensures d >= 0 <==> Next(old(View())) >= 0 && admitted && created && seeded
      ensures d >= 0 ==> d == Next(old(View())) && View() == Claimed(old(View()), true)
      ensures d >= 0 ==> d < doms.Length && doms[d] == Dom(0, false, -1, true, old(doms[..])[d].generation + 1)
      ensures d < 0 && Next(old(View())) < 0 ==> View() == old(View())
      ensures d < 0 && Next(old(View())) >= 0 ==> View() == Refused(old(View()))
    {
      hide PoolOk, Owing, Ranked, Drop, Idle;
      ghost var p := View();
      var slot := FreeSlot();
      if slot < 0 {
        return -1;
      }
      ClaimedOk(p, false, rank);
      ClaimedOk(p, true, rank);
      RefusedOk(p, rank);
      IdleEdge(p, slot);
      var stale := DropSpace(slot);
      doms[slot] := Dom(0, false, -1, false, doms[slot].generation + 1);
      assert View() == Claimed(p, false);
      Release(stale);
      assert View() == Claimed(p, false) by {
        DropNone(Claimed(p, false), rank);
      }
      if !admitted || !created {
        FreePut(slot);
        assert View() == Refused(p);
        return -1;
      }
      doms[slot] := doms[slot].(space := true);
      assert doms[..] == Claimed(p, true).doms;
      if !seeded {
        var none := DropSpace(slot);
        FreePut(slot);
        assert doms[..] == Claimed(p, false).doms;
        assert View() == Refused(p);
        return -1;
      }
      return slot;
    }

    /** A new domain borrowing from the one that reserved the memory: the donor, or the domain the
        donor was itself handed it by. A refused handoff leaves no domain and no edge. */
    method DomainFor(donor: nat, passedOn: bool, admitted: bool, created: bool, seeded: bool, handed: bool) returns (d: int)
      requires Valid() && donor < FIRST + used && donor !in free
      modifies this`free, this`used, this`outside, this`rank, doms
      ensures Valid() && outside == old(outside)
      ensures d >= 0 <==> Next(old(View())) >= 0 && admitted && created && seeded && handed
      ensures d >= 0 ==> d == Next(old(View())) && d != Owner(old(View()), donor, passedOn) &&
                         View() == Lent(Claimed(old(View()), true), d, Owner(old(View()), donor, passedOn))
      ensures d >= 0 ==> d < doms.Length && doms[d].generation == old(doms[..])[d].generation + 1
      ensures d >= 0 ==> doms[d].donor == if passedOn && old(doms[donor].donor) != -1 then old(doms[donor].donor) else donor
      ensures Next(old(View())) < 0 ==> View() == old(View())
      ensures d < 0 && Next(old(View())) >= 0 ==>
                View() == if admitted && created
                    && seeded then Freed(Claimed(old(View()), true), Next(old(View()))) else Refused(old(View()))
    {
      hide PoolOk, Owing, Ranked, Drop, Borrowers, Lent, Refused, Freed, Withdrawn, MayRelease;
      ghost var p := View();
      Bounds(p);
      d := ClaimSlot(admitted, created, seeded);
      if d < 0 {
        return;
      }
      ClaimedOk(p, true, rank);
      OwnerOk(p, donor, passedOn, rank);
      ghost var q := View();
      if !handed {
        NoRefs(q, rank, d);
        Release(d);
        return -1;
      }
      var owner := donor;
      if passedOn && doms[donor].donor != -1 {
        owner := doms[donor].donor;
      }
      Lend(d, owner);
    }

    /** The lifetime edge, and the reference it holds. */
    method Lend(d: nat, owner: nat)
      requires Valid() && d < doms.Length && d != owner
      requires FIRST <= d < FIRST + used && d !in free && doms[d].donor == -1 && Borrowers(View(), d) == {}
      requires owner < FIRST + used && owner !in free
      modifies this`rank, doms
      ensures Valid() && View() == Lent(old(View()), d, owner)
      ensures doms[d] == old(doms[d]).(donor := owner)
      ensures doms[owner].refcount == old(doms[owner].refcount) + if doms[owner].immortal then 0 else 1
    {
      hide PoolOk, Ranked;
      ghost var q := View();
      Bounds(q);
      RankedAll(q, rank);
      LentOk(q, d, owner, rank);
      doms[d] := doms[d].(donor := owner);
      if !doms[owner].immortal {
        doms[owner] := doms[owner].(refcount := doms[owner].refcount + 1);
      }
      rank := rank[d := rank[owner] + 1];
      assert View() == Lent(q, d, owner);
    }

    /** What names the domain names it no more, though it lives on. */
    method RetireHandles(d: nat)
      requires Valid() && d < doms.Length
      modifies doms
      ensures Valid() && View() == Aged(old(View()), d)
    {
      hide PoolOk, Ranked;
      AgedOk(View(), d, rank);
      ghost var p := View();
      if !doms[d].immortal {
        doms[d] := doms[d].(generation := doms[d].generation + 1);
      }
      assert View() == Aged(p, d);
    }

    /** The handoff given back early: its donor's reference passes to the caller, to release. */
    method RetireHandoff(d: nat) returns (donor: int)
      requires Valid() && d < doms.Length
      modifies this`outside, doms
      ensures Valid() && donor == old(doms[d].donor)
      ensures View() == if donor < 0 then old(View()) else Returned(old(View()), d)
      ensures donor >= 0 && !doms[donor].immortal ==> MayRelease(View(), donor)
    {
      hide PoolOk, Owing, Ranked;
      ghost var p := View();
      Bounds(p);
      donor := doms[d].donor;
      if donor < 0 {
        return;
      }
      ReturnedOk(p, d, rank);
      doms[d] := doms[d].(donor := -1);
      outside := outside[donor := outside[donor] + 1];
      assert View() == Returned(p, d);
    }
  }

  ghost predicate MayRelease(p: Pool, d: nat)
    requires d < |p.doms|
  {
    d < |p.outside| && (p.outside[d] > 0 || (p.doms[d].refcount == 0 && d < FIRST + p.used))
  }

  /** The caller's reference no longer counted from outside. */
  ghost function Withdrawn(p: Pool, d: int): Pool {
    if 0 <= d < |p.doms| && !p.doms[d].immortal && d < |p.outside| && p.outside[d] > 0
    then p.(outside := p.outside[d := p.outside[d] - 1]) else p
  }

  /** A reference of `d` is being given up, or `d` never had one. */
  ghost predicate Giving(p: Pool, d: int) {
    Owing(p, d) || (0 <= d < |p.doms| && PoolOk(p) && p.doms[d].refcount == 0 && d < FIRST + p.used)
  }

  ghost function Refused(p: Pool): Pool
    requires 0 <= Next(p) < |p.doms|
  {
    var q := Claimed(p, false);
    q.(free := [Next(p)] + q.free)
  }

  lemma BootOk(p: Pool, rank: seq<nat>)
    requires |p.doms| >= FIRST && |p.outside| == |rank| == |p.doms| && p.free == [] && p.used == 0
    requires forall i :: 0 <= i < |p.doms| ==> p.doms[i] == Dom(0, i < FIRST, -1, false, 0) && p.outside[i] == 0
    ensures PoolOk(p) && Ranked(p, rank)
  {
    forall d | 0 <= d < |p.doms|
      ensures DomOk(p, d, -1)
    {
      assert Borrowers(p, d) == {};
    }
  }

  lemma Bounds(p: Pool)
    requires PoolOk(p)
    ensures FIRST + p.used <= |p.doms| == |p.outside|
  {
  }

  lemma RankedAll(p: Pool, rank: seq<nat>)
    requires Ranked(p, rank)
    ensures |rank| == |p.doms|
  {
  }

  lemma ReleaseStart(p: Pool, rank: seq<nat>, d: int)
    requires PoolOk(p) && Ranked(p, rank) && -1 <= d < |p.doms| && (d >= 0 && !p.doms[d].immortal ==> MayRelease(p, d))
    ensures Ranked(Withdrawn(p, d), rank) && Giving(Withdrawn(p, d), d)
  {
    if 0 <= d && !p.doms[d].immortal && p.outside[d] > 0 {
      WithdrawnOk(p, d);
    } else if d >= 0 {
      assert p.doms[d].immortal ==> Owing(p, d) by {
        forall x | 0 <= x < |p.doms|
          ensures p.doms[d].immortal ==> DomOk(p, x, d)
        {
          assert DomOk(p, x, -1);
        }
      }
    }
  }

  lemma ReleaseStep(p: Pool, rank: seq<nat>, d: nat)
    requires Ranked(p, rank) && d < |p.doms| && Giving(p, d) && !p.doms[d].immortal
    ensures p.doms[d].refcount > 1 ==>
              && PoolOk(p.(doms := p.doms[d := p.doms[d].(refcount := p.doms[d].refcount - 1)]))
              && Ranked(p.(doms := p.doms[d := p.doms[d].(refcount := p.doms[d].refcount - 1)]), rank)
              && Drop(p, rank, d) == p.(doms := p.doms[d := p.doms[d].(refcount := p.doms[d].refcount - 1)])
    ensures p.doms[d].refcount <= 1 ==>
              && -1 <= p.doms[d].donor < |p.doms| && Ranked(Freed(p, d), rank) && Giving(Freed(p, d), p.doms[d].donor)
              && Drop(p, rank, d) == Drop(Freed(p, d), rank, p.doms[d].donor)
              && (p.doms[d].donor >= 0 ==> rank[p.doms[d].donor] < rank[d])
  {
    if p.doms[d].refcount > 1 {
      LessOk(p, d);
    } else {
      FreedOk(p, d);
    }
  }

  lemma ReleaseEnd(p: Pool, rank: seq<nat>, d: int)
    requires Ranked(p, rank) && -1 <= d < |p.doms| && Giving(p, d) && (d < 0 || p.doms[d].immortal)
    ensures PoolOk(p) && Drop(p, rank, d) == p
  {
    if d >= 0 && Owing(p, d) {
      forall x | 0 <= x < |p.doms|
        ensures DomOk(p, x, -1)
      {
        assert DomOk(p, x, d);
      }
    }
  }

  lemma IdleEdge(p: Pool, d: nat)
    requires d < |p.doms| && Idle(p, d)
    ensures p.doms[d].donor == -1 && !p.doms[d].space
  {
  }

  lemma DropNone(p: Pool, rank: seq<nat>)
    requires Ranked(p, rank)
    ensures Drop(p, rank, -1) == p
  {
  }

  lemma RefusedOk(p: Pool, rank: seq<nat>)
    requires PoolOk(p) && Ranked(p, rank) && 0 <= Next(p) < |p.doms|
    ensures PoolOk(Refused(p)) && Ranked(Refused(p), rank)
  {
    ClaimedOk(p, false, rank);
    var q, r := Claimed(p, false), Refused(p);
    forall x | 0 <= x < |r.doms|
      ensures DomOk(r, x, -1)
    {
      assert DomOk(q, x, -1);
      SameBorrowers(q, r, x);
    }
  }

  /** Who a borrower of `donor`'s memory holds: a handoff passed on names the domain it came from. */
  function Owner(p: Pool, donor: nat, passedOn: bool): int
    requires donor < |p.doms|
  {
    if passedOn && p.doms[donor].donor != -1 then p.doms[donor].donor else donor
  }

  /** A handoff passed on never names the domain it was passed through: the new borrower is one more of
      the domain it came from, and none of the one that passed it. */
  lemma PassedOver(p: Pool, d: nat, donor: nat, rank: seq<nat>)
    requires Ranked(p, rank) && d < |p.doms| && donor < |p.doms| && d != donor && p.doms[d].donor == -1
    requires p.doms[donor].donor != -1
    ensures var o := Owner(p, donor, true);
            && 0 <= o < |p.doms| && o != donor && o == Up(p, donor, 1)
            && Borrowers(Lent(p, d, o), donor) == Borrowers(p, donor)
            && Borrowers(Lent(p, d, o), o) == Borrowers(p, o) + {d}
  {
    hide Lent, Borrowers;
    var o := Owner(p, donor, true);
    assert Up(p, donor, 1) == Up(p, p.doms[donor].donor, 0);
    LentTo(p, d, o, donor);
    LentTo(p, d, o, o);
  }

  lemma OwnerOk(p: Pool, donor: nat, passedOn: bool, rank: seq<nat>)
    requires PoolOk(p) && Ranked(p, rank) && donor < FIRST + p.used && donor !in p.free && 0 <= Next(p)
    ensures var o := Owner(p, donor, passedOn);
            && 0 <= o < FIRST + p.used && o !in p.free && o != Next(p)
            && Next(p) < |p.doms| && (forall x :: 0 <= x < |p.doms| && x != Next(p) ==> Claimed(p, true).doms[x] == p.doms[x])
            && o < FIRST + Claimed(p, true).used && o !in Claimed(p, true).free && donor != Next(p)
  {
    var o := Owner(p, donor, passedOn);
    assert DomOk(p, donor, -1);
    assert p.free != [] ==> Next(p) in p.free;
    if o != donor {
      assert DomOk(p, o, -1);
      assert donor in Borrowers(p, o);
    }
  }

  /** A domain just claimed, let go before anything refers to it, is freed and nothing else. */
  lemma NoRefs(p: Pool, rank: seq<nat>, d: nat)
    requires PoolOk(p) && Ranked(p, rank) && FIRST <= d < FIRST + p.used && d !in p.free
    requires p.doms[d].donor == -1 && p.doms[d].refcount == 0 && !p.doms[d].immortal
    ensures MayRelease(p, d) && Withdrawn(p, d) == p && Drop(p, rank, d) == Freed(p, d)
  {
    assert DomOk(p, d, -1);
    assert Drop(Freed(p, d), rank, -1) == Freed(p, d);
  }
}
