/** The reply ring's consumer as it runs, over the indices, released bits and strikes a node keeps for
    every ring it consumes. A move of the tail rings the producer: the credit it waits on. */
module AmpReplyRing {
  import opened Modular
  import opened AmpPair
  import opened AmpNode
  import R = AmpReplies

  class ReplyRing {
    const node: Node
    var gen: nat
    ghost var holds: set<R.Hold>

    ghost predicate Valid()
      reads this, node, node.recs
    {
      node.Valid()
    }

    ghost function View(): R.Inbox
      requires Valid()
      reads this, node, node.recs
    {
      R.Inbox(node.View(), gen, holds)
    }

    constructor (node: Node)
      requires node.Valid()
      ensures Valid() && this.node == node && View() == R.Inbox(node.View(), 0, {})
    {
      this.node, gen, holds := node, 0, {};
    }

    /** The far head believed or refused; the strike bound resynchronises the ring and ends its holds. */
    method CheckDepth(head: U32) returns (ok: bool)
      requires Valid()
      modifies this`gen, node
      ensures Valid() && View() == R.CheckDepth(node.n, old(View()), head).0
      ensures ok == R.CheckDepth(node.n, old(View()), head).1
      ensures ok ==> node.tail == old(node.tail) && node.taken == old(node.taken) && node.released == old(node.released)
    {
      hide Sub, Add;
      RunEnd(node.taken, node.tail);
      assert Taken(node.View()) == node.taken;
      var deepest := Sub(head, node.tail);
      var unread := Sub(head, node.taken);
      if unread > deepest {
        deepest := unread;
      }
      if deepest <= node.n {
        node.strikes := 0;
        return true;
      }
      node.strikes := node.strikes + 1;
      if node.strikes >= DEPTH_STRIKES {
        node.strikes := 0;
        node.tail := head;
        node.taken := head;
        node.released := seq(32, _ => false);
        NoRun(head);
        gen := gen + 1;
      }
      return false;
    }

    method Take(head: U32, h: Header) returns (v: Verdict, slot: nat, rang: bool)
      requires Valid()
      modifies this`gen, node
      ensures Valid() && View() == R.TakeReply(node.n, node.mint, old(View()), head, h).0
      ensures v == R.TakeReply(node.n, node.mint, old(View()), head, h).1
      ensures R.Judges(node.n, node.mint, old(View()), head, h, v)
      ensures v == Took ==> slot == old(node.taken) % node.n && node.taken == Add(old(node.taken), 1)
      ensures rang == (node.tail != old(node.tail))
    {
      hide Sub, Add, Release, R.CheckDepth, R.Judges;
      ghost var s := View();
      R.TakeJudges(node.n, node.mint, s, head, h);
      RunEnd(node.taken, node.tail);
      Believed(node.n, s, head);
      var tail, unread := node.tail, Sub(head, node.taken);
      slot := 0;
      if Sub(head, tail) == 0 && unread == 0 {
        return Empty, slot, false;
      }
      v := Depth;
      var ok := CheckDepth(head);
      if ok {
        v := Empty;
        if unread != 0 {
          v, slot := TakeOne(head, h);
        }
      }
      rang := node.tail != tail;
    }

    /** The slot past the run taken, and released again where its header is refused. */
    method TakeOne(head: U32, h: Header) returns (v: Verdict, slot: nat)
      requires Valid() && Sub(head, node.tail) <= node.n && Sub(head, node.taken) <= node.n && Sub(head, node.taken) != 0
      modifies node
      ensures Valid() && v == R.ReplyOk(node.mint, h)
      ensures slot == old(node.taken) % node.n && slot == Taken(old(node.View())) % node.n
      ensures node.taken == Add(old(node.taken), 1)
      ensures node.View() == var a := Append(old(node.View())); if v == Took then a else Release(node.n, a, slot)
    {
      hide Sub, Add, Release;
      RunEnd(node.taken, node.tail);
      var at := node.taken;
      ghost var p := node.View();
      OneMore(node.n, p, head, at);
      ReadAhead(node.released, p.flags);
      v := R.ReplyOk(node.mint, h);
      slot := at % node.n;
      node.taken := Add(at, 1);
      assert node.View() == Append(p);
      if v != Took {
        var moved := node.ReleaseOn(slot);
      }
    }

    /** Gives a taken reply's slot to its caller, or releases it where no caller is parked. */
    method Dispatch(slot: nat, caller: bool) returns (hold: R.Hold, rang: bool)
      requires Valid()
      modifies this`holds, node`tail, node`released
      ensures Valid() && View() == R.Deliver(node.n, old(View()), slot, caller)
      ensures hold == R.Hold(slot, gen) && rang == (node.tail != old(node.tail))
    {
      hide Release;
      hold, rang := R.Hold(slot, gen), false;
      if caller {
        holds := holds + {hold};
      } else {
        rang := node.ReleaseOn(slot);
      }
    }

    method Live(hold: R.Hold) returns (live: bool)
      requires Valid()
      ensures live == R.HoldLive(node.n, View(), hold)
    {
      hide Sub;
      if hold.gen % 0x1_0000 != gen % 0x1_0000 {
        return false;
      }
      var off := Off(node.n, hold.slot, node.tail);
      return off < Sub(node.taken, node.tail) && !node.released[off];
    }

    method GiveBack(hold: R.Hold) returns (rang: bool)
      requires Valid()
      modifies this`holds, node`tail, node`released
      ensures Valid() && View() == R.HoldRelease(node.n, old(View()), hold) && rang == (node.tail != old(node.tail))
    {
      hide Release;
      holds := holds - {hold};
      if hold.gen % 0x1_0000 != gen % 0x1_0000 {
        return false;
      }
      rang := node.ReleaseOn(hold.slot);
    }
  }

  lemma Believed(n: nat, s: R.Inbox, head: U32)
    ensures var (q, ok) := R.CheckDepth(n, s, head);
            ok ==> q == s.(p := s.p.(strikes := 0)) && Sub(head, s.p.tail) <= n && Sub(head, Taken(s.p)) <= n
  {
  }
}
