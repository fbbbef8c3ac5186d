/** What every step of a node keeps, whatever the peer writes to its own indices. */
module AmpSafety {
  import opened Modular
  import opened AmpPair

  /** Masked slot `i` lies in the held run and its reply has not been sent. */
  ghost predicate Holds(n: nat, p: Pair, i: nat)
    requires Slots(n)
  {
    var off := Off(n, i, p.tail);
    off < |p.flags| && !p.flags[off]
  }

  /** A live record outside an abandoned run names its own slot, held and not released. */
  ghost predicate RecOk(n: nat, p: Pair, i: nat)
    requires Slots(n) && i < |p.recs|
  {
    var r := p.recs[i];
    && (r.pending != PendingNone ==> r.live)
    && (r.live ==> r.slot == i)
    && (r.live && r.pending != PendingGone ==> Holds(n, p, i))
  }

  ghost predicate RunOk(n: nat, p: Pair) {
    && |p.flags| <= n && (p.flags != [] ==> !p.flags[0])
    && p.strikes < DEPTH_STRIKES && p.tailStrikes < DEPTH_STRIKES
  }

  ghost predicate Inv(n: nat, p: Pair) {
    && Slots(n) && |p.recs| == n && RunOk(n, p)
    && forall i: nat :: i < n ==> RecOk(n, p, i)
  }

  // ---- Releases ----

  lemma ReleaseElse(n: nat, p: Pair, slot: int)
    requires Slots(n)
    ensures var q := Release(n, p, slot);
            && q.recs == p.recs && q.replies == p.replies && q.unsent == p.unsent
            && q.rhead == p.rhead && q.tailStrikes == p.tailStrikes
  {
  }

  lemma SendElse(n: nat, p: Pair, rtail: U32, tag: Tag)
    ensures var (q, sent) := Send(n, p, rtail, tag);
            && q.recs == p.recs && q.unsent == p.unsent && q.flags == p.flags && q.tail == p.tail
            && q.replies == if sent.SentOk? then p.replies + [tag] else p.replies
  {
  }

  lemma ReleaseRun(n: nat, p: Pair, slot: nat)
    requires Slots(n) && RunOk(n, p)
    ensures RunOk(n, Release(n, p, slot)) && Taken(Release(n, p, slot)) == Taken(p)
  {
    var off := Off(n, slot, p.tail);
    if off < |p.flags| {
      var flags := p.flags[off := true];
      AddAdd(p.tail, Lead(flags), |flags| - Lead(flags));
    }
  }

  /** A release frees its own slot and no other: two holders never share one. */
  lemma ReleaseHolds(n: nat, p: Pair, slot: nat, i: nat)
    requires Slots(n) && RunOk(n, p) && slot < n && i < n
    ensures Holds(n, Release(n, p, slot), i) <==> Holds(n, p, i) && i != slot
  {
    hide Off, Add, Slots;
    var off, o := Off(n, slot, p.tail), Off(n, i, p.tail);
    if o == off {
      OffInjective(n, i, slot, p.tail);
    }
    if off < |p.flags| {
      var flags := p.flags[off := true];
      OffShift(n, i, p.tail, Lead(flags));
      if o < Lead(flags) {
        assert flags[o];
      }
    }
  }

  lemma ReleaseRec(n: nat, p: Pair, slot: nat, i: nat)
    requires Slots(n) && |p.recs| == n && RunOk(n, p) && slot < n && i < n && RecOk(n, p, i)
    requires i == slot ==> !p.recs[i].live || p.recs[i].pending == PendingGone
    ensures RecOk(n, Release(n, p, slot), i)
  {
    ReleaseHolds(n, p, slot, i);
  }

  lemma ReleaseInv(n: nat, p: Pair, slot: nat)
    requires Inv(n, p) && slot < n && (p.recs[slot].live ==> p.recs[slot].pending == PendingGone)
    ensures Inv(n, Release(n, p, slot))
  {
    ReleaseRun(n, p, slot);
    forall i: nat | i < n
      ensures RecOk(n, Release(n, p, slot), i)
    {
      ReleaseRec(n, p, slot, i);
    }
  }

  // ---- Sends and records ----

  /** The two pairs hold the same run and the same records. */
  ghost predicate SameHeld(p: Pair, q: Pair) { q.tail == p.tail && q.flags == p.flags && q.recs == p.recs }

  lemma SendInv(n: nat, p: Pair, rtail: U32, tag: Tag)
    requires Inv(n, p)
    ensures var q := Send(n, p, rtail, tag).0; Inv(n, q) && SameHeld(p, q) && q.unsent == p.unsent
  {
    var q := Send(n, p, rtail, tag).0;
    forall i: nat | i < n
      ensures RecOk(n, q, i)
    {
      assert RecOk(n, p, i);
    }
  }

  lemma SetInv(n: nat, p: Pair, i: nat, r: Record)
    requires Inv(n, p) && i < n && RecOk(n, SetRec(p, i, r), i)
    ensures Inv(n, SetRec(p, i, r))
  {
    var q := SetRec(p, i, r);
    forall j: nat | j < n
      ensures RecOk(n, q, j)
    {
      assert RecOk(n, p, j);
    }
  }

  /** No record of a run being abandoned names another's slot, and those below `i` have been seen to. */
  ghost predicate Abandoning(n: nat, p: Pair, i: nat) {
    && Slots(n) && |p.recs| == n && i <= n && RunOk(n, p) && p.flags == []
    && (forall j: nat :: j < n && p.recs[j].pending != PendingNone ==> p.recs[j].live)
    && (forall j: nat :: j < n && p.recs[j].live ==> p.recs[j].slot == j)
    && (forall j: nat :: j < i && p.recs[j].live ==> p.recs[j].pending == PendingGone)
  }

  lemma AnswerOneKeeps(n: nat, p: Pair, i: nat, rtail: U32)
    requires Abandoning(n, p, i) && i < n
    ensures Abandoning(n, AnswerOne(n, p, i, rtail), i + 1) && AnswerOne(n, p, i, rtail).tail == p.tail
  {
    hide Slots, Sub, Add;
  }

  lemma {:induction false} AnswerPairInv(n: nat, p: Pair, i: nat, rtails: seq<U32>)
    requires Abandoning(n, p, i)
    ensures Inv(n, AnswerPair(n, p, i, rtails)) && AnswerPair(n, p, i, rtails).flags == []
    ensures AnswerPair(n, p, i, rtails).tail == p.tail
    decreases n - i
  {
    if i < n {
      hide AnswerOne, Inv;
      AnswerOneKeeps(n, p, i, LoadAt(rtails, i));
      AnswerPairInv(n, AnswerOne(n, p, i, LoadAt(rtails, i)), i + 1, rtails);
    } else {
      forall j: nat | j < n
        ensures RecOk(n, p, j)
      {
      }
    }
  }

  lemma RetryOneInv(n: nat, p: Pair, i: nat, rtail: U32)
    requires Inv(n, p) && i < n
    ensures Inv(n, RetryOne(n, p, i, rtail).0)
  {
    var r := p.recs[i];
    assert RecOk(n, p, i);
    if r.pending != PendingNone {
      SendInv(n, p, rtail, r.tag);
      var (q, sent) := Send(n, p, rtail, r.tag);
      var r' := if sent.SentOk? then r else r.(defers := r.defers + 1);
      if !sent.SentOk? && r'.defers < DEFER_PASSES {
        SetInv(n, q, i, r');
      } else {
        SetInv(n, q, i, Drop(r'));
        if r.pending != PendingGone {
          ReleaseInv(n, SetRec(q, i, Drop(r')), r.slot);
        }
      }
    }
  }

  lemma {:induction false} RetryInv(n: nat, p: Pair, i: nat, rtails: seq<U32>)
    requires Inv(n, p) && i <= n
    ensures Inv(n, Retry(n, p, i, rtails))
    decreases n - i
  {
    if i < n {
      RetryOneInv(n, p, i, LoadAt(rtails, i));
      var (q, on) := RetryOne(n, p, i, LoadAt(rtails, i));
      if on {
        RetryInv(n, q, i + 1, rtails);
      }
    }
  }

  // ---- Takes ----

  lemma DepthOkInv(n: nat, p: Pair, head: U32, rtails: seq<U32>)
    requires Inv(n, p)
    ensures var (q, ok) := DepthOk(n, p, head, rtails);
            Inv(n, q) && (ok ==> q == p.(strikes := 0) && Sub(head, p.tail) <= n && Sub(head, Taken(p)) <= n)
  {
    var (q, ok) := DepthOk(n, p, head, rtails);
    if ok || p.strikes + 1 < DEPTH_STRIKES {
      forall i: nat | i < n
        ensures RecOk(n, q, i)
      {
        assert RecOk(n, p, i);
      }
    } else {
      forall i: nat | i < n
        ensures (p.recs[i].pending != PendingNone ==> p.recs[i].live) && (p.recs[i].live ==> p.recs[i].slot == i)
      {
        assert RecOk(n, p, i);
      }
      AnswerPairInv(n, p.(strikes := 0, tail := head, flags := []), 0, rtails);
    }
  }

  /** A credible head with something unread leaves room in the run for one more slot. */
  lemma RoomToTake(n: nat, p: Pair, head: U32)
    requires Slots(n) && |p.flags| <= n && Sub(head, p.tail) <= n && Sub(head, Taken(p)) <= n && Sub(head, Taken(p)) != 0
    ensures |p.flags| < n
  {
    SubAdd(p.tail, |p.flags|);
    SubSum(head, Taken(p), p.tail);
  }

  lemma AppendInv(n: nat, p: Pair)
    requires Inv(n, p) && |p.flags| < n
    ensures var q := p.(flags := p.flags + [false]); Inv(n, q) && Holds(n, q, Taken(p) % n) && !Holds(n, p, Taken(p) % n)
  {
    var q := p.(flags := p.flags + [false]);
    OffAt(n, p.tail, |p.flags|);
    forall i: nat | i < n
      ensures RecOk(n, q, i)
    {
      assert RecOk(n, p, i);
    }
  }

  lemma TakeCallInv(n: nat, m: Mint, p: Pair, head: U32, h: Header, rtail: U32, rtails: seq<U32>)
    requires Inv(n, p)
    ensures var (q, v) := TakeCall(n, m, p, head, h, rtail, rtails);
            && Inv(n, q)
            && (v == Took ==> var s := Taken(p) % n; Holds(n, q, s) && (q.recs[s].live ==> q.recs[s].pending == PendingGone))
  {
    DepthOkInv(n, p, head, rtails);
    var (q, ok) := DepthOk(n, p, head, rtails);
    if ok && Sub(head, Taken(q)) != 0 {
      RoomToTake(n, p, head);
      var s := Taken(p) % n;
      if SlotOk(m, h) != Took {
        AppendInv(n, q);
        assert RecOk(n, q, s);
        ReleaseInv(n, q.(flags := q.flags + [false]), s);
      } else {
        BelieveInv(n, q, rtail);
        AppendInv(n, Reserved(n, q, rtail).0);
        assert RecOk(n, q, s);
      }
    }
  }

  lemma BelieveInv(n: nat, p: Pair, rtail: U32)
    requires Inv(n, p)
    ensures var q := Believe(n, p, rtail).0; Inv(n, q) && SameHeld(p, q) && q.replies == p.replies && q.unsent == p.unsent
  {
    var q := Believe(n, p, rtail).0;
    forall i: nat | i < n
      ensures RecOk(n, q, i)
    {
      assert RecOk(n, p, i);
    }
  }

  lemma DispatchInv(n: nat, p: Pair, slot: nat, tag: Tag, deliver: bool, rtail: U32)
    requires Inv(n, p) && slot < n && Holds(n, p, slot) && (p.recs[slot].live ==> p.recs[slot].pending == PendingGone)
    ensures Inv(n, Dispatch(n, p, slot, tag, deliver, rtail))
  {
    assert RecOk(n, p, slot);
    if deliver && !p.recs[slot].live {
      SetInv(n, p, slot, p.recs[slot].(tag := tag, slot := slot, live := true));
    } else {
      SendInv(n, p, rtail, tag);
      ReleaseInv(n, Send(n, p, rtail, tag).0, slot);
    }
  }

  lemma ReplyInv(n: nat, m: Mint, p: Pair, base: nat, token: nat, len: nat, rtail: U32)
    requires Inv(n, p) && (Resolve(p, base, token) >= 0 ==> p.recs[Resolve(p, base, token)].pending == PendingNone)
    ensures Inv(n, Reply(n, m, p, base, token, len, rtail))
  {
    var i := Resolve(p, base, token);
    if i >= 0 {
      assert RecOk(n, p, i);
      var r := p.recs[i];
      SendInv(n, p, rtail, r.tag);
      var (q, sent) := if len > m.bytes then (p, SentLength) else Send(n, p, rtail, r.tag);
      if sent.SentOk? {
        SetInv(n, q, i, Drop(r));
        ReleaseInv(n, SetRec(q, i, Drop(r)), r.slot);
      } else {
        var u := q.(unsent := q.unsent + 1);
        forall j: nat | j < n
          ensures RecOk(n, u, j)
        {
          assert RecOk(n, q, j);
        }
        SetInv(n, u, i, Defer(r, PendingHeld));
      }
    }
  }
}
