/** What each operation of a node answers and leaves behind, said of the rings and the header alone. */
module AmpLaws {
  import opened Modular
  import opened AmpPair
  import opened AmpSafety

  // ---- The far indices ----

  /** The far tail puts no more than a ring in front of this node's head. */
  predicate TailFits(n: nat, p: Pair, rtail: U32) { Sub(p.rhead, rtail) <= n }

  predicate HeadFits(n: nat, p: Pair, head: U32) { Sub(head, p.tail) <= n && Sub(head, Taken(p)) <= n }

  /** A far tail is believed if it fits, and on the last strike by moving the index this node owns to
      it; what is believed then fits. */
  lemma BelieveSays(n: nat, p: Pair, rtail: U32)
    ensures var (q, ok) := Believe(n, p, rtail);
            && (ok <==> TailFits(n, p, rtail) || p.tailStrikes + 1 >= DEPTH_STRIKES)
            && (ok ==> TailFits(n, q, rtail) && q.tailStrikes == 0)
            && (!ok ==> q.tailStrikes == p.tailStrikes + 1)
            && q.rhead == (if ok && !TailFits(n, p, rtail) then rtail else p.rhead)
            && q == p.(rhead := q.rhead, tailStrikes := q.tailStrikes)
  {
  }

  /** The far tails read one after another. */
  function BelieveAll(n: nat, p: Pair, rtails: seq<U32>): Pair
    decreases |rtails|
  {
    if rtails == [] then p else BelieveAll(n, Believe(n, p, rtails[0]).0, rtails[1..])
  }

  /** No peer keeps a ring refused: of any four reads in a row one is believed. */
  lemma {:induction false} TailBelievedWithin(n: nat, p: Pair, rtails: seq<U32>) returns (k: nat)
    requires p.tailStrikes + |rtails| >= DEPTH_STRIKES && rtails != []
    ensures k < |rtails| && Believe(n, BelieveAll(n, p, rtails[..k]), rtails[k]).1
    decreases |rtails|
  {
    BelieveSays(n, p, rtails[0]);
    k := 0;
    if !Believe(n, p, rtails[0]).1 {
      k := TailBelievedWithin(n, Believe(n, p, rtails[0]).0, rtails[1..]);
      k := k + 1;
      assert rtails[..k][1..] == rtails[1..][..k - 1];
    }
  }

  /** A far head is believed exactly if it fits. Refused, it changes nothing but the strikes, until on
      the last one the ring starts over at it with nothing held: every held call answered or owed. */
  lemma DepthSays(n: nat, p: Pair, head: U32, rtails: seq<U32>)
    requires Inv(n, p)
    ensures var (q, ok) := DepthOk(n, p, head, rtails);
            && (ok <==> HeadFits(n, p, head))
            && (ok ==> q == p.(strikes := 0))
            && (!ok && p.strikes + 1 < DEPTH_STRIKES ==> q == p.(strikes := p.strikes + 1))
            && (!ok && p.strikes + 1 >= DEPTH_STRIKES ==>
                  && q.tail == head && Taken(q) == head && q.flags == [] && q.strikes == 0
                  && forall j :: 0 <= j < |q.recs| && q.recs[j].live ==> q.recs[j].pending == PendingGone)
  {
    hide AnswerPair, Sub, Add;
    if !HeadFits(n, p, head) && p.strikes + 1 >= DEPTH_STRIKES {
      StartsOver(n, p, head, rtails);
    }
  }

  lemma StartsOver(n: nat, p: Pair, head: U32, rtails: seq<U32>)
    requires Inv(n, p)
    ensures var q := AnswerPair(n, p.(strikes := 0, tail := head, flags := []), 0, rtails);
            && q.tail == head && Taken(q) == head && q.flags == [] && q.strikes == 0
            && forall j :: 0 <= j < |q.recs| && q.recs[j].live ==> q.recs[j].pending == PendingGone
  {
    hide AnswerPair, Holds;
    forall i: nat | i < n
      ensures (p.recs[i].pending != PendingNone ==> p.recs[i].live) && (p.recs[i].live ==> p.recs[i].slot == i)
    {
      assert RecOk(n, p, i);
    }
    var s := p.(strikes := 0, tail := head, flags := []);
    AddNone(head);
    AnswerPairInv(n, s, 0, rtails);
    AnswerPairAll(n, s, 0, rtails);
  }

  lemma {:induction false} AnswerPairAll(n: nat, p: Pair, i: nat, rtails: seq<U32>)
    requires Abandoning(n, p, i)
    ensures var q := AnswerPair(n, p, i, rtails);
            q.strikes == p.strikes && forall j :: 0 <= j < |q.recs| && q.recs[j].live ==> q.recs[j].pending == PendingGone
    decreases n - i
  {
    if i < n {
      hide AnswerOne;
      AnswerOneKeeps(n, p, i, LoadAt(rtails, i));
      AnswerOneStrikes(n, p, i, LoadAt(rtails, i));
      AnswerPairAll(n, AnswerOne(n, p, i, LoadAt(rtails, i)), i + 1, rtails);
    }
  }

  lemma AnswerOneStrikes(n: nat, p: Pair, i: nat, rtail: U32)
    requires i < |p.recs|
    ensures AnswerOne(n, p, i, rtail).strikes == p.strikes
  {
  }

  // ---- A publication ----

  /** This node's head as it stands against the far tail, once that is believed. */
  function HeadAgainst(n: nat, p: Pair, rtail: U32): U32 { if TailFits(n, p, rtail) then p.rhead else rtail }

  /** The reply slots free under a far tail believed. */
  function Free(n: nat, p: Pair, rtail: U32): int { n - Sub(HeadAgainst(n, p, rtail), rtail) }

  predicate Believed(n: nat, p: Pair, rtail: U32) { TailFits(n, p, rtail) || p.tailStrikes + 1 >= DEPTH_STRIKES }

  /** An answer is published exactly when the tail read is believed and leaves a slot free; then its tag
      is the last published and the head is one on. Refused, nothing is published. */
  lemma SendSays(n: nat, p: Pair, rtail: U32, tag: Tag)
    requires Slots(n)
    ensures var (q, sent) := Send(n, p, rtail, tag);
            && (sent == SentOk <==> Believed(n, p, rtail) && Free(n, p, rtail) > 0)
            && (sent == SentDepth <==> !Believed(n, p, rtail))
            && (sent == SentFull <==> Believed(n, p, rtail) && Free(n, p, rtail) <= 0)
            && q.replies == (if sent == SentOk then p.replies + [tag] else p.replies)
            && (Believed(n, p, rtail) ==> q.rhead == Add(HeadAgainst(n, p, rtail), if sent == SentOk then 1 else 0))
            && (!Believed(n, p, rtail) ==> q.rhead == p.rhead)
            && q == p.(rhead := q.rhead, tailStrikes := q.tailStrikes, replies := q.replies)
  {
    BelieveSays(n, p, rtail);
    AddNone(HeadAgainst(n, p, rtail));
  }

  lemma AddNone(a: U32)
    ensures Add(a, 0) == a
  {
  }

  // ---- What is owed ----

  /** The held slots no reply has been sent for. */
  function Unreplied(flags: seq<bool>): set<nat> { set i: nat | i < |flags| && !flags[i] }

  /** The records of an abandoned run. */
  function Gone(recs: seq<Record>): set<nat> { set i: nat | i < |recs| && recs[i].pending == PendingGone }

  lemma {:induction false} CountIs(flags: seq<bool>)
    ensures |flags| - Count(flags) == |Unreplied(flags)|
  {
    if flags != [] {
      var n := |flags| - 1;
      var rest := flags[..n];
      assert flags == rest + [flags[n]];
      CountLast(rest, flags[n]);
      CountIs(rest);
      if flags[n] {
        assert Unreplied(flags) == Unreplied(rest);
      } else {
        assert Unreplied(flags) == Unreplied(rest) + {n};
      }
    }
  }

  lemma {:induction false} CountLast(s: seq<bool>, b: bool)
    ensures Count(s + [b]) == Count(s) + if b then 1 else 0
  {
    if s != [] {
      assert (s + [b])[1..] == s[1..] + [b];
      CountLast(s[1..], b);
    } else {
      assert [b][1..] == [];
    }
  }

  lemma {:induction false} GoneIs(recs: seq<Record>)
    ensures CountGone(recs) == |Gone(recs)|
  {
    if recs != [] {
      var n := |recs| - 1;
      var rest := recs[..n];
      assert recs == rest + [recs[n]];
      GoneLast(rest, recs[n]);
      GoneIs(rest);
      if recs[n].pending == PendingGone {
        assert Gone(recs) == Gone(rest) + {n};
      } else {
        assert Gone(recs) == Gone(rest);
      }
    }
  }

  lemma {:induction false} GoneLast(s: seq<Record>, r: Record)
    ensures CountGone(s + [r]) == CountGone(s) + if r.pending == PendingGone then 1 else 0
  {
    if s != [] {
      assert (s + [r])[1..] == s[1..] + [r];
      GoneLast(s[1..], r);
    } else {
      assert [r][1..] == [];
    }
  }

  /** One more call may be taken exactly when the tail read is believed and the free reply slots exceed
      the replies owed: a held call each, and each record of an abandoned run. */
  lemma ReservedSays(n: nat, p: Pair, rtail: U32)
    requires Slots(n)
    ensures var (q, room) := Reserved(n, p, rtail);
            && (room <==> Believed(n, p, rtail) && Free(n, p, rtail) > |Unreplied(p.flags)| + |Gone(p.recs)|)
            && q == p.(rhead := q.rhead, tailStrikes := q.tailStrikes)
  {
    BelieveSays(n, p, rtail);
    CountIs(p.flags);
    GoneIs(p.recs);
  }

  // ---- A take ----

  predicate TooLong(m: Mint, h: Header) { h.len > m.bytes }

  predicate Unminted(m: Mint, h: Header) { h.len <= m.bytes && h.port !in m.ports }

  predicate IsReply(m: Mint, h: Header) { h.len <= m.bytes && h.port in m.ports && h.port == m.reply }

  predicate IsCall(m: Mint, h: Header) { h.len <= m.bytes && h.port in m.ports && h.port != m.reply }

  /** Something is unread under a head that fits. */
  predicate Unread(n: nat, p: Pair, head: U32) { HeadFits(n, p, head) && head != Taken(p) }

  /** The verdict of a take, from the ring, the header and the reply tail read. */
  ghost predicate Judges(n: nat, m: Mint, p: Pair, head: U32, h: Header, rtail: U32, v: Verdict) {
    && (v == Depth <==> !HeadFits(n, p, head))
    && (v == Empty <==> HeadFits(n, p, head) && head == Taken(p))
    && (v == Length <==> Unread(n, p, head) && TooLong(m, h))
    && (v == Port <==> Unread(n, p, head) && Unminted(m, h))
    && (v == Class <==> Unread(n, p, head) && IsReply(m, h))
    && (v == Took <==> Unread(n, p, head) && IsCall(m, h) && Believed(n, p, rtail) &&
                       Free(n, p, rtail) > |Unreplied(p.flags)| + |Gone(p.recs)|)
  }

  lemma DepthFits(n: nat, p: Pair, head: U32, rtails: seq<U32>)
    ensures var (q, ok) := DepthOk(n, p, head, rtails); (ok <==> HeadFits(n, p, head)) && (ok ==> q == p.(strikes := 0))
  {
  }

  lemma TakeJudges(n: nat, m: Mint, p: Pair, head: U32, h: Header, rtail: U32, rtails: seq<U32>)
    requires Slots(n)
    ensures Judges(n, m, p, head, h, rtail, TakeCall(n, m, p, head, h, rtail, rtails).1)
  {
    hide Sub, DepthOk, Reserved, Release, Unreplied, Gone;
    DepthFits(n, p, head, rtails);
    ReservedSays(n, p.(strikes := 0), rtail);
    Apart(head, Taken(p));
  }

  lemma Apart(a: U32, b: U32)
    ensures Sub(a, b) == 0 <==> a == b
  {
  }

  /** A call taken is the run's next slot, still to be answered; a refused header's slot is passed over
      and freed; a call that cannot be answered yet is left unread. No answer is published, and no
      record changes. */
  lemma TakeLeaves(n: nat, m: Mint, p: Pair, head: U32, h: Header, rtail: U32, rtails: seq<U32>)
    requires Slots(n) && RunOk(n, p) && HeadFits(n, p, head)
    ensures var (q, v) := TakeCall(n, m, p, head, h, rtail, rtails);
            && q.recs == p.recs && q.replies == p.replies && q.unsent == p.unsent && q.strikes == 0
            && (v == Took ==> q.tail == p.tail && q.flags == p.flags + [false])
            && (v == Empty || v == Reserve ==> q.tail == p.tail && q.flags == p.flags)
            && (v == Length || v == Port || v == Class ==>
                  && Taken(q) == Add(Taken(p), 1)
                  && forall i: nat :: i < n ==> (Holds(n, q, i) <==> Holds(n, p, i)))
  {
    hide Sub, Off, Lead, Unreplied, Gone, Reserved;
    DepthFits(n, p, head, rtails);
    TakeJudges(n, m, p, head, h, rtail, rtails);
    var s := p.(strikes := 0);
    ReservedSays(n, s, rtail);
    if Unread(n, p, head) {
      Apart(head, Taken(p));
      RoomToTake(n, p, head);
      Dropped(n, s);
    }
  }

  lemma Dropped(n: nat, p: Pair)
    requires Slots(n) && RunOk(n, p) && |p.flags| < n
    ensures var q := Release(n, p.(flags := p.flags + [false]), Taken(p) % n);
            Taken(q) == Add(Taken(p), 1) && forall i: nat :: i < n ==> (Holds(n, q, i) <==> Holds(n, p, i))
  {
    hide Off, Lead, Release;
    var a := Append(p);
    var slot := Taken(p) % n;
    AddAdd(p.tail, |p.flags|, 1);
    ReleaseRun(n, a, slot);
    forall i: nat | i < n
      ensures Holds(n, Release(n, a, slot), i) <==> Holds(n, p, i)
    {
      ReleaseHolds(n, a, slot, i);
      AppendHolds(n, p, i);
      AppendHolds(n, p, slot);
    }
  }

  lemma AppendHolds(n: nat, p: Pair, i: nat)
    requires Slots(n) && |p.flags| < n && i < n
    ensures Holds(n, Append(p), i) <==> Holds(n, p, i) || i == Taken(p) % n
    ensures !Holds(n, p, Taken(p) % n)
  {
    OffAt(n, p.tail, |p.flags|);
    if Off(n, i, p.tail) == |p.flags| {
      OffInjective(n, i, Taken(p) % n, p.tail);
    }
  }

  // ---- Delivery and answers ----

  /** A taken call delivered with its record free is seated there under a token not used before.
      Any other is answered here, if the ring takes it, and its slot freed. */
  lemma DispatchSays(n: nat, p: Pair, slot: nat, tag: Tag, deliver: bool, rtail: U32)
    requires Inv(n, p) && slot < n && Holds(n, p, slot)
    ensures var q := Dispatch(n, p, slot, tag, deliver, rtail);
            && (deliver && !p.recs[slot].live ==>
                  && q == p.(recs := q.recs) && |q.recs| == n && q.recs[slot].live && q.recs[slot].tag == tag
                  && q.recs[slot].gen == p.recs[slot].gen
                  && forall j :: 0 <= j < n && j != slot ==> q.recs[j] == p.recs[j])
            && (!(deliver && !p.recs[slot].live) ==>
                  && q.recs == p.recs
                  && q.replies == (if Believed(n, p, rtail) && Free(n, p, rtail) > 0 then p.replies + [tag] else p.replies)
                  && forall i: nat :: i < n ==> (Holds(n, q, i) <==> Holds(n, p, i) && i != slot))
  {
    hide Send, Release, Holds, Free, Believed;
    SendSays(n, p, rtail, tag);
    var q := Send(n, p, rtail, tag).0;
    SendInv(n, p, rtail, tag);
    ReleaseElse(n, q, slot);
    Freed(n, p, q, slot);
  }

  /** A release of a slot frees it and no other. */
  lemma Freed(n: nat, p: Pair, q: Pair, slot: nat)
    requires Slots(n) && RunOk(n, q) && q.tail == p.tail && q.flags == p.flags && slot < n
    ensures forall i: nat :: i < n ==> (Holds(n, Release(n, q, slot), i) <==> Holds(n, p, i) && i != slot)
  {
    hide Release;
    forall i: nat | i < n
      ensures Holds(n, Release(n, q, slot), i) <==> Holds(n, p, i) && i != slot
    {
      ReleaseHolds(n, q, slot, i);
    }
  }

  /** Whether an answer of `len` bytes goes out now. */
  predicate GoesOut(n: nat, m: Mint, p: Pair, len: nat, rtail: U32) {
    len <= m.bytes && Believed(n, p, rtail) && Free(n, p, rtail) > 0
  }

  /** An answer that goes out ends its record and frees its slot. One that does not is counted as lost,
      keeps its slot, and its token is dead. A token that names nothing changes nothing. */
  lemma ReplySays(n: nat, m: Mint, p: Pair, base: nat, token: nat, len: nat, rtail: U32)
    requires Inv(n, p)
    ensures var q := Reply(n, m, p, base, token, len, rtail);
            var i := Resolve(p, base, token);
            && (i < 0 ==> q == p)
            && (i >= 0 ==>
                  && |q.recs| == n && q.recs[i].gen == p.recs[i].gen + 1
                  && forall j :: 0 <= j < n && j != i ==> q.recs[j] == p.recs[j])
            && (i >= 0 && GoesOut(n, m, p, len, rtail) ==>
                  && q.replies == p.replies + [p.recs[i].tag] && q.unsent == p.unsent && !q.recs[i].live
                  && forall k: nat :: k < n ==> (Holds(n, q, k) <==> Holds(n, p, k) && k != i))
            && (i >= 0 && !GoesOut(n, m, p, len, rtail) ==>
                  && q.replies == p.replies && q.unsent == p.unsent + 1 && q.tail == p.tail && q.flags == p.flags
                  && q.recs[i].live && q.recs[i].pending == PendingHeld && q.recs[i].defers == 0
                  && q.recs[i].tag == p.recs[i].tag)
  {
    hide Send, Release, Holds, Free, Believed;
    var i := Resolve(p, base, token);
    if i >= 0 {
      var r := p.recs[i];
      assert RecOk(n, p, i);
      SendSays(n, p, rtail, r.tag);
      SendInv(n, p, rtail, r.tag);
      var q := SetRec(Send(n, p, rtail, r.tag).0, i, Drop(r));
      ReleaseElse(n, q, r.slot);
      Freed(n, p, q, r.slot);
    }
  }

  /** A deferred answer tried again is published, kept for a later pass, or, on its last pass, given up
      on; in the first case and the last its record ends, and its slot, if its run stands, is freed. */
  lemma RetrySays(n: nat, p: Pair, i: nat, rtail: U32)
    requires Inv(n, p) && i < n && p.recs[i].pending != PendingNone
    ensures var (q, on) := RetryOne(n, p, i, rtail);
            var r := p.recs[i];
            var out := Believed(n, p, rtail) && Free(n, p, rtail) > 0;
            && |q.recs| == n && (forall j :: 0 <= j < n && j != i ==> q.recs[j] == p.recs[j])
            && q.replies == (if out then p.replies + [r.tag] else p.replies)
            && (on <==> out || r.defers + 1 >= DEFER_PASSES)
            && (on ==> !q.recs[i].live && q.recs[i].pending == PendingNone && q.recs[i].gen == r.gen + 1)
            && (on && r.pending == PendingHeld ==> forall k: nat :: k < n ==> (Holds(n, q, k) <==> Holds(n, p, k) && k != i))
            && (on && r.pending == PendingGone ==> q.tail == p.tail && q.flags == p.flags)
            && (!on ==> q.recs[i] == r.(defers := r.defers + 1) && q.tail == p.tail && q.flags == p.flags)
  {
    hide Send, Release, Holds, Free, Believed;
    var r := p.recs[i];
    assert RecOk(n, p, i);
    SendSays(n, p, rtail, r.tag);
    SendInv(n, p, rtail, r.tag);
    var (q, sent) := Send(n, p, rtail, r.tag);
    var r' := if sent.SentOk? then r else r.(defers := r.defers + 1);
    var d := SetRec(q, i, Drop(r'));
    ReleaseElse(n, d, r.slot);
    Freed(n, p, d, r.slot);
  }

  /** What a node owes a caller of a run it abandons: an empty answer, counted as lost bytes, or a record
      left to be answered later. */
  lemma AnswerSays(n: nat, p: Pair, i: nat, rtail: U32)
    requires Slots(n) && i < |p.recs|
    ensures var q := AnswerOne(n, p, i, rtail);
            var r := p.recs[i];
            var first := r.live && r.pending == PendingNone;
            var out := first && Believed(n, p, rtail) && Free(n, p, rtail) > 0;
            && |q.recs| == |p.recs| && (forall j :: 0 <= j < |p.recs| && j != i ==> q.recs[j] == p.recs[j])
            && q.replies == (if out then p.replies + [r.tag] else p.replies)
            && q.unsent == p.unsent + (if first then 1 else 0)
            && (q.recs[i].live <==> r.live && !out)
            && (q.recs[i].live ==> q.recs[i].pending == PendingGone && q.recs[i].tag == r.tag)
  {
    hide Send, Free, Believed;
    var u := p.(unsent := p.unsent + 1);
    SendSays(n, u, rtail, p.recs[i].tag);
    SameFree(n, p, u, rtail);
  }

  lemma SameFree(n: nat, p: Pair, q: Pair, rtail: U32)
    requires q.rhead == p.rhead && q.tailStrikes == p.tailStrikes
    ensures Free(n, q, rtail) == Free(n, p, rtail) && Believed(n, q, rtail) == Believed(n, p, rtail)
  {
  }
}
