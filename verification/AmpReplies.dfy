/** The reply ring a node consumes. The callers its replies reach hold the ring's slots and give them
    back in any order, each by a token of the slot and the ring's generation. */
module AmpReplies {
  import opened Modular
  import opened AmpPair
  import opened AmpSafety
  import opened AmpLaws
  import L = AmpLaws

  /** A caller's hold on one reply slot. */
  datatype Hold = Hold(slot: nat, gen: nat)

  /** `p` carries the held run and its strikes. `gen` counts the ring's resynchronisations, and `holds`
      are those handed out and not given back. */
  datatype Inbox = Inbox(p: Pair, gen: nat, holds: set<Hold>)

  function ReplyOk(m: Mint, h: Header): Verdict {
    if h.len > m.bytes then Length else if h.port !in m.ports then Port else if h.port != m.reply then Class else Took
  }

  /** The head believed, refused, or, on its last strike, taken as it is: the ring's holds then die. */
  function CheckDepth(n: nat, s: Inbox, head: U32): (Inbox, bool) {
    if Sub(head, s.p.tail) <= n && Sub(head, Taken(s.p)) <= n then (s.(p := s.p.(strikes := 0)), true)
    else if s.p.strikes + 1 < DEPTH_STRIKES then (s.(p := s.p.(strikes := s.p.strikes + 1)), false)
    else (s.(p := s.p.(strikes := 0, tail := head, flags := []), gen := s.gen + 1), false)
  }

  /** One reply taken; an ill-formed one's slot is dropped. */
  function TakeReply(n: nat, m: Mint, s: Inbox, head: U32, h: Header): (Inbox, Verdict)
    requires Slots(n)
  {
    if Sub(head, s.p.tail) == 0 && Sub(head, Taken(s.p)) == 0 then (s, Empty)
    else
      var (q, ok) := CheckDepth(n, s, head);
      if !ok then (q, Depth)
      else if Sub(head, Taken(s.p)) == 0 then (q, Empty)
      else if ReplyOk(m, h) == Took then (q.(p := Append(q.p)), Took)
      else (q.(p := Release(n, Append(q.p), Taken(s.p) % n)), ReplyOk(m, h))
  }

  /** A taken reply is its caller's to hold; with no caller its slot is released at once. */
  function Deliver(n: nat, s: Inbox, slot: nat, caller: bool): Inbox
    requires Slots(n)
  {
    if caller then s.(holds := s.holds + {Hold(slot, s.gen)}) else s.(p := Release(n, s.p, slot))
  }

  predicate Current(s: Inbox, hold: Hold) { hold.gen % 0x1_0000 == s.gen % 0x1_0000 }

  predicate HoldLive(n: nat, s: Inbox, hold: Hold)
    requires Slots(n)
  {
    var off := Off(n, hold.slot, s.p.tail);
    Current(s, hold) && off < |s.p.flags| && !s.p.flags[off]
  }

  /** A hold given back. Only one of the ring's generation names a slot still its own. */
  function HoldRelease(n: nat, s: Inbox, hold: Hold): Inbox
    requires Slots(n)
  {
    var t := s.(holds := s.holds - {hold});
    if Current(s, hold) then t.(p := Release(n, s.p, hold.slot)) else t
  }

  /** The verdict of a take of a reply, from the ring and the header. */
  ghost predicate Judges(n: nat, m: Mint, s: Inbox, head: U32, h: Header, v: Verdict) {
    && (v == Depth <==> !HeadFits(n, s.p, head))
    && (v == Empty <==> HeadFits(n, s.p, head) && head == Taken(s.p))
    && (v == Length <==> Unread(n, s.p, head) && TooLong(m, h))
    && (v == Port <==> Unread(n, s.p, head) && Unminted(m, h))
    && (v == Class <==> Unread(n, s.p, head) && IsCall(m, h))
    && (v == Took <==> Unread(n, s.p, head) && IsReply(m, h))
  }

  lemma TakeJudges(n: nat, m: Mint, s: Inbox, head: U32, h: Header)
    requires Slots(n)
    ensures Judges(n, m, s, head, h, TakeReply(n, m, s, head, h).1)
  {
    hide Sub, Release, Taken;
    Apart(head, Taken(s.p));
    Apart(head, s.p.tail);
    NoneOver(n, head, s.p.tail);
    NoneOver(n, head, Taken(s.p));
  }

  lemma NoneOver(n: nat, a: U32, b: U32)
    requires Slots(n)
    ensures a == b ==> Sub(a, b) <= n
  {
  }

  /** A reply taken is the run's next slot, unreleased; a refused one's slot is passed over and freed;
      on its last strike an incredible head empties the run and moves the ring's generation, alone. */
  lemma TakeLeaves(n: nat, m: Mint, s: Inbox, head: U32, h: Header)
    requires Slots(n) && RunOk(n, s.p)
    ensures var (q, v) := TakeReply(n, m, s, head, h);
            && q.holds == s.holds
            && (v == Took ==> q.p.tail == s.p.tail && q.p.flags == s.p.flags + [false])
            && (v == Length || v == Port || v == Class ==>
                  && Taken(q.p) == Add(Taken(s.p), 1) && forall i: nat :: i < n ==> (Holds(n, q.p, i) <==> Holds(n, s.p, i)))
            && (v == Depth && s.p.strikes + 1 >= DEPTH_STRIKES ==> q.p.tail == head && q.p.flags == [] && q.gen == s.gen + 1)
            && (v == Depth && s.p.strikes + 1 < DEPTH_STRIKES ==> q == s.(p := s.p.(strikes := s.p.strikes + 1)))
            && (v != Depth ==> q.gen == s.gen)
            && (v == Empty ==> q.p.tail == s.p.tail && q.p.flags == s.p.flags)
  {
    hide Sub, Off, Lead, Release;
    TakeJudges(n, m, s, head, h);
    if Unread(n, s.p, head) {
      Apart(head, Taken(s.p));
      RoomToTake(n, s.p, head);
      L.Dropped(n, s.p.(strikes := 0));
    }
  }

  // ---- Runs ----

  datatype Op = Take(head: U32, header: Header, caller: bool) | GiveBack(hold: Hold)

  /** A hold is given back once, within 2^16 resynchronisations of its taking. */
  ghost predicate Can(s: Inbox, op: Op) {
    op.GiveBack? ==> op.hold in s.holds && s.gen - op.hold.gen < 0x1_0000
  }

  function Step(n: nat, m: Mint, s: Inbox, op: Op): Inbox
    requires Slots(n)
  {
    match op
    case Take(head, h, caller) =>
      var (q, v) := TakeReply(n, m, s, head, h);
      if v == Took then Deliver(n, q, Taken(s.p) % n, caller) else q
    case GiveBack(hold) => HoldRelease(n, s, hold)
  }

  function Run(n: nat, m: Mint, s: Inbox, ops: seq<Op>): Inbox
    requires Slots(n)
    decreases |ops|
  {
    if ops == [] then s else Run(n, m, Step(n, m, s, ops[0]), ops[1..])
  }

  ghost predicate CanAll(n: nat, m: Mint, s: Inbox, ops: seq<Op>)
    requires Slots(n)
    decreases |ops|
  {
    ops != [] ==> Can(s, ops[0]) && CanAll(n, m, Step(n, m, s, ops[0]), ops[1..])
  }

  /** Slot `i` of the run is unreleased exactly while a hold of the ring's generation names it. */
  ghost predicate Owned(n: nat, s: Inbox, i: nat)
    requires Slots(n)
  {
    Holds(n, s.p, i) <==> Hold(i, s.gen) in s.holds
  }

  ghost predicate HoldsOk(n: nat, s: Inbox) { forall hold :: hold in s.holds ==> hold.slot < n && hold.gen <= s.gen }

  ghost predicate RepliesOk(n: nat, s: Inbox) {
    && Slots(n) && RunOk(n, s.p) && HoldsOk(n, s)
    && forall i: nat :: i < n ==> Owned(n, s, i)
  }

  /** Nothing held, whatever the indices were found at. */
  lemma BootOk(n: nat, p: Pair)
    requires Slots(n) && p.flags == [] && p.strikes == 0 && p.tailStrikes == 0
    ensures RepliesOk(n, Inbox(p, 0, {}))
  {
    var s := Inbox(p, 0, {});
    assert forall i: nat :: i < n ==> Owned(n, s, i);
  }

  // ---- Holds ----

  lemma LowGen(a: nat, b: nat)
    requires a <= b && b - a < 0x1_0000
    ensures a % 0x1_0000 == b % 0x1_0000 <==> a == b
  {
  }

  /** A hold is live exactly while the ring has not been resynchronised since its taking. */
  lemma LiveIff(n: nat, s: Inbox, hold: Hold)
    requires RepliesOk(n, s) && hold in s.holds && s.gen - hold.gen < 0x1_0000
    ensures HoldLive(n, s, hold) <==> hold.gen == s.gen
    ensures Current(s, hold) <==> hold.gen == s.gen
  {
    assert Owned(n, s, hold.slot);
    LowGen(hold.gen, s.gen);
  }

  /** Giving a hold back frees its own slot and no other holder's; one lost to a resynchronisation
      frees nothing. */
  lemma GiveBackExact(n: nat, s: Inbox, hold: Hold, i: nat)
    requires RepliesOk(n, s) && Can(s, GiveBack(hold)) && i < n
    ensures Holds(n, HoldRelease(n, s, hold).p, i) <==> Holds(n, s.p, i) && (hold.gen == s.gen ==> i != hold.slot)
  {
    hide Holds, Release;
    LiveIff(n, s, hold);
    ReleaseHolds(n, s.p, hold.slot, i);
  }

  lemma GiveBackOk(n: nat, s: Inbox, hold: Hold)
    requires RepliesOk(n, s) && Can(s, GiveBack(hold))
    ensures RepliesOk(n, HoldRelease(n, s, hold))
  {
    hide Holds, Release;
    LiveIff(n, s, hold);
    ReleaseRun(n, s.p, hold.slot);
    var t := HoldRelease(n, s, hold);
    forall i: nat | i < n
      ensures Owned(n, t, i)
    {
      assert Owned(n, s, i);
      GiveBackExact(n, s, hold, i);
    }
  }

  /** A producer that keeps within the ring's room past the run writes no held slot. */
  lemma HeldNotWritten(n: nat, s: Inbox, head: U32, hold: Hold)
    requires RepliesOk(n, s) && hold in s.holds && hold.gen == s.gen && |s.p.flags| <= Sub(head, s.p.tail) < n
    ensures head % n != hold.slot
  {
    assert Owned(n, s, hold.slot);
    AddSub(s.p.tail, head);
    OffAt(n, s.p.tail, Sub(head, s.p.tail));
  }

  // ---- Takes ----

  lemma CheckDepthOk(n: nat, s: Inbox, head: U32)
    requires RepliesOk(n, s)
    ensures RepliesOk(n, CheckDepth(n, s, head).0)
  {
    var q := CheckDepth(n, s, head).0;
    forall i: nat | i < n
      ensures Owned(n, q, i)
    {
      assert Owned(n, s, i);
    }
  }

  lemma AppendRun(n: nat, p: Pair)
    requires RunOk(n, p) && |p.flags| < n
    ensures RunOk(n, Append(p))
  {
  }

  /** A taken slot goes to a holder of its own: no hold of the ring's generation already names it. */
  lemma KeepOk(n: nat, s: Inbox, slot: nat)
    requires RepliesOk(n, s) && |s.p.flags| < n && slot == Taken(s.p) % n
    ensures RepliesOk(n, Deliver(n, s.(p := Append(s.p)), slot, true)) && Hold(slot, s.gen) !in s.holds
  {
    hide Holds, Taken;
    var t := Deliver(n, s.(p := Append(s.p)), slot, true);
    AppendRun(n, s.p);
    forall i: nat | i < n
      ensures Owned(n, t, i)
    {
      assert Owned(n, s, i);
      AppendHolds(n, s.p, i);
    }
    assert Owned(n, s, slot);
    AppendHolds(n, s.p, slot);
  }

  lemma DropOk(n: nat, s: Inbox, slot: nat)
    requires RepliesOk(n, s) && |s.p.flags| < n && slot == Taken(s.p) % n
    ensures RepliesOk(n, s.(p := Release(n, Append(s.p), slot)))
  {
    hide Holds, Taken, Release;
    var t := s.(p := Release(n, Append(s.p), slot));
    AppendRun(n, s.p);
    ReleaseRun(n, Append(s.p), slot);
    forall i: nat | i < n
      ensures Owned(n, t, i)
    {
      assert Owned(n, s, i);
      AppendHolds(n, s.p, i);
      AppendHolds(n, s.p, slot);
      ReleaseHolds(n, Append(s.p), slot, i);
    }
  }

  lemma TakeOk(n: nat, m: Mint, s: Inbox, head: U32, h: Header, caller: bool)
    requires RepliesOk(n, s)
    ensures RepliesOk(n, Step(n, m, s, Take(head, h, caller)))
  {
    hide RepliesOk, Release, Sub, Add;
    CheckDepthOk(n, s, head);
    Room(n, s, head);
    var (q, ok) := CheckDepth(n, s, head);
    if ok && Sub(head, Taken(s.p)) != 0 {
      KeepOk(n, q, Taken(s.p) % n);
      DropOk(n, q, Taken(s.p) % n);
    }
  }

  lemma Room(n: nat, s: Inbox, head: U32)
    requires RepliesOk(n, s)
    ensures Slots(n) && (CheckDepth(n, s, head).1 && Sub(head, Taken(s.p)) != 0 ==> |s.p.flags| < n)
  {
    if CheckDepth(n, s, head).1 && Sub(head, Taken(s.p)) != 0 {
      RoomToTake(n, s.p, head);
    }
  }

  // ---- Whole runs ----

  lemma {:induction false} RunKeeps(n: nat, m: Mint, s: Inbox, ops: seq<Op>)
    requires RepliesOk(n, s) && CanAll(n, m, s, ops)
    ensures RepliesOk(n, Run(n, m, s, ops))
    decreases |ops|
  {
    hide Release, Owned, RunOk;
    if ops != [] {
      if ops[0].Take? {
        TakeOk(n, m, s, ops[0].head, ops[0].header, ops[0].caller);
      } else {
        GiveBackOk(n, s, ops[0].hold);
      }
      RunKeeps(n, m, Step(n, m, s, ops[0]), ops[1..]);
    }
  }

  /** A reply stays its caller's until given back: no take and no other holder's return disturbs it,
      and only a resynchronisation of the ring ends it. */
  lemma {:induction false} HeldUntil(n: nat, m: Mint, s: Inbox, ops: seq<Op>, hold: Hold)
    requires RepliesOk(n, s) && CanAll(n, m, s, ops) && hold in s.holds && GiveBack(hold) !in ops
    ensures var t := Run(n, m, s, ops); s.gen <= t.gen && hold in t.holds && (t.gen == hold.gen ==> HoldLive(n, t, hold))
    decreases |ops|
  {
    hide Release, RepliesOk, Sub, Taken, HoldLive;
    LiveNow(n, s, hold);
    if ops != [] {
      RunKeeps(n, m, s, [ops[0]]);
      assert Run(n, m, s, [ops[0]]) == Step(n, m, s, ops[0]);
      HeldUntil(n, m, Step(n, m, s, ops[0]), ops[1..], hold);
    }
  }

  lemma LiveNow(n: nat, s: Inbox, hold: Hold)
    requires RepliesOk(n, s) && hold in s.holds
    ensures Slots(n) && (s.gen == hold.gen ==> HoldLive(n, s, hold))
  {
    if s.gen == hold.gen {
      LiveIff(n, s, hold);
    }
  }
}
