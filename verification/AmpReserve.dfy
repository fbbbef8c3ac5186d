/** Reply reservation: while the peer's indices stay credible and its reply tail only advances, the
    reply ring always has room for every answer owed, so no reply to a taken call is ever refused. */
module AmpReserve {
  import opened Modular
  import opened AmpPair
  import opened AmpSafety
  import opened AmpRun
  import opened AmpAnswers

  function Unreleased(flags: seq<bool>): nat { |flags| - Count(flags) }

  function Used(r: Run): U32 { Sub(r.p.rhead, r.rtail) }

  ghost predicate Quiet(p: Pair) { forall i :: 0 <= i < |p.recs| ==> p.recs[i].pending == PendingNone }

  /** The reply tail read now is the one last read, advanced over answers outstanding. */
  ghost predicate Advanced(r: Run, rtail: U32) { Sub(rtail, r.rtail) <= Used(r) }

  ghost predicate Credible(c: Config, r: Run, op: Op) {
    match op
    case Take(head, _, rtail, _) => Sub(head, r.p.tail) <= c.n && Sub(head, Taken(r.p)) <= c.n && Advanced(r, rtail)
    case Deliver(_, rtail) => Advanced(r, rtail)
    case Answer(_, len, rtail) => Advanced(r, rtail) && len <= c.mint.bytes
    case Pass(_) => true
  }

  /** Occupancy plus what is still owed fits the ring, and nothing is deferred. */
  ghost predicate Fits(c: Config, r: Run) {
    RunInv(c, r) && Quiet(r.p) && Used(r) + Unreleased(r.p.flags) <= c.n
  }

  /** And every call taken is answered, owed or being delivered. */
  ghost predicate Reserving(c: Config, r: Run) {
    Fits(c, r) && forall t :: Account(r, t) == r.took[t]
  }

  // ---- Counting ----

  lemma {:induction false} CountSet(s: seq<bool>, i: nat)
    requires i < |s| && !s[i]
    ensures Count(s[i := true]) == Count(s) + 1 && Count(s) < |s|
  {
    if i == 0 {
      assert s[0 := true][1..] == s[1..];
    } else {
      assert s[i := true][1..] == s[1..][i - 1 := true];
      CountSet(s[1..], i - 1);
    }
  }

  lemma {:induction false} CountDrop(s: seq<bool>, k: nat)
    requires k <= |s| && forall i :: 0 <= i < k ==> s[i]
    ensures Count(s[k..]) == Count(s) - k
  {
    if k > 0 {
      assert s[k..] == s[1..][k - 1..];
      CountDrop(s[1..], k - 1);
    } else {
      assert s[0..] == s;
    }
  }

  lemma {:induction false} CountAppend(s: seq<bool>)
    ensures Count(s + [false]) == Count(s)
  {
    if s != [] {
      assert (s + [false])[1..] == s[1..] + [false];
      CountAppend(s[1..]);
    }
  }

  lemma {:induction false} NoneGone(recs: seq<Record>)
    requires forall i :: 0 <= i < |recs| ==> recs[i].pending == PendingNone
    ensures CountGone(recs) == 0
  {
    if recs != [] {
      NoneGone(recs[1..]);
    }
  }

  lemma ReleaseOwes(n: nat, p: Pair, slot: nat)
    requires Slots(n) && RunOk(n, p) && Holds(n, p, slot)
    ensures Unreleased(Release(n, p, slot).flags) + 1 == Unreleased(p.flags)
  {
    hide Off, Slots, Count;
    var off := Off(n, slot, p.tail);
    CountSet(p.flags, off);
    var flags := p.flags[off := true];
    CountDrop(flags, Lead(flags));
  }

  // ---- Steps ----

  lemma UsedAfter(head: U32, was: U32, now: U32)
    requires Sub(now, was) <= Sub(head, was) <= 32
    ensures Sub(head, now) == Sub(head, was) - Sub(now, was)
  {
  }

  lemma UsedMore(head: U32, tail: U32)
    requires Sub(head, tail) < 32
    ensures Sub(Add(head, 1), tail) == Sub(head, tail) + 1
  {
  }

  /** A publication finds its slot: the tail is credible and one slot at least is free. */
  lemma SendFits(n: nat, p: Pair, rtail: U32, tag: Tag)
    requires Slots(n) && Sub(p.rhead, rtail) < n
    ensures var (q, sent) := Send(n, p, rtail, tag);
            && sent == SentOk && q.replies == p.replies + [tag] && q.recs == p.recs && q.unsent == p.unsent
            && q.flags == p.flags && q.tail == p.tail && q.strikes == p.strikes && q.tailStrikes == 0
            && Sub(q.rhead, rtail) == Sub(p.rhead, rtail) + 1
  {
    UsedMore(p.rhead, rtail);
  }

  lemma TakeReserves(c: Config, r: Run, head: U32, h: Header, rtail: U32, rtails: seq<U32>)
    requires Fits(c, r) && Credible(c, r, Take(head, h, rtail, rtails)) && r.serving.Idle?
    ensures var q := TakeCall(c.n, c.mint, r.p, head, h, rtail, rtails).0;
            && Quiet(q) && q.unsent == r.p.unsent && q.replies == r.p.replies
            && Sub(q.rhead, rtail) + Unreleased(q.flags) <= c.n
  {
    hide Tally, Lead, Off;
    UsedAfter(r.p.rhead, r.rtail, rtail);
    NoneGone(r.p.recs);
    CountAppend(r.p.flags);
    var q := r.p.(strikes := 0);
    if Sub(head, Taken(q)) != 0 && SlotOk(c.mint, h) != Took {
      DepthOkInv(c.n, r.p, head, rtails);
      RoomToTake(c.n, r.p, head);
      AppendInv(c.n, q);
      ReleaseOwes(c.n, q.(flags := q.flags + [false]), Taken(q) % c.n);
      ReleaseElse(c.n, q.(flags := q.flags + [false]), Taken(q) % c.n);
    }
  }

  lemma DispatchReserves(c: Config, r: Run, deliver: bool, rtail: U32)
    requires Fits(c, r) && Advanced(r, rtail)
    ensures r.serving.Serving? ==>
              var s := r.serving.slot; var q := Dispatch(c.n, r.p, s, r.serving.tag, deliver, rtail);
              && Quiet(q) && q.unsent == r.p.unsent && !r.p.recs[s].live
              && q.replies == (if deliver then r.p.replies else r.p.replies + [r.serving.tag])
              && Sub(q.rhead, rtail) + Unreleased(q.flags) <= c.n
              && forall t :: Tally(q, t) == Tally(r.p, t) + One(r.serving.tag == t)
  {
    hide Live, Send, Release, Off, Count, Inv;
    if r.serving.Serving? {
      var s := r.serving.slot;
      UsedAfter(r.p.rhead, r.rtail, rtail);
      HeldCounts(c.n, r.p, s);
      SeatFree(c.n, r.p, s);
      InvRun(c.n, r.p);
      if deliver {
        var rec := r.p.recs[s].(tag := r.serving.tag, slot := s, live := true);
        forall t
          ensures Tally(SetRec(r.p, s, rec), t) == Tally(r.p, t) + One(r.serving.tag == t)
        {
          SetTally(r.p, s, rec, t);
        }
      } else {
        SendFits(c.n, r.p, rtail, r.serving.tag);
        var q := Send(c.n, r.p, rtail, r.serving.tag).0;
        SameHolds(c.n, r.p, q, s);
        ReleaseOwes(c.n, q, s);
        ReleaseElse(c.n, q, s);
      }
    }
  }

  lemma HeldCounts(n: nat, p: Pair, i: nat)
    requires Slots(n) && Holds(n, p, i)
    ensures Unreleased(p.flags) >= 1
  {
    CountSet(p.flags, Off(n, i, p.tail));
  }

  lemma InvRun(n: nat, p: Pair)
    requires Inv(n, p)
    ensures RunOk(n, p)
  {
  }

  lemma SameHolds(n: nat, p: Pair, q: Pair, i: nat)
    requires Slots(n) && RunOk(n, p) && q.tail == p.tail && q.flags == p.flags && Holds(n, p, i)
    requires q.strikes == p.strikes && q.tailStrikes < DEPTH_STRIKES
    ensures RunOk(n, q) && Holds(n, q, i)
  {
  }

  lemma AnswerReserves(c: Config, r: Run, i: nat, token: nat, len: nat, rtail: U32)
    requires Fits(c, r) && Advanced(r, rtail) && len <= c.mint.bytes
    requires i < c.n && Resolve(r.p, c.base, token) == i
    ensures var q := Reply(c.n, c.mint, r.p, c.base, token, len, rtail);
            && Quiet(q) && q.unsent == r.p.unsent && q.replies == r.p.replies + [r.p.recs[i].tag]
            && Sub(q.rhead, rtail) + Unreleased(q.flags) <= c.n
  {
    hide Live, Send, Release, Off, Count, Inv, Holds;
    var rec := r.p.recs[i];
    RecNow(c.n, r.p, i);
    UsedAfter(r.p.rhead, r.rtail, rtail);
    HeldCounts(c.n, r.p, i);
    InvRun(c.n, r.p);
    SendFits(c.n, r.p, rtail, rec.tag);
    var q := SetRec(Send(c.n, r.p, rtail, rec.tag).0, i, Drop(rec));
    SameHolds(c.n, r.p, q, i);
    ReleaseOwes(c.n, q, i);
    ReleaseElse(c.n, q, i);
  }

  lemma RecNow(n: nat, p: Pair, i: nat)
    requires Inv(n, p) && i < n && p.recs[i].live && p.recs[i].pending == PendingNone
    ensures p.recs[i].slot == i && Holds(n, p, i)
  {
    assert RecOk(n, p, i);
  }

  lemma {:induction false} RetryQuiet(n: nat, p: Pair, i: nat, rtails: seq<U32>)
    requires Slots(n) && Quiet(p) && i <= |p.recs|
    ensures Retry(n, p, i, rtails) == p
    decreases |p.recs| - i
  {
    if i < |p.recs| {
      RetryQuiet(n, p, i + 1, rtails);
    }
  }

  lemma StepReserves(c: Config, r: Run, op: Op)
    requires Reserving(c, r) && Credible(c, r, op)
    ensures Reserving(c, Step(c, r, op)) && Step(c, r, op).p.unsent == r.p.unsent
  {
    hide TakeCall, Dispatch, Reply, Retry, Tally, Inv, Token, Resolve, Unreleased;
    StepInv(c, r, op);
    match op
    case Take(head, h, rtail, rtails) =>
      if r.serving.Idle? {
        TakeReserves(c, r, head, h, rtail, rtails);
        forall t
          ensures Tally(TakeCall(c.n, c.mint, r.p, head, h, rtail, rtails).0, t) == Tally(r.p, t)
        {
          TakeTally(c.n, c.mint, r.p, head, h, rtail, rtails, t);
        }
      }
    case Deliver(deliver, rtail) =>
      if r.serving.Serving? {
        DispatchReserves(c, r, deliver, rtail);
      }
    case Answer(cap, len, rtail) =>
      if r.serving.Idle? && cap in r.caps && r.p.recs[cap.i].gen - cap.gen < 0x1_0000 {
        var token := Token(c.base + cap.i, cap.gen);
        TokenNames(c, r, cap);
        assert CapOk(c, r, cap);
        if r.p.recs[cap.i].gen == cap.gen {
          AnswerReserves(c, r, cap.i, token, len, rtail);
        } else {
          DeadReply(c, r.p, token, len, rtail);
          UsedAfter(r.p.rhead, r.rtail, rtail);
        }
        forall t
          ensures Tally(Reply(c.n, c.mint, r.p, c.base, token, len, rtail), t) == Tally(r.p, t)
        {
          ReplyTally(c.n, c.mint, r.p, c.base, token, len, rtail, t);
        }
      }
    case Pass(rtails) =>
      RetryQuiet(c.n, r.p, 0, rtails);
  }

  lemma DeadReply(c: Config, p: Pair, token: nat, len: nat, rtail: U32)
    requires Slots(c.n) && Resolve(p, c.base, token) == -1
    ensures Reply(c.n, c.mint, p, c.base, token, len, rtail) == p
  {
  }

  /** Every op of the run is credible in the state it runs in. */
  ghost predicate CredibleRun(c: Config, r: Run, ops: seq<Op>)
    requires RunInv(c, r)
    decreases |ops|
  {
    ops == [] || (Credible(c, r, ops[0]) && (StepInv(c, r, ops[0]); CredibleRun(c, Step(c, r, ops[0]), ops[1..])))
  }

  /** Over every credible run the reservation holds and no answer's bytes are lost. */
  lemma {:induction false} ReservationConserved(c: Config, r: Run, ops: seq<Op>)
    requires Reserving(c, r) && CredibleRun(c, r, ops)
    ensures Reserving(c, Steps(c, r, ops)) && Steps(c, r, ops).p.unsent == r.p.unsent
    decreases |ops|
  {
    hide Step, Credible, Quiet, Tally;
    if ops != [] {
      StepReserves(c, r, ops[0]);
      ReservationConserved(c, Step(c, r, ops[0]), ops[1..]);
    }
  }

  /** The state a node starts in: the tail it finds adopted, nothing held, every record free. */
  function Boot(c: Config, tail: U32, rhead: U32, rtail: U32): Run {
    var free := Record(Tag(0, 0), 0, 0, false, PendingNone, 0);
    Run(Pair(tail, [], seq(c.n, _ => free), 0, rhead, 0, [], 0), Idle, {}, multiset{}, rtail)
  }

  lemma {:induction false} FreeLive(recs: seq<Record>, t: Tag)
    requires forall i :: 0 <= i < |recs| ==> !recs[i].live
    ensures Live(recs, t) == 0
  {
    if recs != [] {
      FreeLive(recs[1..], t);
    }
  }

  lemma BootHolds(c: Config, tail: U32, rhead: U32, rtail: U32)
    requires Lawful(c)
    ensures var r := Boot(c, tail, rhead, rtail);
            RunInv(c, r) && (forall t :: Account(r, t) == r.took[t]) && (Sub(rhead, rtail) <= c.n ==> Reserving(c, r))
  {
    var r := Boot(c, tail, rhead, rtail);
    forall t
      ensures Tally(r.p, t) == 0
    {
      FreeLive(r.p.recs, t);
    }
  }

  /** A capability that still names its seating always gets its answer published. */
  lemma NoReplyRefused(c: Config, r: Run, cap: Cap, len: nat, rtail: U32)
    requires Reserving(c, r) && Credible(c, r, Answer(cap, len, rtail)) && r.serving.Idle?
    requires cap in r.caps && cap.i < c.n && r.p.recs[cap.i].gen == cap.gen
    ensures var q := Step(c, r, Answer(cap, len, rtail)).p;
            q.replies == r.p.replies + [r.p.recs[cap.i].tag] && |q.recs| == c.n && !q.recs[cap.i].live
  {
    hide Send, Release, Token, Inv, Quiet, Tally, Count;
    TokenNames(c, r, cap);
    var token := Token(c.base + cap.i, cap.gen);
    AnswerReserves(c, r, cap.i, token, len, rtail);
    var rec := r.p.recs[cap.i];
    SendElse(c.n, r.p, rtail, rec.tag);
    ReleaseElse(c.n, SetRec(Send(c.n, r.p, rtail, rec.tag).0, cap.i, Drop(rec)), rec.slot);
  }

  /** So in every credible run from boot none is given up on: the calls taken from each caller are
      exactly those answered, those owed and the one being delivered. */
  lemma AnsweredExactly(c: Config, tail: U32, rhead: U32, rtail: U32, ops: seq<Op>, t: Tag)
    requires Lawful(c) && Sub(rhead, rtail) <= c.n && RunInv(c, Boot(c, tail, rhead, rtail))
    requires CredibleRun(c, Boot(c, tail, rhead, rtail), ops)
    ensures var u := Steps(c, Boot(c, tail, rhead, rtail), ops);
            u.took[t] == multiset(u.p.replies)[t] + Live(u.p.recs, t) + Now(u.serving, t)
    ensures AllGiven(c, Boot(c, tail, rhead, rtail), ops, t) == 0
  {
    hide Steps, CredibleRun, AllGiven, Fits;
    var r := Boot(c, tail, rhead, rtail);
    BootHolds(c, tail, rhead, rtail);
    ReservationConserved(c, r, ops);
    AnsweredOnce(c, r, ops, t);
  }
}
