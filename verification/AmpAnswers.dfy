/** Every taken call owes exactly one reply: whatever the peer does, each is answered, owed, being
    delivered or given up on, once. */
module AmpAnswers {
  import opened Modular
  import opened AmpPair
  import opened AmpSafety
  import opened AmpRun

  // ---- Answers against calls taken ----

  function One(b: bool): nat { if b then 1 else 0 }

  ghost function Live(recs: seq<Record>, t: Tag): nat {
    if recs == [] then 0 else One(recs[0].live && recs[0].tag == t) + Live(recs[1..], t)
  }

  /** The answers to `t` published and the answers to it still owed. */
  ghost function Tally(p: Pair, t: Tag): nat { multiset(p.replies)[t] + Live(p.recs, t) }

  ghost function Now(s: Serving, t: Tag): nat { One(s.Serving? && s.tag == t) }

  lemma {:induction false} SetLive(recs: seq<Record>, i: nat, r: Record, t: Tag)
    requires i < |recs|
    ensures Live(recs[i := r], t) + One(recs[i].live && recs[i].tag == t) == Live(recs, t) + One(r.live && r.tag == t)
  {
    if i == 0 {
      assert recs[0 := r][1..] == recs[1..];
    } else {
      assert recs[i := r][1..] == recs[1..][i - 1 := r];
      SetLive(recs[1..], i - 1, r, t);
    }
  }

  lemma SetTally(p: Pair, i: nat, r: Record, t: Tag)
    requires i < |p.recs|
    ensures Tally(SetRec(p, i, r), t) + One(p.recs[i].live && p.recs[i].tag == t) == Tally(p, t) + One(r.live && r.tag == t)
  {
    SetLive(p.recs, i, r, t);
  }

  lemma SendTally(n: nat, p: Pair, rtail: U32, tag: Tag, t: Tag)
    ensures var (q, sent) := Send(n, p, rtail, tag);
            Tally(q, t) == Tally(p, t) + One(sent.SentOk? && tag == t)
  {
    SendElse(n, p, rtail, tag);
  }

  lemma AnswerOneTally(n: nat, p: Pair, i: nat, rtail: U32, t: Tag)
    requires i < |p.recs|
    ensures Tally(AnswerOne(n, p, i, rtail), t) == Tally(p, t)
  {
    hide Send, Live;
    var r := p.recs[i];
    if r.live && r.pending != PendingNone {
      SetTally(p, i, r.(pending := PendingGone), t);
    } else if r.live {
      var u := p.(unsent := p.unsent + 1);
      SendTally(n, u, rtail, r.tag, t);
      SendElse(n, u, rtail, r.tag);
      var (q, sent) := Send(n, u, rtail, r.tag);
      SetTally(q, i, if sent.SentOk? then Drop(r) else Defer(r, PendingGone), t);
    }
  }

  lemma {:induction false} AnswerPairTally(n: nat, p: Pair, i: nat, rtails: seq<U32>, t: Tag)
    requires i <= |p.recs|
    ensures Tally(AnswerPair(n, p, i, rtails), t) == Tally(p, t)
    decreases |p.recs| - i
  {
    if i < |p.recs| {
      AnswerOneTally(n, p, i, LoadAt(rtails, i), t);
      AnswerPairTally(n, AnswerOne(n, p, i, LoadAt(rtails, i)), i + 1, rtails, t);
    }
  }

  /** Whether a retry gives up on record `i`'s answer, to `t`: the last pass it may wait is refused. */
  ghost function Stale(n: nat, p: Pair, i: nat, rtail: U32, t: Tag): nat
    requires i < |p.recs|
  {
    var r := p.recs[i];
    One(r.pending != PendingNone && r.tag == t && !Send(n, p, rtail, r.tag).1.SentOk? && r.defers + 1 >= DEFER_PASSES)
  }

  lemma RetryOneTally(n: nat, p: Pair, i: nat, rtail: U32, t: Tag)
    requires Slots(n) && i < |p.recs| && (p.recs[i].pending != PendingNone ==> p.recs[i].live)
    ensures Tally(RetryOne(n, p, i, rtail).0, t) + Stale(n, p, i, rtail, t) == Tally(p, t)
  {
    hide Send, Release, Live;
    var r := p.recs[i];
    if r.pending != PendingNone {
      SendTally(n, p, rtail, r.tag, t);
      SendElse(n, p, rtail, r.tag);
      var (q, sent) := Send(n, p, rtail, r.tag);
      var r' := if sent.SentOk? then r else r.(defers := r.defers + 1);
      SetTally(q, i, r', t);
      SetTally(q, i, Drop(r'), t);
      ReleaseElse(n, SetRec(q, i, Drop(r')), r.slot);
    }
  }

  /** The answers to `t` a pass gives up on. */
  ghost function AllStale(n: nat, p: Pair, i: nat, rtails: seq<U32>, t: Tag): nat
    requires Slots(n) && i <= |p.recs|
    decreases |p.recs| - i
  {
    if i == |p.recs| then 0
    else
      var (q, on) := RetryOne(n, p, i, LoadAt(rtails, i));
      Stale(n, p, i, LoadAt(rtails, i), t) + if on then AllStale(n, q, i + 1, rtails, t) else 0
  }

  lemma {:induction false} RetryTally(n: nat, p: Pair, i: nat, rtails: seq<U32>, t: Tag)
    requires Inv(n, p) && i <= n
    ensures Tally(Retry(n, p, i, rtails), t) + AllStale(n, p, i, rtails, t) == Tally(p, t)
    decreases n - i
  {
    hide Tally, Stale;
    if i < n {
      assert RecOk(n, p, i);
      RetryOneTally(n, p, i, LoadAt(rtails, i), t);
      RetryOneInv(n, p, i, LoadAt(rtails, i));
      var (q, on) := RetryOne(n, p, i, LoadAt(rtails, i));
      if on {
        RetryTally(n, q, i + 1, rtails, t);
      }
    }
  }

  lemma TakeTally(n: nat, m: Mint, p: Pair, head: U32, h: Header, rtail: U32, rtails: seq<U32>, t: Tag)
    requires Slots(n)
    ensures Tally(TakeCall(n, m, p, head, h, rtail, rtails).0, t) == Tally(p, t)
  {
    hide Release, AnswerPair, Live;
    AnswerPairTally(n, p.(strikes := 0, tail := head, flags := []), 0, rtails, t);
    var (q, ok) := DepthOk(n, p, head, rtails);
    ReleaseElse(n, q.(flags := q.flags + [false]), Taken(q) % n);
  }

  /** Whether a call answered at once has its answer refused. */
  ghost function Refused(n: nat, p: Pair, slot: nat, tag: Tag, deliver: bool, rtail: U32, t: Tag): nat
    requires slot < |p.recs|
  {
    One(tag == t && !(deliver && !p.recs[slot].live) && !Send(n, p, rtail, tag).1.SentOk?)
  }

  lemma DispatchTally(n: nat, p: Pair, slot: nat, tag: Tag, deliver: bool, rtail: U32, t: Tag)
    requires Slots(n) && slot < |p.recs|
    ensures Tally(Dispatch(n, p, slot, tag, deliver, rtail), t) + Refused(n, p, slot, tag, deliver, rtail, t) ==
            Tally(p, t) + One(tag == t)
  {
    hide Send, Release, Live;
    SetTally(p, slot, p.recs[slot].(tag := tag, slot := slot, live := true), t);
    SendTally(n, p, rtail, tag, t);
    ReleaseElse(n, Send(n, p, rtail, tag).0, slot);
  }

  lemma ReplyTally(n: nat, m: Mint, p: Pair, base: nat, token: nat, len: nat, rtail: U32, t: Tag)
    requires Slots(n)
    ensures Tally(Reply(n, m, p, base, token, len, rtail), t) == Tally(p, t)
  {
    hide Send, Release, Live;
    var i := Resolve(p, base, token);
    if i >= 0 {
      var r := p.recs[i];
      SendTally(n, p, rtail, r.tag, t);
      SendElse(n, p, rtail, r.tag);
      var (q, sent) := if len > m.bytes then (p, SentLength) else Send(n, p, rtail, r.tag);
      SetTally(q, i, Drop(r), t);
      ReleaseElse(n, SetRec(q, i, Drop(r)), r.slot);
      SetTally(q.(unsent := q.unsent + 1), i, Defer(r, PendingHeld), t);
    }
  }

  /** The answers to `t` one step gives up on. */
  ghost function Given(c: Config, r: Run, op: Op, t: Tag): nat
    requires RunInv(c, r)
  {
    match op
    case Take(_, _, _, _) => 0
    case Deliver(deliver, rtail) =>
      if r.serving.Serving? then Refused(c.n, r.p, r.serving.slot, r.serving.tag, deliver, rtail, t) else 0
    case Answer(_, _, _) => 0
    case Pass(rtails) => if r.serving.Serving? then 0 else AllStale(c.n, r.p, 0, rtails, t)
  }

  /** The calls from `t` answered, owed an answer or being delivered. */
  ghost function Account(r: Run, t: Tag): nat { Tally(r.p, t) + Now(r.serving, t) }

  lemma StepTally(c: Config, r: Run, op: Op, t: Tag)
    requires RunInv(c, r)
    ensures var r' := Step(c, r, op); Account(r', t) + Given(c, r, op, t) + r.took[t] == Account(r, t) + r'.took[t]
  {
    hide Tally, TakeCall, Dispatch, Reply, Retry, Token, Inv, Refused, AllStale;
    match op
    case Take(head, h, rtail, rtails) =>
      TakeTally(c.n, c.mint, r.p, head, h, rtail, rtails, t);
    case Deliver(deliver, rtail) =>
      if r.serving.Serving? {
        DispatchTally(c.n, r.p, r.serving.slot, r.serving.tag, deliver, rtail, t);
      }
    case Answer(cap, len, rtail) =>
      ReplyTally(c.n, c.mint, r.p, c.base, Token(c.base + cap.i, cap.gen), len, rtail, t);
    case Pass(rtails) =>
      RetryTally(c.n, r.p, 0, rtails, t);
  }

  /** The answers to `t` a run gives up on. */
  ghost function AllGiven(c: Config, r: Run, ops: seq<Op>, t: Tag): nat
    requires RunInv(c, r)
    decreases |ops|
  {
    if ops == [] then 0
    else StepInv(c, r, ops[0]); Given(c, r, ops[0], t) + AllGiven(c, Step(c, r, ops[0]), ops[1..], t)
  }

  /** Over every run, whatever the peer writes, the calls taken from each caller are exactly those
      answered, those owed an answer, the one being delivered and those given up on. */
  lemma {:induction false} AnsweredOnce(c: Config, r: Run, ops: seq<Op>, t: Tag)
    requires RunInv(c, r) && Account(r, t) == r.took[t]
    ensures var u := Steps(c, r, ops); u.took[t] == Account(u, t) + AllGiven(c, r, ops, t)
    decreases |ops|
  {
    Accounted(c, r, ops, t);
  }

  lemma {:induction false} Accounted(c: Config, r: Run, ops: seq<Op>, t: Tag)
    requires RunInv(c, r)
    ensures var u := Steps(c, r, ops); Account(u, t) + AllGiven(c, r, ops, t) + r.took[t] == Account(r, t) + u.took[t]
    decreases |ops|
  {
    hide Account, Step, Given;
    if ops != [] {
      StepInv(c, r, ops[0]);
      StepTally(c, r, ops[0], t);
      Accounted(c, Step(c, r, ops[0]), ops[1..], t);
    }
  }
}
