/** Whole runs of a node against its peer: what holds in every reachable state whatever the peer
    writes, and what more holds while the peer's indices stay credible. */
module AmpRun {
  import opened Modular
  import opened AmpPair
  import opened AmpSafety

  /** A build: ring slots, the taker's mint, and where this pair's records start in the table. */
  datatype Config = Config(n: nat, mint: Mint, base: nat)

  predicate Lawful(c: Config) { Slots(c.n) && c.base + c.n <= 0xFFFF }

  /** A capability for one seating of one record. */
  datatype Cap = Cap(i: nat, gen: nat)

  datatype Serving = Idle | Serving(slot: nat, tag: Tag)

  /** `serving` is the call taken and not yet delivered, `caps` every capability ever handed out,
      `took` every call taken, `rtail` the reply tail last read. */
  datatype Run = Run(p: Pair, serving: Serving, caps: set<Cap>, took: multiset<Tag>, rtail: U32)

  datatype Op =
    | Take(head: U32, header: Header, rtail: U32, rtails: seq<U32>)
    | Deliver(deliver: bool, rtail: U32)
    | Answer(cap: Cap, len: nat, rtail: U32)
    | Pass(rtails: seq<U32>)

  /** One step. A call taken is delivered before anything else runs on this node; a capability is
      presented within 2^16 deaths of its record. */
  function Step(c: Config, r: Run, op: Op): Run
    requires Lawful(c) && |r.p.recs| == c.n && (r.serving.Serving? ==> r.serving.slot < c.n)
  {
    match op
    case Take(head, h, rtail, rtails) =>
      if r.serving.Serving? then r
      else
        var (q, v) := TakeCall(c.n, c.mint, r.p, head, h, rtail, rtails);
        if v == Took then
          r.(p := q, serving := Serving(Taken(r.p) % c.n, h.tag), took := r.took + multiset{h.tag}, rtail := rtail)
        else r.(p := q, rtail := rtail)
    case Deliver(deliver, rtail) =>
      if r.serving.Idle? then r
      else
        var s := r.serving.slot;
        var seated := deliver && !r.p.recs[s].live;
        r.(p := Dispatch(c.n, r.p, s, r.serving.tag, deliver, rtail), serving := Idle, rtail := rtail,
           caps := if seated then r.caps + {Cap(s, r.p.recs[s].gen)} else r.caps)
    case Answer(cap, len, rtail) =>
      if r.serving.Serving? || cap !in r.caps || cap.i >= c.n || r.p.recs[cap.i].gen - cap.gen >= 0x1_0000 then r
      else r.(p := Reply(c.n, c.mint, r.p, c.base, Token(c.base + cap.i, cap.gen), len, rtail), rtail := rtail)
    case Pass(rtails) =>
      if r.serving.Serving? then r else r.(p := Retry(c.n, r.p, 0, rtails))
  }

  // ---- Records only grow older ----

  /** A record of the same generation that owed nothing beyond its token is the same record. */
  ghost predicate Older(a: Record, b: Record) {
    b.gen > a.gen || (b.gen == a.gen && (a.live && a.pending == PendingNone ==> b == a))
  }

  ghost predicate AllOlder(p: Pair, q: Pair) {
    |q.recs| == |p.recs| && forall i :: 0 <= i < |p.recs| ==> Older(p.recs[i], q.recs[i])
  }

  lemma {:induction false} AnswerPairOlder(n: nat, p: Pair, i: nat, rtails: seq<U32>)
    requires i <= |p.recs|
    ensures AllOlder(p, AnswerPair(n, p, i, rtails))
    decreases |p.recs| - i
  {
    if i < |p.recs| {
      AnswerPairOlder(n, AnswerOne(n, p, i, LoadAt(rtails, i)), i + 1, rtails);
    }
  }

  lemma {:induction false} RetryOlder(n: nat, p: Pair, i: nat, rtails: seq<U32>)
    requires Slots(n) && i <= |p.recs|
    ensures AllOlder(p, Retry(n, p, i, rtails))
    decreases |p.recs| - i
  {
    if i < |p.recs| {
      var (q, on) := RetryOne(n, p, i, LoadAt(rtails, i));
      RetryOneOlder(n, p, i, LoadAt(rtails, i));
      if on {
        RetryOlder(n, q, i + 1, rtails);
        OlderTrans(p, q, Retry(n, p, i, rtails));
      }
    }
  }

  lemma RetryOneOlder(n: nat, p: Pair, i: nat, rtail: U32)
    requires Slots(n) && i < |p.recs|
    ensures AllOlder(p, RetryOne(n, p, i, rtail).0)
  {
    hide Send, Release;
    var r := p.recs[i];
    SendElse(n, p, rtail, r.tag);
    var (q, sent) := Send(n, p, rtail, r.tag);
    var r' := if sent.SentOk? then r else r.(defers := r.defers + 1);
    ReleaseElse(n, SetRec(q, i, Drop(r')), r.slot);
  }

  lemma OlderTrans(p: Pair, q: Pair, s: Pair)
    requires AllOlder(p, q) && AllOlder(q, s)
    ensures AllOlder(p, s)
  {
    forall i | 0 <= i < |p.recs|
      ensures Older(p.recs[i], s.recs[i])
    {
      assert Older(p.recs[i], q.recs[i]) && Older(q.recs[i], s.recs[i]);
    }
  }

  lemma TakeOlder(n: nat, m: Mint, p: Pair, head: U32, h: Header, rtail: U32, rtails: seq<U32>)
    requires Slots(n)
    ensures AllOlder(p, TakeCall(n, m, p, head, h, rtail, rtails).0)
  {
    hide Release, AnswerPair;
    AnswerPairOlder(n, p.(strikes := 0, tail := head, flags := []), 0, rtails);
    var (q, ok) := DepthOk(n, p, head, rtails);
    ReleaseElse(n, q.(flags := q.flags + [false]), Taken(q) % n);
  }

  lemma DispatchOlder(n: nat, p: Pair, slot: nat, tag: Tag, deliver: bool, rtail: U32)
    requires Slots(n) && slot < |p.recs|
    ensures AllOlder(p, Dispatch(n, p, slot, tag, deliver, rtail))
  {
    hide Release, Send;
    SendElse(n, p, rtail, tag);
    ReleaseElse(n, Send(n, p, rtail, tag).0, slot);
  }

  lemma ReplyOlder(n: nat, m: Mint, p: Pair, base: nat, token: nat, len: nat, rtail: U32)
    requires Slots(n)
    ensures AllOlder(p, Reply(n, m, p, base, token, len, rtail))
  {
    hide Release, Send;
    var i := Resolve(p, base, token);
    if i >= 0 {
      var r := p.recs[i];
      SendElse(n, p, rtail, r.tag);
      var (q, sent) := if len > m.bytes then (p, SentLength) else Send(n, p, rtail, r.tag);
      ReleaseElse(n, SetRec(q, i, Drop(r)), r.slot);
    }
  }

  lemma StepOlder(c: Config, r: Run, op: Op)
    requires Lawful(c) && |r.p.recs| == c.n && (r.serving.Serving? ==> r.serving.slot < c.n)
    ensures AllOlder(r.p, Step(c, r, op).p)
  {
    hide TakeCall, Dispatch, Reply, Retry;
    match op
    case Take(head, h, rtail, rtails) =>
      TakeOlder(c.n, c.mint, r.p, head, h, rtail, rtails);
    case Deliver(deliver, rtail) =>
      if r.serving.Serving? {
        DispatchOlder(c.n, r.p, r.serving.slot, r.serving.tag, deliver, rtail);
      }
    case Answer(cap, len, rtail) =>
      ReplyOlder(c.n, c.mint, r.p, c.base, Token(c.base + cap.i, cap.gen), len, rtail);
    case Pass(rtails) =>
      RetryOlder(c.n, r.p, 0, rtails);
  }

  // ---- The invariant of every run ----

  ghost predicate CapOk(c: Config, r: Run, cap: Cap)
    requires |r.p.recs| == c.n
  {
    && cap.i < c.n && cap.gen <= r.p.recs[cap.i].gen
    && (cap.gen == r.p.recs[cap.i].gen ==> r.p.recs[cap.i].live && r.p.recs[cap.i].pending == PendingNone)
  }

  ghost predicate ServingOk(c: Config, r: Run)
    requires Slots(c.n) && |r.p.recs| == c.n
  {
    r.serving.Serving? ==>
      && r.serving.slot < c.n && Holds(c.n, r.p, r.serving.slot)
      && (r.p.recs[r.serving.slot].live ==> r.p.recs[r.serving.slot].pending == PendingGone)
  }

  ghost predicate RunInv(c: Config, r: Run) {
    && Lawful(c) && |r.p.recs| == c.n && Inv(c.n, r.p) && ServingOk(c, r)
    && forall cap :: cap in r.caps ==> CapOk(c, r, cap)
  }

  /** A token resolves exactly while its seating lives. */
  lemma TokenNames(c: Config, r: Run, cap: Cap)
    requires RunInv(c, r) && cap in r.caps && r.p.recs[cap.i].gen - cap.gen < 0x1_0000
    ensures Resolve(r.p, c.base, Token(c.base + cap.i, cap.gen)) == if r.p.recs[cap.i].gen == cap.gen then cap.i as int else -1
  {
    assert CapOk(c, r, cap);
    TokenParts(c.base + cap.i, cap.gen);
    if r.p.recs[cap.i].gen != cap.gen {
      LowBits(cap.gen, r.p.recs[cap.i].gen);
    }
  }

  lemma TokenParts(index: nat, gen: nat)
    requires index < 0x1_0000
    ensures Token(index, gen) % 0x1_0000 == index && (Token(index, gen) / 0x1_0000) % 0x1_0000 == gen % 0x1_0000
  {
  }

  lemma LowBits(a: nat, b: nat)
    requires a < b < a + 0x1_0000
    ensures a % 0x1_0000 != b % 0x1_0000
  {
  }

  lemma DeliverInv(c: Config, r: Run, deliver: bool, rtail: U32)
    requires RunInv(c, r)
    ensures RunInv(c, Step(c, r, Deliver(deliver, rtail)))
  {
    hide Send, Release, Inv, Holds;
    var r' := Step(c, r, Deliver(deliver, rtail));
    if r.serving.Serving? {
      var s := r.serving.slot;
      DispatchInv(c.n, r.p, s, r.serving.tag, deliver, rtail);
      SeatFree(c.n, r.p, s);
      SendElse(c.n, r.p, rtail, r.serving.tag);
      ReleaseElse(c.n, Send(c.n, r.p, rtail, r.serving.tag).0, s);
      forall cap | cap in r'.caps
        ensures CapOk(c, r', cap)
      {
        if cap in r.caps {
          assert CapOk(c, r, cap);
        }
      }
    }
  }

  lemma SeatFree(n: nat, p: Pair, i: nat)
    requires Inv(n, p) && i < n
    ensures !p.recs[i].live ==> p.recs[i].pending == PendingNone
  {
    assert RecOk(n, p, i);
  }

  lemma StepInv(c: Config, r: Run, op: Op)
    requires RunInv(c, r)
    ensures RunInv(c, Step(c, r, op))
  {
    hide TakeCall, Dispatch, Reply, Retry, Inv, Holds, Token, Resolve;
    var r' := Step(c, r, op);
    StepOlder(c, r, op);
    match op {
      case Take(head, h, rtail, rtails) =>
        TakeCallInv(c.n, c.mint, r.p, head, h, rtail, rtails);
      case Deliver(deliver, rtail) =>
        DeliverInv(c, r, deliver, rtail);
      case Answer(cap, len, rtail) =>
        if cap in r.caps && r.p.recs[cap.i].gen - cap.gen < 0x1_0000 {
          TokenNames(c, r, cap);
          assert CapOk(c, r, cap);
          ReplyInv(c.n, c.mint, r.p, c.base, Token(c.base + cap.i, cap.gen), len, rtail);
        }
      case Pass(rtails) =>
        RetryInv(c.n, r.p, 0, rtails);
    }
    forall cap | cap in r'.caps
      ensures CapOk(c, r', cap)
    {
      if cap in r.caps {
        assert CapOk(c, r, cap);
        assert Older(r.p.recs[cap.i], r'.p.recs[cap.i]);
      }
    }
  }

  /** A run of any length, whatever the peer writes at any step of it. */
  function Steps(c: Config, r: Run, ops: seq<Op>): Run
    requires RunInv(c, r)
    decreases |ops|
  {
    if ops == [] then r else StepInv(c, r, ops[0]); Steps(c, Step(c, r, ops[0]), ops[1..])
  }

  lemma {:induction false} EveryRun(c: Config, r: Run, ops: seq<Op>)
    requires RunInv(c, r)
    ensures RunInv(c, Steps(c, r, ops)) && AllOlder(r.p, Steps(c, r, ops).p)
    decreases |ops|
  {
    if ops != [] {
      var q := Step(c, r, ops[0]);
      StepInv(c, r, ops[0]);
      StepOlder(c, r, ops[0]);
      EveryRun(c, q, ops[1..]);
      OlderTrans(r.p, q.p, Steps(c, r, ops).p);
    }
  }
}
