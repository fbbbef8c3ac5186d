/** One node's side of an ordered pair of AMP nodes: the call ring it consumes, the record each held
    call is, and the reply ring it produces into. The peer owns the call ring's head and the reply
    ring's tail; every value read from them is an argument, and may be anything. */
module AmpPair {
  import opened Modular

  /** Consecutive incredible far indices before the index this node owns is resynchronised. */
  const DEPTH_STRIKES: nat := 4

  /** Service passes one deferred answer may hold its call slot for. */
  const DEFER_PASSES: nat := 4

  datatype Pending = PendingNone | PendingHeld | PendingGone

  /** A caller's reply route, handed back as it came. */
  datatype Tag = Tag(thread: U32, sequence: U32)

  /** A held call. `gen` goes up each time the slot's record ends. */
  datatype Record = Record(tag: Tag, gen: nat, slot: nat, live: bool, pending: Pending, defers: nat)

  datatype Sent = SentOk | SentFull | SentDepth | SentLength

  datatype Verdict = Empty | Took | Depth | Length | Port | Class | Reserve

  /** What one slot's header says, read once. */
  datatype Header = Header(len: nat, port: nat, tag: Tag)

  /** Which headers this node takes: a slot's payload size, its minted ports, the reply port. */
  datatype Mint = Mint(bytes: nat, ports: set<nat>, reply: nat)

  /** The held run is [tail, tail + |flags|), one flag a slot, set once its reply was sent. `replies`
      is every answer published and `unsent` counts answers whose bytes were lost. */
  datatype Pair = Pair(
    tail: U32,
    flags: seq<bool>,
    recs: seq<Record>,
    strikes: nat,
    rhead: U32,
    tailStrikes: nat,
    replies: seq<Tag>,
    unsent: nat)

  function Taken(p: Pair): U32 { Add(p.tail, |p.flags|) }

  // ---- The held run ----

  /** The length of the longest released prefix. */
  function Lead(s: seq<bool>): (k: nat)
    ensures k <= |s|
    ensures forall i :: 0 <= i < k ==> s[i]
    ensures k < |s| ==> !s[k]
  {
    if s == [] || !s[0] then 0 else 1 + Lead(s[1..])
  }

  /** The held run once slot `slot` of it is released: the tail advances over the released prefix. A
      slot outside the run changes nothing. */
  function Release(n: nat, p: Pair, slot: int): Pair
    requires Slots(n)
  {
    var off := Off(n, slot, p.tail);
    if off >= |p.flags| then p
    else
      var flags := p.flags[off := true];
      p.(tail := Add(p.tail, Lead(flags)), flags := flags[Lead(flags)..])
  }

  /** The run with the slot past it taken. */
  function Append(p: Pair): Pair { p.(flags := p.flags + [false]) }

  // ---- The reply ring's producer ----

  /** Whether the far tail may be believed, after the strike bound. */
  function Believe(n: nat, p: Pair, rtail: U32): (Pair, bool) {
    if Sub(p.rhead, rtail) <= n then (p.(tailStrikes := 0), true)
    else if p.tailStrikes + 1 < DEPTH_STRIKES then (p.(tailStrikes := p.tailStrikes + 1), false)
    else (p.(tailStrikes := 0, rhead := rtail), true)
  }

  function Send(n: nat, p: Pair, rtail: U32, tag: Tag): (Pair, Sent) {
    var (q, believed) := Believe(n, p, rtail);
    if !believed then (q, SentDepth)
    else if Sub(q.rhead, rtail) >= n then (q, SentFull)
    else (q.(rhead := Add(q.rhead, 1), replies := q.replies + [tag]), SentOk)
  }

  // ---- Records ----

  function Drop(r: Record): Record { r.(live := false, pending := PendingNone, gen := r.gen + 1) }

  function Defer(r: Record, state: Pending): Record { r.(pending := state, defers := 0, gen := r.gen + 1) }

  function SetRec(p: Pair, i: nat, r: Record): Pair
    requires i < |p.recs|
  {
    p.(recs := p.recs[i := r])
  }

  /** The far tail as the `i`-th publication of a loop loads it. */
  function LoadAt(rtails: seq<U32>, i: nat): U32 { if i < |rtails| then rtails[i] else 0 }

  /** What a node owes the callers of a run it abandons: an empty answer each, or a PendingGone record. */
  function AnswerOne(n: nat, p: Pair, i: nat, rtail: U32): Pair
    requires i < |p.recs|
  {
    var r := p.recs[i];
    if !r.live then p
    else if r.pending != PendingNone then SetRec(p, i, r.(pending := PendingGone))
    else
      var (q, sent) := Send(n, p.(unsent := p.unsent + 1), rtail, r.tag);
      SetRec(q, i, if sent.SentOk? then Drop(r) else Defer(r, PendingGone))
  }

  function AnswerPair(n: nat, p: Pair, i: nat, rtails: seq<U32>): (q: Pair)
    requires i <= |p.recs|
    ensures |q.recs| == |p.recs|
    decreases |p.recs| - i
  {
    if i == |p.recs| then p else AnswerPair(n, AnswerOne(n, p, i, LoadAt(rtails, i)), i + 1, rtails)
  }

  /** One deferred answer tried again; the flag tells whether the pass goes on past it. */
  function RetryOne(n: nat, p: Pair, i: nat, rtail: U32): (Pair, bool)
    requires Slots(n) && i < |p.recs|
  {
    var r := p.recs[i];
    if r.pending == PendingNone then (p, true)
    else
      var (q, sent) := Send(n, p, rtail, r.tag);
      var r' := if sent.SentOk? then r else r.(defers := r.defers + 1);
      if !sent.SentOk? && r'.defers < DEFER_PASSES then (SetRec(q, i, r'), false)
      else
        var d := SetRec(q, i, Drop(r'));
        (if r.pending == PendingGone then d else Release(n, d, r.slot), true)
  }

  function Retry(n: nat, p: Pair, i: nat, rtails: seq<U32>): (q: Pair)
    requires Slots(n) && i <= |p.recs|
    ensures |q.recs| == |p.recs|
    decreases |p.recs| - i
  {
    if i == |p.recs| then p
    else
      var (q, on) := RetryOne(n, p, i, LoadAt(rtails, i));
      if on then Retry(n, q, i + 1, rtails) else q
  }

  // ---- Taking a call ----

  function DepthOk(n: nat, p: Pair, head: U32, rtails: seq<U32>): (Pair, bool) {
    if Sub(head, p.tail) <= n && Sub(head, Taken(p)) <= n then (p.(strikes := 0), true)
    else if p.strikes + 1 < DEPTH_STRIKES then (p.(strikes := p.strikes + 1), false)
    else (AnswerPair(n, p.(strikes := 0, tail := head, flags := []), 0, rtails), false)
  }

  function SlotOk(m: Mint, h: Header): Verdict {
    if h.len > m.bytes then Length
    else if h.port !in m.ports then Port
    else if h.port == m.reply then Class
    else Took
  }

  function Count(s: seq<bool>): (c: nat)
    ensures c <= |s|
  {
    if s == [] then 0 else (if s[0] then 1 else 0) + Count(s[1..])
  }

  function CountGone(s: seq<Record>): (c: nat)
    ensures c <= |s|
  {
    if s == [] then 0 else (if s[0].pending == PendingGone then 1 else 0) + CountGone(s[1..])
  }

  /** The replies this node still owes: one a held slot not released, one an abandoned record. */
  function Owed(p: Pair): nat { |p.flags| - Count(p.flags) + CountGone(p.recs) }

  /** Whether one more call may be taken: its reply must already have a slot. */
  function Reserved(n: nat, p: Pair, rtail: U32): (Pair, bool) {
    var (q, believed) := Believe(n, p, rtail);
    (q, believed && Sub(q.rhead, rtail) < n && n - Sub(q.rhead, rtail) > Owed(q))
  }

  function TakeCall(n: nat, m: Mint, p: Pair, head: U32, h: Header, rtail: U32, rtails: seq<U32>): (Pair, Verdict)
    requires Slots(n)
  {
    var (q, ok) := DepthOk(n, p, head, rtails);
    if !ok then (q, Depth)
    else if Sub(head, Taken(q)) == 0 then (q, Empty)
    else
      var v := SlotOk(m, h);
      if v != Took then (Release(n, q.(flags := q.flags + [false]), Taken(q) % n), v)
      else
        var (s, room) := Reserved(n, q, rtail);
        if !room then (s, Reserve) else (s.(flags := s.flags + [false]), Took)
  }

  /** A taken call delivered: seated as a record where a receiver takes it and its slot's record is
      free, answered and released otherwise. */
  function Dispatch(n: nat, p: Pair, slot: nat, tag: Tag, deliver: bool, rtail: U32): Pair
    requires Slots(n) && slot < |p.recs|
  {
    if deliver && !p.recs[slot].live then
      SetRec(p, slot, p.recs[slot].(tag := tag, slot := slot, live := true))
    else
      var (q, sent) := Send(n, p, rtail, tag);
      Release(n, q, slot)
  }

  // ---- Tokens ----

  /** A record's token: its index in the low half, its generation's low 16 bits in the high one. */
  function Token(index: nat, gen: nat): nat { (gen % 0x1_0000) * 0x1_0000 + index }

  /** Which record of this pair a token names: a live one of its generation. */
  function Resolve(p: Pair, base: nat, token: nat): (r: int)
    ensures -1 <= r < |p.recs|
  {
    var index := token % 0x1_0000;
    if index < base || index >= base + |p.recs| then -1
    else
      var r := p.recs[index - base];
      if r.live && r.gen % 0x1_0000 == (token / 0x1_0000) % 0x1_0000 then index - base else -1
  }

  /** The answer to the record `token` names; nothing for a token that names none. */
  function Reply(n: nat, m: Mint, p: Pair, base: nat, token: nat, len: nat, rtail: U32): Pair
    requires Slots(n)
  {
    var i := Resolve(p, base, token);
    if i < 0 then p
    else
      var r := p.recs[i];
      var (q, sent) := if len > m.bytes then (p, SentLength) else Send(n, p, rtail, r.tag);
      if sent.SentOk? then Release(n, SetRec(q, i, Drop(r)), r.slot)
      else SetRec(q.(unsent := q.unsent + 1), i, Defer(r, PendingHeld))
  }
}
