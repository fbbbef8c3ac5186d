/** Any number of producers draining one ring on a backend with no interrupt, one lock body a step,
    with contexts the lock does not stop nested in a push; and the interrupt's own drain. */
module TxDrain {
  import opened TxStream

  /** `gone` counts the bytes that have left the ring. `active` maps a producer draining to the point
      it drains up to, `pusher` is the one whose push is under way, and `carry` the point handed to it. */
  datatype Sys = Sys(tx: Tx, gone: nat, active: map<nat, nat>, pusher: nat, carried: bool, carry: nat)

  /** The ring's room and whether an interrupt drains it. */
  datatype Setup = Setup(room: nat, irq: bool)

  datatype Op =
    | Queue(p: nat, line: seq<Byte>, crlf: bool, free: nat)
    | Reprime(free: nat)
    | MakeRoom(p: nat, needed: nat)
    | Enter(p: nat, slotFree: bool)
    | Push
    | Wedge(p: nat)
    | Isr(free: nat)
    | Flush(free: nat)

  /** Every byte ever queued. */
  function Total(s: Sys): nat { s.gone + |s.tx.ring| }

  ghost predicate Can(c: Setup, s: Sys, op: Op) {
    match op
    case Queue(p, _, _, _) => p !in s.active
    case Reprime(_) => true
    case MakeRoom(p, needed) => p !in s.active && needed <= c.room
    case Enter(p, _) => p in s.active && (s.tx.pushing ==> p != s.pusher)
    case Push => s.tx.pushing && s.tx.hand != []
    case Wedge(p) => p in s.active && !s.tx.pushing
    case Isr(_) => c.irq && !s.tx.pushing
    case Flush(_) => true
  }

  function Step(c: Setup, s: Sys, op: Op): Sys {
    match op
    case Queue(p, line, crlf, free) => Queued(c, s, p, line, crlf, free)
    case Reprime(free) => if s.tx.ring == [] then s else Moved(s, Inserted(s.tx, c.room, [], false, free), 0)
    case MakeRoom(p, needed) =>
      if needed + |s.tx.ring| <= c.room || c.irq then s
      else s.(active := s.active[p := s.gone + (needed + |s.tx.ring| - c.room)])
    case Enter(p, slotFree) => if p in s.active then Entered(c, s, p, slotFree) else s
    case Push =>
      var t := s.(tx := Pushed(s.tx), carried := false);
      if s.carried then t.(active := s.active[s.pusher := s.carry]) else t
    case Wedge(p) => Moved(s, Lost(s.tx), 0).(active := s.active - {p})
    case Isr(free) => Moved(s, Sent(s.tx, Min(free, |s.tx.ring|)), 0)
    case Flush(free) => Moved(s, Flushed(s.tx, free), 0)
  }

  /** The stream moved on, `more` bytes having been queued. */
  function Moved(s: Sys, tx: Tx, more: nat): Sys {
    var total := Total(s) + more;
    s.(tx := tx, gone := if total >= |tx.ring| then total - |tx.ring| else 0)
  }

  function Queued(c: Setup, s: Sys, p: nat, line: seq<Byte>, crlf: bool, free: nat): Sys {
    if !Fits(s.tx, c.room, line, crlf) then s
    else
      var t := Moved(s, Inserted(s.tx, c.room, line, crlf, free), |Expand(line, crlf)|);
      t.(active := s.active[p := Total(t)])
  }

  /** One turn of a drain: left to the push it interrupted, over, or one byte taken if the device has
      a slot for it. */
  function Entered(c: Setup, s: Sys, p: nat, slotFree: bool): Sys
    requires p in s.active
  {
    if s.tx.pushing then s.(carried := true, carry := Total(s), active := s.active - {p})
    else if c.irq || s.gone >= s.active[p] then s.(active := s.active - {p})
    else if slotFree && s.tx.ring != [] then s.(tx := Taken(s.tx), gone := s.gone + 1, pusher := p)
    else s
  }

  // ---- What every step keeps ----

  /** Someone still drains up to `point`, or it has been passed. */
  ghost predicate Covered(s: Sys, point: nat) {
    s.gone >= point || (s.carried && s.carry >= point) || exists p :: p in s.active && s.active[p] >= point
  }

  ghost predicate Inv(c: Setup, s: Sys) {
    && TxOk(s.tx, c.room)
    && (forall p :: p in s.active ==> s.active[p] <= Total(s))
    && (s.tx.pushing ==> s.pusher in s.active && (s.tx.hand != [] ==> s.gone <= s.active[s.pusher]))
    && (s.carried ==> s.tx.pushing && s.carry <= Total(s) && s.pusher in s.active && s.active[s.pusher] <= s.carry)
    && (!c.irq ==> Covered(s, Total(s)))
  }

  lemma QueueInv(c: Setup, s: Sys, p: nat, line: seq<Byte>, crlf: bool, free: nat)
    requires Inv(c, s) && p !in s.active
    ensures Inv(c, Queued(c, s, p, line, crlf, free))
  {
    hide Expand;
    var t := Queued(c, s, p, line, crlf, free);
    if Fits(s.tx, c.room, line, crlf) {
      assert t.active[p] == Total(t);
    }
  }

  lemma EnterInv(c: Setup, s: Sys, p: nat, slotFree: bool)
    requires Inv(c, s) && Can(c, s, Enter(p, slotFree))
    ensures Inv(c, Entered(c, s, p, slotFree))
  {
    var t := Entered(c, s, p, slotFree);
    if !s.tx.pushing && !c.irq && s.gone < Total(s) {
      var q :| q in s.active && s.active[q] >= Total(s);
      assert q in t.active && t.active[q] >= Total(t);
    }
  }

  lemma PushInv(c: Setup, s: Sys)
    requires Inv(c, s) && Can(c, s, Push)
    ensures Inv(c, Step(c, s, Push))
  {
    var t := Step(c, s, Push);
    if !c.irq && s.gone < Total(s) {
      if s.carried && s.carry >= Total(s) {
        assert t.active[s.pusher] >= Total(t);
      } else {
        var q :| q in s.active && s.active[q] >= Total(s);
        assert q in t.active && t.active[q] >= Total(t);
      }
    }
  }

  /** A step of the bytes alone, with nobody joining or leaving. */
  lemma MovedInv(c: Setup, s: Sys, tx: Tx)
    requires Inv(c, s) && TxOk(tx, c.room) && |tx.ring| <= |s.tx.ring| && tx.pushing == s.tx.pushing
    requires tx.hand != [] ==> tx == s.tx
    ensures Inv(c, Moved(s, tx, 0)) && Total(Moved(s, tx, 0)) == Total(s)
  {
    var t := Moved(s, tx, 0);
    if !c.irq && s.gone < Total(s) && !(s.carried && s.carry >= Total(s)) {
      var q :| q in s.active && s.active[q] >= Total(s);
      assert q in t.active && t.active[q] >= Total(t);
    }
  }

  lemma StepInv(c: Setup, s: Sys, op: Op)
    requires Inv(c, s) && Can(c, s, op)
    ensures Inv(c, Step(c, s, op))
  {
    match op
    case Queue(p, line, crlf, free) => QueueInv(c, s, p, line, crlf, free);
    case Reprime(free) =>
      assert s.tx.ring + [] == s.tx.ring;
      MovedInv(c, s, Inserted(s.tx, c.room, [], false, free));
    case MakeRoom(p, needed) => RoomInv(c, s, p, needed);
    case Enter(p, slotFree) => EnterInv(c, s, p, slotFree);
    case Push => PushInv(c, s);
    case Wedge(p) =>
    case Isr(free) => MovedInv(c, s, Sent(s.tx, Min(free, |s.tx.ring|)));
    case Flush(free) => MovedInv(c, s, Flushed(s.tx, free));
  }

  lemma RoomInv(c: Setup, s: Sys, p: nat, needed: nat)
    requires Inv(c, s) && Can(c, s, MakeRoom(p, needed))
    ensures Inv(c, Step(c, s, MakeRoom(p, needed)))
  {
    var t := Step(c, s, MakeRoom(p, needed));
    if !c.irq && s.gone < Total(s) && !(s.carried && s.carry >= Total(s)) {
      var q :| q in s.active && s.active[q] >= Total(s);
      assert q in t.active && t.active[q] >= Total(t);
    }
  }

  // ---- The stream ----

  /** A run's account: the bytes of every accepted line in order, where in them each byte of the
      stream is from, and which were lost. */
  datatype Log = Log(sys: Sys, accepted: seq<Byte>, at: seq<nat>, lost: set<nat>)

  const BOOT: Log := Log(Sys(Tx([], [], [], false), 0, map[], 0, false, 0), [], [], {})

  /** What a step adds to the accepted lines. */
  function Added(c: Setup, s: Sys, op: Op): seq<Byte> {
    if op.Queue? && Fits(s.tx, c.room, op.line, op.crlf) then Expand(op.line, op.crlf) else []
  }

  /** The stretches [a, b) and [e, ...) cut out of a sequence. */
  datatype Cut = Cut(a: nat, b: nat, e: nat)

  function Kept<T>(x: seq<T>, k: Cut): seq<T> {
    if k.a <= k.b <= k.e <= |x| then x[..k.a] + x[k.b..k.e] else x
  }

  function Dropped<T>(x: seq<T>, k: Cut): seq<T> {
    if k.a <= k.b <= k.e <= |x| then x[k.a..k.b] + x[k.e..] else []
  }

  function Set(x: seq<nat>): set<nat> { set i | i in x }

  /** What of the stream a step loses: what the ring holds when a stuck channel is given up on, and
      before a flush the byte in the hand of a push that never resumes. */
  function Losing(s: Sys, op: Op): Cut {
    var d, h, n := |s.tx.device|, |s.tx.hand|, |s.tx.ring|;
    match op
    case Wedge(_) => Cut(d, d, d + h)
    case Flush(free) => Cut(d, d + h, d + h + Min(free, n))
    case _ => Cut(d, d, d + h + n)
  }

  function Logged(c: Setup, l: Log, op: Op): Log {
    var add, cut := Added(c, l.sys, op), Losing(l.sys, op);
    Log(Step(c, l.sys, op),
        l.accepted + add,
        Kept(l.at, cut) + Fresh(|l.accepted|, |add|),
        l.lost + Set(Dropped(l.at, cut)))
  }

  /** A step of the stream loses that, adds an accepted line whole at its end, and reorders nothing. */
  lemma StreamStep(c: Setup, s: Sys, op: Op)
    requires Inv(c, s) && Can(c, s, op)
    ensures Stream(Step(c, s, op).tx) == Kept(Stream(s.tx), Losing(s, op)) + Added(c, s, op)
  {
    hide Expand, Stream, Kept, Inserted, Flushed;
    var d, h, n := |s.tx.device|, |s.tx.hand|, |s.tx.ring|;
    match op
    case Queue(_, line, crlf, free) =>
      KeptAll(s.tx);
      InsertStream(s.tx, c.room, line, crlf, free);
    case Reprime(free) =>
      KeptAll(s.tx);
      ExpandNone();
      InsertStream(s.tx, c.room, [], false, free);
    case Enter(p, slotFree) =>
      KeptAll(s.tx);
      TakenStream(s.tx);
    case Push =>
      KeptAll(s.tx);
      PushedStream(s.tx);
    case Isr(free) =>
      KeptAll(s.tx);
      SentStream(s.tx, Min(free, |s.tx.ring|));
    case Wedge(_) => LostStream(s.tx);
    case Flush(free) => FlushStream(s.tx, free);
    case MakeRoom(_, _) => KeptAll(s.tx);
  }

  lemma KeptAll(s: Tx)
    ensures Kept(Stream(s), Cut(|s.device|, |s.device|, |s.device| + |s.hand| + |s.ring|)) + [] == Stream(s)
  {
  }

  lemma SentStream(s: Tx, n: nat)
    requires s.hand == [] && n <= |s.ring|
    ensures Stream(Sent(s, n)) == Stream(s)
  {
  }

  lemma InsertStream(s: Tx, room: nat, line: seq<Byte>, crlf: bool, free: nat)
    requires TxOk(s, room)
    ensures Stream(Inserted(s, room, line, crlf, free)) == Stream(s)
            + if Fits(s, room, line, crlf) then Expand(line, crlf) else []
  {
    hide Expand;
    var t := s.(ring := s.ring + Expand(line, crlf));
    assert Stream(t) == Stream(s) + Expand(line, crlf);
    if t.ring != [] && !s.pushing {
      SentStream(t, 1);
    }
  }

  lemma TakenStream(s: Tx)
    ensures s.hand == [] && s.ring != [] ==> Stream(Taken(s)) == Stream(s)
  {
  }

  lemma PushedStream(s: Tx)
    ensures Stream(Pushed(s)) == Stream(s)
  {
  }

  lemma LostStream(s: Tx)
    ensures Stream(Lost(s)) == Kept(Stream(s), Cut(|s.device|, |s.device|, |s.device| + |s.hand|)) + []
  {
  }

  lemma FlushStream(s: Tx, free: nat)
    ensures Stream(Flushed(s, free)) ==
            Kept(Stream(s), Cut(|s.device|, |s.device| + |s.hand|, |s.device| + |s.hand| + Min(free, |s.ring|))) + []
  {
    hide Flushed, Stream, Kept;
    var n := Min(free, |s.ring|);
    FlushedIs(s, free);
    KeptPieces(s.device, s.hand, s.ring, n);
    StreamIs(s);
  }

  lemma StreamIs(s: Tx)
    ensures Stream(s) == s.device + s.hand + s.ring
  {
  }

  lemma FlushedIs(s: Tx, free: nat)
    ensures Stream(Flushed(s, free)) == s.device + s.ring[..Min(free, |s.ring|)] + []
  {
    assert s.ring[..|s.ring|] == s.ring;
  }

  lemma KeptPieces(x: seq<Byte>, y: seq<Byte>, z: seq<Byte>, n: nat)
    requires n <= |z|
    ensures Kept(x + y + z, Cut(|x|, |x| + |y|, |x| + |y| + n)) == x + z[..n]
  {
    var all := x + y + z;
    assert all[..|x|] == x;
    assert all[|x| + |y|..] == z;
    assert all[|x| + |y|..|x| + |y| + n] == all[|x| + |y|..][..n];
  }

  lemma ExpandNone()
    ensures Expand([], false) == []
  {
  }

  ghost predicate Increasing(at: seq<nat>, below: nat) {
    && (forall i, j :: 0 <= i < j < |at| ==> at[i] < at[j])
    && (forall i :: 0 <= i < |at| ==> at[i] < below)
  }

  ghost predicate Traces(stream: seq<Byte>, accepted: seq<Byte>, at: seq<nat>) {
    |at| == |stream| && forall i :: 0 <= i < |at| ==> at[i] < |accepted| && stream[i] == accepted[at[i]]
  }

  /** Every accepted byte is in the stream or lost, never both. */
  ghost predicate Accounted(at: seq<nat>, lost: set<nat>, below: nat) {
    && (forall i :: 0 <= i < below ==> (i in at <==> i !in lost))
    && (forall i :: i in lost ==> i < below)
  }

  ghost predicate LogOk(l: Log) {
    && Traces(Stream(l.sys.tx), l.accepted, l.at) && Increasing(l.at, |l.accepted|)
    && Accounted(l.at, l.lost, |l.accepted|)
  }

  /** The positions of `n` bytes accepted after `k` others. */
  function Fresh(k: nat, n: nat): seq<nat> { seq(n, i requires 0 <= i < n => k + i) }

  lemma KeptIncreasing(at: seq<nat>, below: nat, k: Cut, n: nat)
    requires Increasing(at, below)
    ensures Increasing(Kept(at, k) + Fresh(below, n), below + n)
  {
  }

  /** Where what is kept at `i` was. */
  function From(k: Cut, n: nat, i: nat): nat { if k.a <= k.b <= k.e <= n && i >= k.a then i + (k.b - k.a) else i }

  lemma KeptAt<T>(x: seq<T>, k: Cut, i: nat)
    requires i < |Kept(x, k)|
    ensures From(k, |x|, i) < |x| && Kept(x, k)[i] == x[From(k, |x|, i)]
  {
  }

  lemma KeptSize<T, U>(x: seq<T>, y: seq<U>, k: Cut)
    requires |x| == |y|
    ensures |Kept(x, k)| == |Kept(y, k)|
  {
  }

  lemma KeptTraces(stream: seq<Byte>, accepted: seq<Byte>, at: seq<nat>, k: Cut, add: seq<Byte>)
    requires Traces(stream, accepted, at)
    ensures Traces(Kept(stream, k) + add, accepted + add, Kept(at, k) + Fresh(|accepted|, |add|))
  {
    hide Kept;
    var s, p := Kept(stream, k) + add, Kept(at, k) + Fresh(|accepted|, |add|);
    KeptSize(stream, at, k);
    forall i | 0 <= i < |p|
      ensures p[i] < |accepted + add| && s[i] == (accepted + add)[p[i]]
    {
      if i < |Kept(at, k)| {
        KeptAt(stream, k, i);
        KeptAt(at, k, i);
      }
    }
  }

  lemma InKept(at: seq<nat>, k: Cut, i: nat)
    ensures i in at <==> i in Kept(at, k) || i in Dropped(at, k)
  {
    if k.a <= k.b <= k.e <= |at| {
      assert at == at[..k.a] + at[k.a..k.b] + at[k.b..k.e] + at[k.e..];
    }
  }

  lemma NotBoth(at: seq<nat>, below: nat, k: Cut, i: nat)
    requires Increasing(at, below) && i in Kept(at, k)
    ensures i !in Dropped(at, k)
  {
  }

  lemma KeptAccounted(at: seq<nat>, lost: set<nat>, below: nat, k: Cut, n: nat)
    requires Accounted(at, lost, below) && Increasing(at, below)
    ensures Accounted(Kept(at, k) + Fresh(below, n), lost + Set(Dropped(at, k)), below + n)
  {
    var at', lost' := Kept(at, k) + Fresh(below, n), lost + Set(Dropped(at, k));
    forall i: nat | i < below + n
      ensures i in at' <==> i !in lost'
    {
      InKept(at, k, i);
      if i in Kept(at, k) {
        NotBoth(at, below, k, i);
      }
      if i >= below {
        assert Fresh(below, n)[i - below] == i;
      }
    }
    forall i | i in lost'
      ensures i < below + n
    {
      InKept(at, k, i);
    }
  }

  lemma LoggedOk(c: Setup, l: Log, op: Op)
    requires Inv(c, l.sys) && Can(c, l.sys, op) && LogOk(l)
    ensures LogOk(Logged(c, l, op))
  {
    hide Increasing, Traces, Accounted, Kept, Dropped, Stream;
    var add, k := Added(c, l.sys, op), Losing(l.sys, op);
    StreamStep(c, l.sys, op);
    KeptIncreasing(l.at, |l.accepted|, k, |add|);
    KeptTraces(Stream(l.sys.tx), l.accepted, l.at, k, add);
    KeptAccounted(l.at, l.lost, |l.accepted|, k, |add|);
  }

  /** A byte newly lost was in the ring, past what the device took, as a stuck channel was given up on;
      or it was in the hand of a push a flush cut short. */
  lemma LostWhere(c: Setup, l: Log, op: Op, i: nat) returns (k: nat)
    requires Inv(c, l.sys) && Can(c, l.sys, op) && LogOk(l) && i in Logged(c, l, op).lost && i !in l.lost
    ensures k < |l.at| && l.at[k] == i && Step(c, l.sys, op).tx.ring == []
    ensures var front := |l.sys.tx.device| + |l.sys.tx.hand|;
            || (op.Wedge? && k >= front)
            || (op.Flush? && (k >= front + op.free || |l.sys.tx.device| <= k < front))
  {
    var cut := Losing(l.sys, op);
    k := DroppedAt(l.at, cut, i);
    EmptiesRing(c, l.sys, op);
  }

  lemma DroppedAt(x: seq<nat>, k: Cut, i: nat) returns (j: nat)
    requires i in Dropped(x, k)
    ensures j < |x| && x[j] == i && (k.a <= j < k.b || k.e <= j)
  {
    if i in x[k.a..k.b] {
      j :| k.a <= j < k.b && x[j] == i;
    } else {
      assert i in x[k.e..];
      j :| k.e <= j < |x| && x[j] == i;
    }
  }

  /** A step that cuts anything out leaves the ring empty. */
  lemma EmptiesRing(c: Setup, s: Sys, op: Op)
    requires op.Wedge? || op.Flush?
    ensures Step(c, s, op).tx.ring == []
  {
  }

  // ---- Runs ----

  ghost predicate CanAll(c: Setup, s: Sys, ops: seq<Op>)
    decreases |ops|
  {
    ops != [] ==> Can(c, s, ops[0]) && CanAll(c, Step(c, s, ops[0]), ops[1..])
  }

  function Run(c: Setup, l: Log, ops: seq<Op>): Log
    decreases |ops|
  {
    if ops == [] then l else Run(c, Logged(c, l, ops[0]), ops[1..])
  }

  lemma {:induction false} RunOk(c: Setup, l: Log, ops: seq<Op>)
    requires Inv(c, l.sys) && LogOk(l) && CanAll(c, l.sys, ops)
    ensures Inv(c, Run(c, l, ops).sys) && LogOk(Run(c, l, ops))
    decreases |ops|
  {
    hide Inv, LogOk, Can, Step;
    if ops != [] {
      StepInv(c, l.sys, ops[0]);
      LoggedOk(c, l, ops[0]);
      RunOk(c, Logged(c, l, ops[0]), ops[1..]);
    }
  }

  /** In every run, what the device was given, then the byte in hand, then the ring, are the accepted
      lines' bytes in order and once each, but for those lost; and a byte is lost only as `Losing` says. */
  lemma EveryByte(c: Setup, ops: seq<Op>)
    requires CanAll(c, BOOT.sys, ops)
    ensures var l := Run(c, BOOT, ops);
            && Traces(Stream(l.sys.tx), l.accepted, l.at) && Increasing(l.at, |l.accepted|)
            && Accounted(l.at, l.lost, |l.accepted|)
  {
    hide Run, CanAll;
    RunOk(c, BOOT, ops);
  }

  /** So with nothing lost they are the accepted lines. */
  lemma StreamConserved(c: Setup, ops: seq<Op>)
    requires CanAll(c, BOOT.sys, ops) && Run(c, BOOT, ops).lost == {}
    ensures Stream(Run(c, BOOT, ops).sys.tx) == Run(c, BOOT, ops).accepted
  {
    hide Run, CanAll, Stream;
    EveryByte(c, ops);
    var l := Run(c, BOOT, ops);
    Whole(l.at, |l.accepted|);
  }

  /** Increasing positions that leave none out are all of them in turn. */
  lemma {:induction false} Whole(at: seq<nat>, below: nat)
    requires Increasing(at, below) && forall i: nat :: i < below ==> i in at
    ensures |at| == below && forall i :: 0 <= i < below ==> at[i] == i
    decreases below
  {
    if at == [] {
      assert 0 < below ==> 0 in at;
    } else {
      var last := |at| - 1;
      assert 0 <= at[last] < below;
      assert below - 1 in at;
      assert at[last] == below - 1 && at == at[..last] + [at[last]];
      forall i: nat | i < below - 1
        ensures i in at[..last]
      {
        assert i in at;
      }
      Whole(at[..last], below - 1);
    }
  }

  /** In every run on a backend with no interrupt, while a byte is in the ring some producer drains up
      to it: no line is left behind by the producers that returned. */
  lemma NoneStranded(c: Setup, ops: seq<Op>)
    requires CanAll(c, BOOT.sys, ops) && !c.irq
    ensures var s := Run(c, BOOT, ops).sys;
            Covered(s, Total(s)) && (s.active == map[] ==> s.tx.ring == [] && s.tx.hand == [])
  {
    hide Run, CanAll;
    RunOk(c, BOOT, ops);
  }

  /** A producer whose drain ends, neither interrupting a push nor giving up on the channel, leaves
      with every byte up to its point gone from the ring, whoever sent it. */
  lemma ReturnMeansGone(c: Setup, s: Sys, op: Op, p: nat)
    requires Inv(c, s) && Can(c, s, op) && p in s.active && p !in Step(c, s, op).active && !c.irq && !s.tx.pushing
    ensures Step(c, s, op).gone >= s.active[p] && (op.Enter? ==> Step(c, s, op).tx == s.tx)
  {
  }

  /** A byte is taken only by a producer still short of its point, with no other push under way. */
  lemma TakesOwn(c: Setup, s: Sys, op: Op)
    requires Inv(c, s) && Can(c, s, op) && s.tx.hand == [] && Step(c, s, op).tx.hand != []
    ensures op.Enter? && op.slotFree && !s.tx.pushing && s.gone < s.active[op.p]
    ensures Step(c, s, op).pusher == op.p && Step(c, s, op).gone == s.gone + 1 <= s.active[op.p]
    ensures s.tx.ring != [] && Step(c, s, op).tx.hand == [s.tx.ring[0]]
  {
    hide Expand;
  }

  /** A producer that finds the device free, its point not reached and nothing being pushed takes a
      byte; and the push of it ends with the byte at the device. */
  lemma TurnPushes(c: Setup, s: Sys, p: nat)
    requires Inv(c, s) && Can(c, s, Enter(p, true)) && !c.irq && !s.tx.pushing && s.gone < s.active[p]
    ensures s.tx.ring != [] && Can(c, Step(c, s, Enter(p, true)), Push)
    ensures var t := Step(c, Step(c, s, Enter(p, true)), Push);
            !t.tx.pushing && t.tx.hand == [] && t.tx.device == s.tx.device + [s.tx.ring[0]] && t.tx.ring == s.tx.ring[1..]
  {
  }

  /** While it drains, its point only moves on: to what is handed to it, which is no less. */
  lemma PointHolds(c: Setup, s: Sys, op: Op, p: nat)
    requires Inv(c, s) && Can(c, s, op) && p in s.active && p in Step(c, s, op).active
    ensures Step(c, s, op).active[p] >= s.active[p]
  {
  }

  // ---- An interrupt that only a finished byte raises ----

  /** Whether an interrupt is to come: each byte given to the device raises one when it is done, one
      that finds a slot free and gives nothing uses it up, and a re-prime follows a reprogramming, after
      which only a byte still at the device raises one. */
  ghost function Due(c: Setup, s: Sys, op: Op, due: bool): bool {
    if |Step(c, s, op).tx.device| > |s.tx.device| then true
    else if op.Reprime? then op.free == 0 else due && !(op.Isr? && op.free > 0)
  }

  /** A device with no slot free is at a byte, whose interrupt is to come. */
  ghost predicate Honest(op: Op, due: bool) {
    (op.Queue? || op.Isr?) && op.free == 0 ==> due
  }

  ghost predicate HonestAll(c: Setup, s: Sys, ops: seq<Op>, due: bool)
    decreases |ops|
  {
    ops != [] ==> Honest(ops[0], due) && HonestAll(c, Step(c, s, ops[0]), ops[1..], Due(c, s, ops[0], due))
  }

  ghost function DueAfter(c: Setup, s: Sys, ops: seq<Op>, due: bool): bool
    decreases |ops|
  {
    if ops == [] then due else DueAfter(c, Step(c, s, ops[0]), ops[1..], Due(c, s, ops[0], due))
  }

  ghost predicate Awake(s: Sys, due: bool) { !s.tx.pushing && s.tx.hand == [] && (s.tx.ring != [] ==> due) }

  lemma StaysAwake(c: Setup, s: Sys, op: Op, due: bool)
    requires c.irq && Inv(c, s) && Can(c, s, op) && Awake(s, due) && Honest(op, due)
    ensures Awake(Step(c, s, op), Due(c, s, op, due))
  {
    hide Expand, Inv, Inserted;
    if op.Queue? {
      InsertedIs(s.tx, c.room, op.line, op.crlf, op.free);
    } else if op.Reprime? {
      NoneFits(c, s);
      InsertedIs(s.tx, c.room, [], false, op.free);
    }
  }

  lemma NoneFits(c: Setup, s: Sys)
    requires Inv(c, s)
    ensures Fits(s.tx, c.room, [], false) && Expand([], false) == []
  {
  }

  lemma {:induction false} RunAwake(c: Setup, l: Log, ops: seq<Op>, due: bool)
    requires c.irq && Inv(c, l.sys) && CanAll(c, l.sys, ops) && Awake(l.sys, due) && HonestAll(c, l.sys, ops, due)
    ensures Awake(Run(c, l, ops).sys, DueAfter(c, l.sys, ops, due))
    decreases |ops|
  {
    hide Inv, Can, Step, Awake, Honest, Due;
    if ops != [] {
      StepInv(c, l.sys, ops[0]);
      StaysAwake(c, l.sys, ops[0], due);
      RunAwake(c, Logged(c, l, ops[0]), ops[1..], Due(c, l.sys, ops[0], due));
    }
  }

  /** In every run of a device whose interrupt only a finished byte raises, one is to come while a byte
      is in the ring: the drain never stalls on an idle device. */
  lemma NeverStalls(c: Setup, ops: seq<Op>)
    requires c.irq && CanAll(c, BOOT.sys, ops) && HonestAll(c, BOOT.sys, ops, false)
    ensures var s := Run(c, BOOT, ops).sys;
            !s.tx.pushing && s.tx.hand == [] && (s.tx.ring != [] ==> DueAfter(c, BOOT.sys, ops, false))
  {
    hide Run, CanAll, HonestAll, DueAfter;
    RunAwake(c, BOOT, ops, false);
  }
}
