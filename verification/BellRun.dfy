/** Line operations routed through the doorbell, one shared access at a time
    (kernel/irq/irq_route.cc over arch/common/doorbell_protocol.cc). On every core an asker and the
    service body run, interleaved in any order with those of the other cores. Sequence numbers are
    unbounded. */
module BellRun {
  datatype LineOp = LineOp(line: int, op: nat)

  /** The cells of one ordered pair of cores, first asking second: the doorbell's request and answer,
      the mailbox and its sequence, how far it was performed; and what was published and performed. */
  datatype Link = Link(request: nat, answer: nat, seqno: nat, line: int, op: nat, ran: nat,
                       published: seq<LineOp>, done: seq<LineOp>)

  /** Where an asker is: the store it makes next, or waiting for answer `n`. */
  datatype Asker =
    | Quiet
    | PutLine(to: nat, ask: LineOp)
    | PutOp(to: nat, ask: LineOp)
    | PutSeq(to: nat, ask: LineOp)
    | Bump(to: nat, ask: LineOp)
    | Waiting(to: nat, ask: LineOp, n: nat)

  /** Where a service body is: snapshotting core `k`'s request, draining its ask (having loaded its
      sequence, then line, then op, then performed it), or answering it. */
  datatype Server =
    | Off
    | Snap(k: nat, owed: bool)
    | Drain(k: nat)
    | GotSeq(k: nat, a: nat)
    | GotLine(k: nat, a: nat, line: int)
    | GotOp(k: nat, a: nat, line: int, op: nat)
    | Performed(k: nat, a: nat)
    | Answer(k: nat)

  /** `links[i][t]` is core i asking core t; `asked[t][i]` what t's last snapshot read of i. */
  datatype Sys = Sys(links: seq<seq<Link>>, askers: seq<Asker>, servers: seq<Server>, asked: seq<seq<nat>>)

  datatype Act =
    | Ring(core: nat, to: nat)
    | Ask(core: nat, to: nat, ask: LineOp)
    | AskStep(core: nat)
    | Return(core: nat)
    | Serve(core: nat)

  ghost predicate Shaped(s: Sys) {
    var n := |s.askers|;
    && n > 0 && |s.links| == |s.servers| == |s.asked| == n
    && (forall i :: 0 <= i < n ==> |s.links[i]| == n && |s.asked[i]| == n)
    && (forall i :: 0 <= i < n ==> s.askers[i].Quiet? || s.askers[i].to < n)
    && (forall t {:trigger s.servers[t]} :: 0 <= t < n ==> s.servers[t].Off? || s.servers[t].k < n)
  }

  // ---- Steps ----

  ghost predicate Can(s: Sys, a: Act)
    requires Shaped(s)
  {
    && a.core < |s.askers|
    && match a
       case Ring(i, to) => to < |s.askers| && s.askers[i].Quiet?
       case Ask(i, to, _) => to < |s.askers| && s.askers[i].Quiet?
       case AskStep(i) => !s.askers[i].Quiet? && !s.askers[i].Waiting?
       case Return(i) => s.askers[i].Waiting? && s.links[i][s.askers[i].to].answer == s.askers[i].n
       case Serve(_) => true
  }

  function Set(s: Sys, i: nat, t: nat, l: Link): Sys
    requires i < |s.links| && t < |s.links[i]|
  {
    s.(links := s.links[i := s.links[i][t := l]])
  }

  ghost function Step(s: Sys, a: Act): Sys
    requires Shaped(s) && Can(s, a)
  {
    match a
    case Ring(i, to) => Set(s, i, to, s.links[i][to].(request := s.links[i][to].request + 1))
    case Ask(i, to, ask) => s.(askers := s.askers[i := PutLine(to, ask)])
    case AskStep(i) => Asks(s, i)
    case Return(i) => s.(askers := s.askers[i := Quiet])
    case Serve(t) => Serves(s, t)
  }

  /** Line, then op, then the sequence that makes them readable, then the request. */
  ghost function Asks(s: Sys, i: nat): Sys
    requires Shaped(s) && i < |s.askers| && !s.askers[i].Quiet? && !s.askers[i].Waiting?
  {
    var a := s.askers[i];
    var l := s.links[i][a.to];
    match a
    case PutLine(to, ask) => Set(s, i, to, l.(line := ask.line)).(askers := s.askers[i := PutOp(to, ask)])
    case PutOp(to, ask) => Set(s, i, to, l.(op := ask.op)).(askers := s.askers[i := PutSeq(to, ask)])
    case PutSeq(to, ask) =>
      Set(s, i, to, l.(seqno := l.seqno + 1, published := l.published + [ask])).(askers := s.askers[i := Bump(to, ask)])
    case Bump(to, ask) =>
      Set(s, i, to, l.(request := l.request + 1)).(askers := s.askers[i := Waiting(to, ask, l.request + 1)])
  }

  /** Snapshot every request, drain every ask, answer every request snapshotted. */
  ghost function Serves(s: Sys, t: nat): Sys
    requires Shaped(s) && t < |s.askers|
  {
    var n := |s.askers|;
    match s.servers[t]
    case Off => At(s, t, Snap(0, false))
    case Snap(k, owed) =>
      var l := s.links[k][t];
      var owed' := owed || l.request != l.answer;
      Saw(At(s, t, if k + 1 < n then Snap(k + 1, owed') else if owed' then Drain(0) else Off), t, k, l.request)
    case Drain(k) => At(s, t, GotSeq(k, s.links[k][t].seqno))
    case GotSeq(k, a) => At(s, t, if a == s.links[k][t].ran then Onward(k, n) else GotLine(k, a, s.links[k][t].line))
    case GotLine(k, a, line) => At(s, t, GotOp(k, a, line, s.links[k][t].op))
    case GotOp(k, a, line, op) =>
      Set(At(s, t, Performed(k, a)), k, t, s.links[k][t].(done := s.links[k][t].done + [LineOp(line, op)]))
    case Performed(k, a) => Set(At(s, t, Onward(k, n)), k, t, s.links[k][t].(ran := a))
    case Answer(k) =>
      Set(At(s, t, if k + 1 < n then Answer(k + 1) else Off), k, t, s.links[k][t].(answer := s.asked[t][k]))
  }

  function At(s: Sys, t: nat, v: Server): Sys
    requires t < |s.servers|
  {
    s.(servers := s.servers[t := v])
  }

  function Saw(s: Sys, t: nat, k: nat, request: nat): Sys
    requires t < |s.asked| && k < |s.asked[t]|
  {
    var row: seq<nat> := s.asked[t][k := request];
    s.(asked := s.asked[t := row])
  }

  /** Past draining core `k`. */
  function Onward(k: nat, n: nat): Server { if k + 1 < n then Drain(k + 1) else Answer(0) }

  // ---- What every step keeps ----

  predicate Draining(v: Server) { v.Drain? || v.GotSeq? || v.GotLine? || v.GotOp? || v.Performed? }

  /** Whether core `i` has been drained since the snapshot. */
  predicate Past(v: Server, i: nat) { v.Answer? || (Draining(v) && v.k > i) }

  /** Whether the snapshot holds nothing of core `i` that is still to be answered. */
  predicate Spent(v: Server, i: nat) { v.Off? || (v.Snap? && (v.k <= i || !v.owed)) || (v.Answer? && v.k > i) }

  predicate Busy(a: Asker, t: nat) { (a.Bump? || a.Waiting?) && a.to == t }

  /** One pair's cells against where its asker and its server are: every published ask is performed
      once and in order, the mailbox is the outstanding one, and an answer to the outstanding
      request, or a snapshot of it drained past, means it was performed. */
  ghost predicate PairOk(l: Link, a: Asker, v: Server, asked: nat, i: nat, t: nat) {
    && l.answer <= asked <= l.request && (Spent(v, i) ==> l.answer == asked)
    && |l.published| == l.seqno && l.ran <= l.seqno <= l.ran + 1
    && |l.done| == l.ran + (if v.Performed? && v.k == i then 1 else 0) && l.done <= l.published
    && (!Busy(a, t) ==> l.seqno == l.ran)
    && (Busy(a, t) ==> l.seqno > 0 && l.published[l.seqno - 1] == a.ask)
    && (l.seqno > l.ran ==> l.published[l.seqno - 1] == LineOp(l.line, l.op))
    && (a.PutOp? && a.to == t ==> l.line == a.ask.line)
    && (a.PutSeq? && a.to == t ==> l.line == a.ask.line && l.op == a.ask.op)
    && (v.GotSeq? && v.k == i ==> v.a == l.ran || v.a == l.ran + 1 == l.seqno)
    && ((v.GotLine? || v.GotOp? || v.Performed?) && v.k == i ==> v.a == l.ran + 1 == l.seqno)
    && ((v.GotLine? || v.GotOp?) && v.k == i ==> v.line == l.line)
    && (v.GotOp? && v.k == i ==> v.op == l.op)
    && (a.Waiting? && a.to == t ==>
          && a.n == l.request
          && (l.answer == l.request ==> l.ran == l.seqno)
          && (asked == l.request && Past(v, i) ==> l.ran == l.seqno)
          && (asked == l.request && v.GotSeq? && v.k == i ==> v.a == l.seqno))
  }

  ghost predicate Pair(s: Sys, i: nat, t: nat)
    requires Shaped(s) && i < |s.askers| && t < |s.askers|
  {
    PairOk(s.links[i][t], s.askers[i], s.servers[t], s.asked[t][i], i, t)
  }

  ghost predicate Inv(s: Sys) {
    Shaped(s) && forall i, t {:trigger Pair(s, i, t)} :: 0 <= i < |s.askers| && 0 <= t < |s.askers| ==> Pair(s, i, t)
  }

  lemma StepShaped(s: Sys, a: Act)
    requires Shaped(s) && Can(s, a)
    ensures Shaped(Step(s, a)) && |Step(s, a).askers| == |s.askers|
  {
  }

  lemma AskerPair(s: Sys, a: Act, i: nat, t: nat)
    requires Inv(s) && Can(s, a) && (a.Ring? || a.Ask? || a.Return?) && Shaped(Step(s, a)) && i < |s.askers| && t < |s.askers|
    ensures Pair(Step(s, a), i, t)
  {
    assert Pair(s, i, t);
  }

  lemma PutPair(s: Sys, c: nat, i: nat, t: nat)
    requires Inv(s) && Can(s, AskStep(c)) && Shaped(Asks(s, c)) && i < |s.askers| && t < |s.askers|
    requires s.askers[c].PutLine? || s.askers[c].PutOp?
    ensures Pair(Asks(s, c), i, t)
  {
    assert Pair(s, i, t);
  }

  lemma PublishPair(s: Sys, c: nat, i: nat, t: nat)
    requires Inv(s) && Can(s, AskStep(c)) && Shaped(Asks(s, c)) && i < |s.askers| && t < |s.askers|
    requires s.askers[c].PutSeq? || s.askers[c].Bump?
    ensures Pair(Asks(s, c), i, t)
  {
    assert Pair(s, i, t);
  }

  /** The loads of a drain. */
  lemma ReadPair(s: Sys, c: nat, i: nat, t: nat)
    requires Inv(s) && c < |s.askers| && i < |s.askers| && t < |s.askers| && Shaped(Serves(s, c))
    requires s.servers[c].Drain? || s.servers[c].GotSeq? || s.servers[c].GotLine?
    ensures Pair(Serves(s, c), i, t)
  {
    assert Pair(s, i, t);
  }

  lemma SnapPair(s: Sys, c: nat, i: nat, t: nat)
    requires Inv(s) && c < |s.askers| && i < |s.askers| && t < |s.askers| && Shaped(Serves(s, c))
    requires s.servers[c].Off? || s.servers[c].Snap?
    ensures Pair(Serves(s, c), i, t)
  {
    assert Pair(s, i, t);
  }

  /** The op performed, its sequence recorded, and the answer stored. */
  lemma WritePair(s: Sys, c: nat, i: nat, t: nat)
    requires Inv(s) && c < |s.askers| && i < |s.askers| && t < |s.askers| && Shaped(Serves(s, c))
    requires s.servers[c].GotOp? || s.servers[c].Performed? || s.servers[c].Answer?
    ensures Pair(Serves(s, c), i, t)
  {
    assert Pair(s, i, t);
  }

  lemma StepInv(s: Sys, a: Act)
    requires Inv(s) && Can(s, a)
    ensures Inv(Step(s, a))
  {
    hide PairOk, Serves, Asks;
    StepShaped(s, a);
    var s' := Step(s, a);
    forall i, t | 0 <= i < |s'.askers| && 0 <= t < |s'.askers|
      ensures Pair(s', i, t)
    {
      if a.AskStep? {
        if s.askers[a.core].PutLine? || s.askers[a.core].PutOp? {
          PutPair(s, a.core, i, t);
        } else {
          PublishPair(s, a.core, i, t);
        }
      } else if !a.Serve? {
        AskerPair(s, a, i, t);
      } else {
        var v := s.servers[a.core];
        if v.GotOp? || v.Performed? || v.Answer? {
          WritePair(s, a.core, i, t);
        } else if v.Off? || v.Snap? {
          SnapPair(s, a.core, i, t);
        } else {
          ReadPair(s, a.core, i, t);
        }
      }
    }
  }

  // ---- Exactly once ----

  /** When an ask returns, everything its core ever asked the owner has been performed, once each and
      in order, and this ask is the last of it. */
  lemma ReturnMeansDone(s: Sys, i: nat)
    requires Inv(s) && Can(s, Return(i))
    ensures var a := s.askers[i];
            var l := s.links[i][a.to];
            l.done == l.published && l.published != [] && l.done[|l.done| - 1] == a.ask
  {
    assert Pair(s, i, s.askers[i].to);
  }

  /** A mailbox is written only when everything published through it has been performed. */
  lemma NeverOverwritten(s: Sys, i: nat)
    requires Inv(s) && i < |s.askers| && (s.askers[i].PutLine? || s.askers[i].PutOp? || s.askers[i].PutSeq?)
    ensures var l := s.links[i][s.askers[i].to]; l.done == l.published
  {
    assert Pair(s, i, s.askers[i].to);
  }

  ghost function Boot(n: nat): Sys {
    Sys(seq(n, _ => seq(n, _ => Link(0, 0, 0, 0, 0, 0, [], []))), seq(n, _ => Quiet), seq(n, _ => Off), seq(n,
            _ => seq(n, _ => 0)))
  }

  lemma BootInv(n: nat)
    requires n > 0
    ensures Inv(Boot(n))
  {
    var s := Boot(n);
    forall i, t | 0 <= i < n && 0 <= t < n
      ensures Pair(s, i, t)
    {
      assert s.links[i][t] == Link(0, 0, 0, 0, 0, 0, [], []) && s.asked[t][i] == 0;
    }
  }

  ghost predicate IsRun(ss: seq<Sys>, acts: seq<Act>) {
    && |ss| == |acts| + 1
    && forall k {:trigger acts[k]} :: 0 <= k < |acts| && Shaped(ss[k]) ==>
            Can(ss[k], acts[k]) && ss[k + 1] == Step(ss[k], acts[k])
  }

  lemma {:induction false} RunInv(ss: seq<Sys>, acts: seq<Act>, n: nat, k: nat)
    requires IsRun(ss, acts) && n > 0 && ss[0] == Boot(n) && k < |ss|
    ensures Inv(ss[k]) && |ss[k].askers| == n
  {
    hide Inv, Step, Shaped;
    if k == 0 {
      BootInv(n);
    } else {
      RunInv(ss, acts, n, k - 1);
      var a := acts[k - 1];
      InvShaped(ss[k - 1]);
      StepInv(ss[k - 1], a);
      StepShaped(ss[k - 1], a);
      assert ss[k - 1 + 1] == Step(ss[k - 1], a);
    }
  }

  lemma InvShaped(s: Sys)
    requires Inv(s)
    ensures Shaped(s)
  {
  }

  /** How many of core i's asks of core t have returned in the first k steps. */
  ghost function Returned(ss: seq<Sys>, acts: seq<Act>, i: nat, t: nat, k: nat): nat
    requires k <= |acts| < |ss|
  {
    if k == 0 then 0
    else Returned(ss, acts, i, t, k - 1) +
         if acts[k - 1] == Return(i) && i < |ss[k - 1].askers| && ss[k - 1].askers[i].Waiting?
                 && ss[k - 1].askers[i].to == t then 1 else 0
  }

  /** Asks are published one at a time: as many as have returned, and the one outstanding. */
  lemma {:induction false} PublishedCount(ss: seq<Sys>, acts: seq<Act>, n: nat, i: nat, t: nat, k: nat)
    requires IsRun(ss, acts) && n > 0 && ss[0] == Boot(n) && k < |ss| && i < n && t < n
    ensures Inv(ss[k]) && |ss[k].askers| == n
    ensures ss[k].links[i][t].seqno == Returned(ss, acts, i, t, k) + if Busy(ss[k].askers[i], t) then 1 else 0
  {
    RunInv(ss, acts, n, k);
    if k == 0 {
      assert ss[0].links[i][t] == Link(0, 0, 0, 0, 0, 0, [], []);
    } else {
      PublishedCount(ss, acts, n, i, t, k - 1);
      var a := acts[k - 1];
      assert ss[k - 1 + 1] == Step(ss[k - 1], a);
      StepCount(ss[k - 1], a, i, t);
    }
  }

  ghost function Counted(l: Link, a: Asker, t: nat): int { l.seqno - if Busy(a, t) then 1 else 0 }

  lemma StepCount(s: Sys, a: Act, i: nat, t: nat)
    requires Inv(s) && Can(s, a) && i < |s.askers| && t < |s.askers| && Shaped(Step(s, a)) && |Step(s, a).askers| == |s.askers|
    ensures var s' := Step(s, a);
            Counted(s'.links[i][t], s'.askers[i], t) ==
            Counted(s.links[i][t], s.askers[i], t) + (if a == Return(i) && s.askers[i].to == t then 1 else 0)
  {
    if a.Serve? {
      ServeCount(s, a.core, i, t);
    }
  }

  lemma ServeCount(s: Sys, c: nat, i: nat, t: nat)
    requires Shaped(s) && c < |s.askers| && i < |s.askers| && t < |s.askers| && Shaped(Serves(s, c))
    ensures Serves(s, c).askers == s.askers && Serves(s, c).links[i][t].seqno == s.links[i][t].seqno
  {
  }

  /** In every run, whenever an ask returns the owner has performed that core's asks exactly once
      each: as many as have now returned, this one last. */
  lemma ExactlyOnce(ss: seq<Sys>, acts: seq<Act>, n: nat, k: nat, i: nat)
    requires IsRun(ss, acts) && n > 0 && ss[0] == Boot(n) && k < |acts| && acts[k] == Return(i)
    ensures Inv(ss[k]) && i < |ss[k].askers| == n && ss[k].askers[i].Waiting?
    ensures var a := ss[k].askers[i];
            var done := ss[k].links[i][a.to].done;
            |done| == Returned(ss, acts, i, a.to, k) + 1 && done[|done| - 1] == a.ask
  {
    RunInv(ss, acts, n, k);
    assert Can(ss[k], acts[k]);
    var t := ss[k].askers[i].to;
    PublishedCount(ss, acts, n, i, t, k);
    ReturnMeansDone(ss[k], i);
    assert Pair(ss[k], i, t);
  }
}
