/** Cores waiting on each other: a service body run to its end answers every request to its core, so
    one poll by each core meets every wait (arch/common/doorbell_protocol.cc). */
module BellWait {
  import opened BellRun
  import Sets

  /** `m` steps of core t's service body, no other core moving. */
  ghost function Alone(s: Sys, t: nat, m: nat): (u: Sys)
    requires Inv(s) && t < |s.askers|
    ensures Inv(u) && |u.askers| == |s.askers|
    decreases m
  {
    if m == 0 then s
    else
      StepInv(s, Serve(t));
      StepShaped(s, Serve(t));
      Alone(Serves(s, t), t, m - 1)
  }

  lemma OneStep(s: Sys, t: nat)
    requires Inv(s) && t < |s.askers|
    ensures Shaped(s) && Inv(Serves(s, t)) && |Serves(s, t).askers| == |s.askers|
  {
    StepInv(s, Serve(t));
    StepShaped(s, Serve(t));
  }

  /** Nothing but core t's service, its answers and what it performed has changed. */
  ghost predicate Apart(s: Sys, u: Sys, t: nat) {
    && Shaped(s) && Shaped(u) && u.askers == s.askers
    && (forall j :: 0 <= j < |s.askers| && j != t ==> u.servers[j] == s.servers[j])
    && forall i, j :: 0 <= i < |s.askers| && 0 <= j < |s.askers| ==>
                        u.links[i][j].request == s.links[i][j].request && (j != t ==> u.links[i][j] == s.links[i][j])
  }

  lemma StepApart(s: Sys, t: nat)
    requires Inv(s) && t < |s.askers| && Shaped(Serves(s, t))
    ensures Apart(s, Serves(s, t), t)
  {
  }

  lemma ApartTrans(s: Sys, u: Sys, w: Sys, t: nat)
    requires Apart(s, u, t) && Apart(u, w, t)
    ensures Apart(s, w, t)
  {
  }

  /** Core t's snapshot has the requests of the cores below k. */
  ghost predicate Fresh(s: Sys, t: nat, k: nat)
    requires Shaped(s) && t < |s.askers| && k <= |s.askers|
  {
    forall j :: 0 <= j < k ==> s.asked[t][j] == s.links[j][t].request
  }

  /** Core t has answered the cores below k. */
  ghost predicate Answered(s: Sys, t: nat, k: nat)
    requires Shaped(s) && t < |s.askers| && k <= |s.askers|
  {
    forall j :: 0 <= j < k ==> s.links[j][t].answer == s.links[j][t].request
  }

  ghost predicate Settled(s: Sys, t: nat)
    requires Shaped(s) && t < |s.askers|
  {
    s.servers[t].Off? && Answered(s, t, |s.askers|)
  }

  lemma {:induction false} AnswerRun(s: Sys, t: nat) returns (m: nat)
    requires Inv(s) && t < |s.askers| && s.servers[t].Answer? && Fresh(s, t, |s.askers|) && Answered(s, t, s.servers[t].k)
    ensures Settled(Alone(s, t, m), t) && Apart(s, Alone(s, t, m), t)
    decreases |s.askers| - s.servers[t].k
  {
    var u := Serves(s, t);
    OneStep(s, t);
    StepApart(s, t);
    if u.servers[t].Off? {
      m := 1;
      assert Alone(u, t, 0) == u;
    } else {
      var m' := AnswerRun(u, t);
      m := m' + 1;
      ApartTrans(s, u, Alone(u, t, m'), t);
    }
  }

  function Rank(v: Server): nat {
    match v
    case Drain(_) => 5
    case GotSeq(_, _) => 4
    case GotLine(_, _, _) => 3
    case GotOp(_, _, _, _) => 2
    case Performed(_, _) => 1
    case _ => 0
  }

  lemma {:induction false} DrainRun(s: Sys, t: nat) returns (m: nat)
    requires Inv(s) && t < |s.askers| && Draining(s.servers[t]) && Fresh(s, t, |s.askers|)
    ensures Settled(Alone(s, t, m), t) && Apart(s, Alone(s, t, m), t)
    decreases |s.askers| - s.servers[t].k, Rank(s.servers[t])
  {
    var u := Serves(s, t);
    OneStep(s, t);
    StepApart(s, t);
    assert u.asked == s.asked;
    var m';
    if u.servers[t].Answer? {
      m' := AnswerRun(u, t);
    } else {
      m' := DrainRun(u, t);
    }
    m := m' + 1;
    ApartTrans(s, u, Alone(u, t, m'), t);
  }

  lemma {:induction false} SnapRun(s: Sys, t: nat) returns (m: nat)
    requires Inv(s) && t < |s.askers| && s.servers[t].Snap? && Fresh(s, t, s.servers[t].k)
    requires !s.servers[t].owed ==> Answered(s, t, s.servers[t].k)
    ensures Settled(Alone(s, t, m), t) && Apart(s, Alone(s, t, m), t)
    decreases |s.askers| - s.servers[t].k
  {
    var u := Serves(s, t);
    OneStep(s, t);
    StepApart(s, t);
    assert Fresh(u, t, s.servers[t].k + 1);
    if u.servers[t].Off? {
      m := 1;
      assert Alone(u, t, 0) == u;
    } else {
      var m';
      if u.servers[t].Snap? {
        m' := SnapRun(u, t);
      } else {
        m' := DrainRun(u, t);
      }
      m := m' + 1;
      ApartTrans(s, u, Alone(u, t, m'), t);
    }
  }

  /** A poll: the service body from its start to its end answers every request to its core. */
  lemma PollAnswers(s: Sys, t: nat) returns (m: nat)
    requires Inv(s) && t < |s.askers| && s.servers[t].Off?
    ensures Settled(Alone(s, t, m), t) && Apart(s, Alone(s, t, m), t)
  {
    var u := Serves(s, t);
    OneStep(s, t);
    StepApart(s, t);
    var m' := SnapRun(u, t);
    m := m' + 1;
    ApartTrans(s, u, Alone(u, t, m'), t);
  }

  // ---- Waiting on each other ----

  /** The requests not yet answered, asking core first. */
  ghost function Unanswered(s: Sys): set<(nat, nat)>
    requires Shaped(s)
  {
    set i: nat, t: nat | i < |s.askers| && t < |s.askers| && s.links[i][t].request != s.links[i][t].answer :: (i, t)
  }

  /** A poll leaves fewer requests unanswered, if its core owed any, and no core's answers undone. */
  lemma PollLowers(s: Sys, t: nat, m: nat)
    requires Inv(s) && t < |s.askers| && Settled(Alone(s, t, m), t) && Apart(s, Alone(s, t, m), t)
    ensures Unanswered(Alone(s, t, m)) == set p | p in Unanswered(s) && p.1 != t
    ensures (exists i: nat :: (i, t) in Unanswered(s)) ==> |Unanswered(Alone(s, t, m))| < |Unanswered(s)|
  {
    var u := Alone(s, t, m);
    hide Inv, Alone, Shaped;
    var left := set p | p in Unanswered(s) && p.1 != t;
    forall p | p in Unanswered(u)
      ensures p in left
    {
      assert u.links[p.0][p.1].request == s.links[p.0][p.1].request;
    }
    forall p | p in left
      ensures p in Unanswered(u)
    {
      assert u.links[p.0][p.1] == s.links[p.0][p.1];
    }
    assert Unanswered(u) == left;
    if i: nat :| (i, t) in Unanswered(s) {
      assert (i, t) !in left;
      assert left + {(i, t)} <= Unanswered(s);
      Sets.SubsetSize(left + {(i, t)}, Unanswered(s));
    }
  }

  // ---- Any interleaving ----

  /** The steps of its own a service body has left. */
  function Left(v: Server, n: nat): int {
    match v
    case Off => 0
    case Snap(k, _) => n - k + 6 * n
    case Drain(k) => 5 * (n - k) + n
    case GotSeq(k, _) => 5 * (n - k) + n - 1
    case GotLine(k, _, _) => 5 * (n - k) + n - 2
    case GotOp(k, _, _, _) => 5 * (n - k) + n - 3
    case Performed(k, _) => 5 * (n - k) + n - 4
    case Answer(k) => n - k
  }

  /** How many steps of core t's service, at most, until core i's request `r` is answered: what is left
      of the body under way, and a whole one after it unless this one has seen the request or will. */
  ghost function ToAnswer(s: Sys, i: nat, t: nat, r: nat): int
    requires Shaped(s) && i < |s.askers| && t < |s.askers|
  {
    var v, n := s.servers[t], |s.askers|;
    if s.links[i][t].answer >= r then 0
    else if s.asked[t][i] >= r || (v.Snap? && v.k <= i) then Left(v, n)
    else Left(v, n) + 7 * n + 1
  }

  lemma ToAnswerBound(s: Sys, i: nat, t: nat, r: nat)
    requires Inv(s) && i < |s.askers| && t < |s.askers|
    ensures 0 <= ToAnswer(s, i, t, r) <= 14 * |s.askers| + 1
    ensures ToAnswer(s, i, t, r) == 0 ==> s.links[i][t].answer >= r
  {
    assert Pair(s, i, t);
    assert s.servers[t].Off? || s.servers[t].k < |s.askers|;
  }

  lemma PairBounds(s: Sys, i: nat, t: nat)
    requires Inv(s) && i < |s.askers| && t < |s.askers|
    ensures var l, asked := s.links[i][t], s.asked[t][i];
            l.answer <= asked <= l.request && (Spent(s.servers[t], i) ==> l.answer == asked)
  {
    assert Pair(s, i, t);
  }

  /** Every step of the core's own service brings the answer nearer. */
  lemma OwnStep(s: Sys, i: nat, t: nat, r: nat)
    requires Inv(s) && i < |s.askers| && t < |s.askers| && r <= s.links[i][t].request && s.links[i][t].answer < r
    requires Shaped(Serves(s, t)) && |Serves(s, t).askers| == |s.askers|
    ensures ToAnswer(Serves(s, t), i, t, r) < ToAnswer(s, i, t, r)
  {
    hide PairOk;
    PairBounds(s, i, t);
    assert s.servers[t].Off? || s.servers[t].k < |s.askers|;
  }

  /** No step sets it back or takes the request back. */
  lemma AnyStep(s: Sys, a: Act, i: nat, t: nat, r: nat)
    requires Inv(s) && Can(s, a) && i < |s.askers| && t < |s.askers| && r <= s.links[i][t].request
    requires Shaped(Step(s, a)) && |Step(s, a).askers| == |s.askers|
    ensures r <= Step(s, a).links[i][t].request
    ensures a != Serve(t) ==> ToAnswer(Step(s, a), i, t, r) == ToAnswer(s, i, t, r)
    ensures s.links[i][t].answer >= r ==> Step(s, a).links[i][t].answer >= r
  {
    hide Inv, Serves, PairOk;
    InvShaped(s);
    if a.Serve? {
      ServeOther(s, a.core, i, t);
    }
  }

  lemma ServeOther(s: Sys, c: nat, i: nat, t: nat)
    requires Inv(s) && c < |s.askers| && i < |s.askers| && t < |s.askers| && Shaped(Serves(s, c))
    ensures var u := Serves(s, c);
            && u.links[i][t].request == s.links[i][t].request && u.links[i][t].answer >= s.links[i][t].answer
            && (c != t ==> u.links[i][t] == s.links[i][t] && u.servers[t] == s.servers[t] && u.asked[t] == s.asked[t])
  {
    hide PairOk;
    PairBounds(s, i, t);
  }

  // ---- Runs ----

  ghost predicate CanAll(s: Sys, acts: seq<Act>)
    requires Inv(s)
    decreases |acts|
  {
    acts != [] ==> Can(s, acts[0]) && (StepInv(s, acts[0]); CanAll(Step(s, acts[0]), acts[1..]))
  }

  /** A run of any length, the cores' steps in any order. */
  ghost function Steps(s: Sys, acts: seq<Act>): (u: Sys)
    requires Inv(s) && CanAll(s, acts)
    ensures Inv(u) && |u.askers| == |s.askers|
    decreases |acts|
  {
    if acts == [] then s else StepInv(s, acts[0]); StepShaped(s, acts[0]); Steps(Step(s, acts[0]), acts[1..])
  }

  /** How many steps of core t's service a run has. */
  function Served(acts: seq<Act>, t: nat): nat {
    if acts == [] then 0 else (if acts[0] == Serve(t) then 1 else 0) + Served(acts[1..], t)
  }

  /** In every run, whatever the other cores do between, a request is answered once its core's service
      has taken so many steps. */
  lemma {:induction false} RequestAnswered(s: Sys, acts: seq<Act>, i: nat, t: nat, r: nat)
    requires Inv(s) && CanAll(s, acts) && i < |s.askers| && t < |s.askers| && r <= s.links[i][t].request
    requires Served(acts, t) >= ToAnswer(s, i, t, r)
    ensures Steps(s, acts).links[i][t].answer >= r
    decreases |acts|
  {
    hide Inv, Step, ToAnswer, Can, Serves;
    InvShaped(s);
    ToAnswerBound(s, i, t, r);
    if acts != [] {
      var a := acts[0];
      var u := Step(s, a);
      StepInv(s, a);
      StepShaped(s, a);
      AnyStep(s, a, i, t, r);
      ToAnswerBound(u, i, t, r);
      if a == Serve(t) {
        ServeIs(s, t);
        if s.links[i][t].answer < r {
          OwnStep(s, i, t, r);
        } else {
          ToAnswerNone(u, i, t, r);
        }
      }
      RequestAnswered(u, acts[1..], i, t, r);
    }
  }

  lemma ServeIs(s: Sys, t: nat)
    requires Inv(s) && t < |s.askers|
    ensures Shaped(s) && Can(s, Serve(t)) && Step(s, Serve(t)) == Serves(s, t)
  {
  }

  lemma ToAnswerNone(s: Sys, i: nat, t: nat, r: nat)
    requires Shaped(s) && i < |s.askers| && t < |s.askers| && s.links[i][t].answer >= r
    ensures ToAnswer(s, i, t, r) == 0
  {
  }

  /** A wait ends only by its own return. */
  lemma {:induction false} WaitStands(s: Sys, acts: seq<Act>, i: nat)
    requires Inv(s) && CanAll(s, acts) && i < |s.askers| && s.askers[i].Waiting? && Return(i) !in acts
    ensures Steps(s, acts).askers[i] == s.askers[i]
    decreases |acts|
  {
    hide Inv;
    InvShaped(s);
    if acts != [] {
      StepInv(s, acts[0]);
      StepShaped(s, acts[0]);
      assert Return(i) != acts[0];
      AskerStands(s, acts[0], i);
      WaitStands(Step(s, acts[0]), acts[1..], i);
    }
  }

  lemma AskerStands(s: Sys, a: Act, i: nat)
    requires Shaped(s) && Can(s, a) && i < |s.askers| && s.askers[i].Waiting? && a != Return(i)
    ensures i < |Step(s, a).askers| && Step(s, a).askers[i] == s.askers[i]
  {
    if a.Serve? {
      assert Serves(s, a.core).askers == s.askers;
    }
  }

  /** Cores waiting on each other cannot deadlock. From any state of a run, with service bodies under
      way or not, in every interleaving that gives each core's service 14 n + 1 steps every wait that
      stood is over, or free to end. A service step can always be taken. */
  lemma NoDeadlock(s: Sys, acts: seq<Act>, i: nat)
    requires Inv(s) && CanAll(s, acts) && i < |s.askers| && s.askers[i].Waiting?
    requires forall t: nat :: t < |s.askers| ==> Served(acts, t) >= 14 * |s.askers| + 1
    ensures Return(i) in acts || Can(Steps(s, acts), Return(i))
    ensures forall t: nat :: t < |s.askers| ==> Can(s, Serve(t))
  {
    hide Steps, CanAll, Served;
    if Return(i) !in acts {
      var t, r := s.askers[i].to, s.askers[i].n;
      assert Pair(s, i, t);
      ToAnswerBound(s, i, t, r);
      RequestAnswered(s, acts, i, t, r);
      WaitStands(s, acts, i);
      assert Pair(Steps(s, acts), i, t);
    }
  }

  /** A service body under way is over once it has taken the steps it has left, whatever runs between. */
  lemma {:induction false} BodyEnds(s: Sys, acts: seq<Act>, t: nat) returns (k: nat)
    requires Inv(s) && CanAll(s, acts) && t < |s.askers| && Served(acts, t) >= Left(s.servers[t], |s.askers|)
    ensures k <= |acts| && CanAll(s, acts[..k]) && Steps(s, acts[..k]).servers[t].Off?
    decreases |acts|
  {
    hide Inv, Step, Can, Serves;
    InvShaped(s);
    k := 0;
    if !s.servers[t].Off? {
      LeftSome(s, t);
      assert acts != [];
      RunFirst(s, acts);
      StepShaped(s, acts[0]);
      LeftLess(s, acts[0], t);
      k := BodyEnds(Step(s, acts[0]), acts[1..], t);
      RunPrepend(s, acts[0], acts[1..][..k]);
      k := k + 1;
      assert acts[..k] == [acts[0]] + acts[1..][..k - 1];
    }
  }

  lemma LeftSome(s: Sys, t: nat)
    requires Inv(s) && t < |s.askers| && !s.servers[t].Off?
    ensures Left(s.servers[t], |s.askers|) > 0
  {
  }

  lemma LeftLess(s: Sys, a: Act, t: nat)
    requires Inv(s) && Can(s, a) && t < |s.askers| && !s.servers[t].Off? && Shaped(Step(s, a))
            && |Step(s, a).askers| == |s.askers|
    ensures Left(Step(s, a).servers[t], |s.askers|) <= Left(s.servers[t], |s.askers|) - if a == Serve(t) then 1 else 0
  {
    hide Inv, Left, Serves;
    InvShaped(s);
    if a == Serve(t) {
      LeftOwn(s, t);
    } else if a.Serve? {
      ServeOther(s, a.core, 0, t);
    }
  }

  lemma LeftOwn(s: Sys, t: nat)
    requires Shaped(s) && t < |s.askers| && !s.servers[t].Off?
    ensures t < |Serves(s, t).servers| && Left(Serves(s, t).servers[t], |s.askers|) < Left(s.servers[t], |s.askers|)
  {
    assert s.servers[t].k < |s.askers|;
  }

  // ---- Whole polls, in any interleaving ----

  /** Request `r` is answered, or the body under way has seen it or is to see it. */
  ghost predicate Seeing(s: Sys, i: nat, t: nat, r: nat)
    requires Shaped(s) && i < |s.askers| && t < |s.askers|
  {
    var v := s.servers[t];
    s.links[i][t].answer >= r || (!v.Off? && (s.asked[t][i] >= r || (v.Snap? && v.k <= i)))
  }

  lemma SeeingOwn(s: Sys, i: nat, t: nat, r: nat)
    requires Inv(s) && i < |s.askers| && t < |s.askers| && r <= s.links[i][t].request
    requires Shaped(Serves(s, t)) && |Serves(s, t).askers| == |s.askers| && (Seeing(s, i, t, r) || s.servers[t].Off?)
    ensures Seeing(Serves(s, t), i, t, r)
  {
    assert Pair(s, i, t);
    assert s.servers[t].Off? || s.servers[t].k < |s.askers|;
  }

  lemma SeeingStep(s: Sys, a: Act, i: nat, t: nat, r: nat)
    requires Inv(s) && Can(s, a) && i < |s.askers| && t < |s.askers| && r <= s.links[i][t].request
    requires Shaped(Step(s, a)) && |Step(s, a).askers| == |s.askers|
    ensures Seeing(s, i, t, r) || (a == Serve(t) && s.servers[t].Off?) ==> Seeing(Step(s, a), i, t, r)
    ensures a != Serve(t) ==> Step(s, a).servers[t] == s.servers[t]
    ensures r <= Step(s, a).links[i][t].request
  {
    hide Inv, Serves;
    InvShaped(s);
    if a == Serve(t) {
      if Seeing(s, i, t, r) || s.servers[t].Off? {
        SeeingOwn(s, i, t, r);
      }
      ServeOther(s, t, i, t);
    } else if a.Serve? {
      ServeOther(s, a.core, i, t);
    }
  }

  lemma {:induction false} SeeingRun(s: Sys, acts: seq<Act>, i: nat, t: nat, r: nat)
    requires Inv(s) && CanAll(s, acts) && i < |s.askers| && t < |s.askers| && r <= s.links[i][t].request
    requires Seeing(s, i, t, r) || (s.servers[t].Off? && Served(acts, t) > 0)
    ensures Seeing(Steps(s, acts), i, t, r)
    decreases |acts|
  {
    hide Inv, Step, Can, Seeing, Serves;
    InvShaped(s);
    if acts != [] {
      StepInv(s, acts[0]);
      StepShaped(s, acts[0]);
      SeeingStep(s, acts[0], i, t, r);
      SeeingRun(Step(s, acts[0]), acts[1..], i, t, r);
    }
  }

  lemma RunFirst(s: Sys, acts: seq<Act>)
    requires Inv(s) && CanAll(s, acts) && acts != []
    ensures Shaped(s) && Can(s, acts[0]) && Inv(Step(s, acts[0])) && CanAll(Step(s, acts[0]), acts[1..])
    ensures Steps(s, acts) == Steps(Step(s, acts[0]), acts[1..])
  {
    hide Inv, Step, Can;
    InvShaped(s);
    StepInv(s, acts[0]);
  }

  lemma RunPrepend(s: Sys, a: Act, rest: seq<Act>)
    requires Inv(s) && Shaped(s) && Can(s, a) && Inv(Step(s, a)) && CanAll(Step(s, a), rest)
    ensures CanAll(s, [a] + rest) && Steps(s, [a] + rest) == Steps(Step(s, a), rest)
  {
    hide Inv, Step, Can;
    assert ([a] + rest)[0] == a && ([a] + rest)[1..] == rest;
  }

  lemma {:induction false} SplitRun(s: Sys, acts: seq<Act>, k: nat)
    requires Inv(s) && CanAll(s, acts) && k <= |acts|
    ensures CanAll(s, acts[..k]) && CanAll(Steps(s, acts[..k]), acts[k..])
    ensures Steps(s, acts) == Steps(Steps(s, acts[..k]), acts[k..])
    decreases k
  {
    if k == 0 {
      assert acts[..k] == [] && acts[k..] == acts;
    } else {
      hide *;
      RunFirst(s, acts);
      var u, rest := Step(s, acts[0]), acts[1..];
      SplitRun(u, rest, k - 1);
      RunPrepend(s, acts[0], rest[..k - 1]);
      assert acts[..k] == [acts[0]] + rest[..k - 1] && acts[k..] == rest[k - 1..];
    }
  }

  /** Between steps j and k of the run core t's service starts, from off, and is off again. */
  ghost predicate Polls(s: Sys, acts: seq<Act>, t: nat, j: nat, k: nat)
    requires Inv(s) && CanAll(s, acts) && t < |s.askers|
  {
    && j <= k <= |acts| && Served(acts[j..k], t) > 0
    && CanAll(s, acts[..j]) && CanAll(s, acts[..k])
    && Steps(s, acts[..j]).servers[t].Off? && Steps(s, acts[..k]).servers[t].Off?
  }

  /** Requests only rise and answers are never taken back. */
  lemma {:induction false} RunKeeps(s: Sys, acts: seq<Act>, i: nat, t: nat, r: nat)
    requires Inv(s) && CanAll(s, acts) && i < |s.askers| && t < |s.askers| && r <= s.links[i][t].request
    ensures r <= Steps(s, acts).links[i][t].request
    ensures s.links[i][t].answer >= r ==> Steps(s, acts).links[i][t].answer >= r
    decreases |acts|
  {
    hide Inv, Step, Can;
    InvShaped(s);
    if acts != [] {
      StepInv(s, acts[0]);
      StepShaped(s, acts[0]);
      AnyStep(s, acts[0], i, t, r);
      RunKeeps(Step(s, acts[0]), acts[1..], i, t, r);
    }
  }

  /** A poll by core t somewhere in a run, its steps interleaved in any way with everyone's, answers
      every request to it that stood at the start. */
  lemma PollsAnswer(s: Sys, acts: seq<Act>, i: nat, t: nat, j: nat, k: nat)
    requires Inv(s) && CanAll(s, acts) && i < |s.askers| && t < |s.askers| && Polls(s, acts, t, j, k)
    ensures Steps(s, acts).links[i][t].answer >= s.links[i][t].request
  {
    hide Inv, Steps, CanAll, Served;
    InvShaped(s);
    var r := s.links[i][t].request;
    SplitRun(s, acts, k);
    SplitRun(s, acts[..k], j);
    assert acts[..k][..j] == acts[..j] && acts[..k][j..] == acts[j..k];
    RunKeeps(s, acts[..j], i, t, r);
    var u := Steps(s, acts[..j]);
    SeeingRun(u, acts[j..k], i, t, r);
    RunKeeps(s, acts[..k], i, t, r);
    RunKeeps(Steps(s, acts[..k]), acts[k..], i, t, r);
  }

  ghost predicate Polled(s: Sys, acts: seq<Act>, t: nat)
    requires Inv(s) && CanAll(s, acts) && t < |s.askers|
  {
    exists j: nat, k: nat :: Polls(s, acts, t, j, k)
  }

  /** So once every core has polled, whichever way their steps fell, every wait that stood is over. */
  lemma PollsFree(s: Sys, acts: seq<Act>, i: nat)
    requires Inv(s) && CanAll(s, acts) && i < |s.askers| && s.askers[i].Waiting?
    requires forall t: nat :: t < |s.askers| ==> Polled(s, acts, t)
    ensures Return(i) in acts || Can(Steps(s, acts), Return(i))
  {
    hide Steps, CanAll, Polls;
    if Return(i) !in acts {
      var t := s.askers[i].to;
      assert Pair(s, i, t);
      assert Polled(s, acts, t);
      var j: nat, k: nat :| Polls(s, acts, t, j, k);
      PollsAnswer(s, acts, i, t, j, k);
      WaitStands(s, acts, i);
      assert Pair(Steps(s, acts), i, t);
    }
  }

  /** A ring, waited for or not, is one request more, and no answer given before it counts for it: one
      comes from a poll after it. */
  lemma RingServed(s: Sys, rest: seq<Act>, i: nat, t: nat, j: nat, k: nat)
    requires Inv(s) && Can(s, Ring(i, t)) && Inv(Step(s, Ring(i, t))) && CanAll(Step(s, Ring(i, t)), rest)
    requires |Step(s, Ring(i, t)).askers| == |s.askers| && Polls(Step(s, Ring(i, t)), rest, t, j, k)
    ensures s.links[i][t].answer <= s.links[i][t].request
    ensures Step(s, Ring(i, t)).links[i][t].request == s.links[i][t].request + 1
    ensures Steps(Step(s, Ring(i, t)), rest).links[i][t].answer > s.links[i][t].request
  {
    hide Steps, CanAll, Polls;
    PairBounds(s, i, t);
    PollsAnswer(Step(s, Ring(i, t)), rest, i, t, j, k);
  }
}
