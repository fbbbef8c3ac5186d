/** The doorbell's cells and the routed mailbox, as one core works on them
    (arch/common/doorbell_protocol.cc, kernel/irq/irq_route.cc). */
module Doorbell {
  import opened BellRun
  import opened BellWait

  /** One operation performed: on whose behalf, and what. */
  datatype Deed = Deed(from: nat, what: LineOp)

  class Cells {
    const n: nat
    const request: array2<nat>
    const answer: array2<nat>
    const asked: array2<nat>
    const seqno: array2<nat>
    const ran: array2<nat>
    const line: array2<int>
    const op: array2<nat>
    var deeds: seq<Deed>

    constructor (cores: nat)
      ensures n == cores && Shaped() && deeds == []
      ensures Blank()
    {
      n := cores;
      request := new nat[cores, cores]((_, _) => 0);
      answer := new nat[cores, cores]((_, _) => 0);
      asked := new nat[cores, cores]((_, _) => 0);
      seqno := new nat[cores, cores]((_, _) => 0);
      ran := new nat[cores, cores]((_, _) => 0);
      line := new int[cores, cores]((_, _) => 0);
      op := new nat[cores, cores]((_, _) => 0);
      deeds := [];
    }

    ghost predicate Blank()
      requires Shaped()
      reads request, answer, asked, seqno, ran, line, op
    {
      forall i, t :: 0 <= i < n && 0 <= t < n ==>
        && request[i, t] == 0 && answer[i, t] == 0 && asked[i, t] == 0 && seqno[i, t] == 0 && ran[i, t] == 0
        && line[i, t] == 0 && op[i, t] == 0
    }

    /** A blank set of cells is the boot state. */
    lemma BlankShows()
      requires Shaped() && Blank() && n > 0
      ensures Shows(Boot(n))
    {
      BootInv(n);
      forall i, t | 0 <= i < n && 0 <= t < n
        ensures Cell(Boot(n), i, t)
      {
        BootLink(n, i, t);
      }
    }

    ghost predicate Square(a: array2<nat>) { a.Length0 == n && a.Length1 == n }

    ghost predicate Shaped() {
      && Square(request) && Square(answer) && Square(asked) && Square(seqno) && Square(ran) && Square(op)
      && line.Length0 == n && line.Length1 == n
      && request != answer && request != asked && answer != asked && ran != seqno && ran != op && seqno != op
      && request != seqno && request != ran && request != op && answer != seqno && answer != ran && answer != op
      && asked != seqno && asked != ran && asked != op
    }

    /** Whether a request to core `me` is unanswered. */
    method Pending(me: nat) returns (owed: bool)
      requires Shaped() && me < n
      ensures owed <==> exists from :: 0 <= from < n && request[from, me] != answer[me, from]
    {
      for from := 0 to n
        invariant forall j :: 0 <= j < from ==> request[j, me] == answer[me, j]
      {
        if request[from, me] != answer[me, from] {
          return true;
        }
      }
      return false;
    }

    /** The cells of core i asking core t are those of `s`. */
    ghost predicate Cell(s: Sys, i: nat, t: nat)
      requires Shaped() && BellRun.Shaped(s) && |s.askers| == n && i < n && t < n
      reads request, answer, asked, seqno, ran, line, op
    {
      var l := s.links[i][t];
      && request[i, t] == l.request && answer[t, i] == l.answer && asked[t, i] == s.asked[t][i]
      && seqno[i, t] == l.seqno && ran[t, i] == l.ran && line[i, t] == l.line && op[i, t] == l.op
    }

    ghost predicate Shows(s: Sys)
      requires Shaped()
      reads request, answer, asked, seqno, ran, line, op
    {
      Inv(s) && |s.askers| == n && forall i, t {:trigger Cell(s, i, t)} :: 0 <= i < n && 0 <= t < n ==> Cell(s, i, t)
    }

    /** One request read into the scratch row. */
    method SnapOne(me: nat, from: nat, owed: bool, ghost s: Sys) returns (also: bool)
      requires Shaped() && me < n && from < n && Shows(s) && s.servers[me] == Snap(from, owed)
      modifies asked
      ensures Shows(Next(s, me)) && also == (owed || request[from, me] != answer[me, from])
      ensures Next(s, me).servers[me] == if from + 1 < n then Snap(from + 1, also) else if also then Drain(0) else Off
      ensures asked[me, from] == request[from, me]
      ensures forall i, j :: 0 <= i < n && 0 <= j < n && !(i == me && j == from) ==> asked[i, j] == old(asked[i, j])
    {
      hide Pair;
      ghost var u := Next(s, me);
      assert Cell(s, from, me);
      asked[me, from] := request[from, me];
      also := owed || asked[me, from] != answer[me, from];
      forall i, t | 0 <= i < n && 0 <= t < n
        ensures Cell(u, i, t)
      {
        assert old(Cell(s, i, t));
      }
    }

    /** Every core's request to `me` read into its scratch row. */
    method Snapshot(me: nat, ghost s: Sys) returns (owed: bool, ghost u: Sys)
      requires Shaped() && me < n && Shows(s) && s.servers[me] == Snap(0, false)
      modifies asked
      ensures Shows(u) && Reach(s, u, me) && u.servers[me] == if owed then Drain(0) else Off
      ensures forall from :: 0 <= from < n ==> asked[me, from] == request[from, me]
      ensures forall i, j :: 0 <= i < n && 0 <= j < n && i != me ==> asked[i, j] == old(asked[i, j])
      ensures owed <==> exists from :: 0 <= from < n && request[from, me] != answer[me, from]
    {
      hide Inv, Next, Reach, Cell;
      owed, u := false, s;
      InvShaped(s);
      ReachSelf(s, me);
      for from := 0 to n
        invariant forall j :: 0 <= j < from ==> asked[me, j] == request[j, me]
        invariant forall i, j :: 0 <= i < n && 0 <= j < n && i != me ==> asked[i, j] == old(asked[i, j])
        invariant owed <==> exists j :: 0 <= j < from && request[j, me] != answer[me, j]
        invariant Shows(u) && Reach(s, u, me) && me < |u.servers|
        invariant u.servers[me] == if from < n then Snap(from, owed) else if owed then Drain(0) else Off
      {
        owed := SnapOne(me, from, owed, u);
        ReachNext(s, u, me);
        u := Next(u, me);
        InvShaped(u);
      }
    }

    /** The asks of `me` not yet performed, from the cores below k, lowest first. */
    ghost function Owed(me: nat, k: nat): seq<Deed>
      requires Shaped() && me < n && k <= n
      reads seqno, ran, line, op
    {
      if k == 0 then []
      else Owed(me, k - 1)
              + if seqno[k - 1, me] != ran[me, k - 1] then [Deed(k - 1, LineOp(line[k - 1, me], op[k - 1, me]))] else []
    }

    /** One core's ask performed if it is outstanding. */
    method RouteOne(me: nat, from: nat, ghost s: Sys) returns (ghost u: Sys)
      requires Shaped() && me < n && from < n && Shows(s) && s.servers[me] == Drain(from)
      modifies ran, this`deeds
      ensures Shows(u) && Reach(s, u, me) && u.servers[me] == Onward(from, n)
      ensures deeds == old(deeds)
              + if seqno[from, me] != old(ran[me, from]) then [Deed(from, LineOp(line[from, me], op[from, me]))] else []
      ensures ran[me, from] == seqno[from, me]
      ensures forall i, j :: 0 <= i < n && 0 <= j < n && !(i == me && j == from) ==> ran[i, j] == old(ran[i, j])
    {
      hide Pair, DrainSteps, Reach;
      assert Cell(s, from, me);
      DrainIs(s, me, from);
      u := DrainSteps(s, me, from);
      var a := seqno[from, me];
      if a != ran[me, from] {
        deeds := deeds + [Deed(from, LineOp(line[from, me], op[from, me]))];
        ran[me, from] := a;
      }
      forall i, t | 0 <= i < n && 0 <= t < n
        ensures Cell(u, i, t)
      {
        assert old(Cell(s, i, t));
      }
    }

    /** Performs every ask outstanding on `me`, once each. */
    method RouteService(me: nat, ghost s: Sys) returns (ghost u: Sys)
      requires Shaped() && me < n && Shows(s) && s.servers[me] == Drain(0)
      modifies ran, this`deeds
      ensures Shows(u) && Reach(s, u, me) && u.servers[me] == Answer(0)
      ensures deeds == old(deeds) + old(Owed(me, n))
      ensures forall from :: 0 <= from < n ==> ran[me, from] == seqno[from, me]
      ensures forall i, j :: 0 <= i < n && 0 <= j < n && i != me ==> ran[i, j] == old(ran[i, j])
    {
      hide Inv, Reach, Cell;
      u := s;
      ReachSelf(s, me);
      InvShaped(s);
      for from := 0 to n
        invariant deeds == old(deeds) + old(Owed(me, from))
        invariant forall j :: 0 <= j < from ==> ran[me, j] == seqno[j, me]
        invariant forall j :: from <= j < n ==> ran[me, j] == old(ran[me, j])
        invariant forall i, j :: 0 <= i < n && 0 <= j < n && i != me ==> ran[i, j] == old(ran[i, j])
        invariant Shows(u) && Reach(s, u, me) && me < |u.servers|
        invariant u.servers[me] == if from < n then Drain(from) else Answer(0)
      {
        ghost var w := RouteOne(me, from, u);
        ReachTrans(s, u, w, me);
        u := w;
        InvShaped(u);
      }
    }

    /** One request the snapshot saw answered. */
    method AnswerOne(me: nat, from: nat, ghost s: Sys)
      requires Shaped() && me < n && from < n && Shows(s) && s.servers[me] == Answer(from)
      modifies answer
      ensures Shows(Next(s, me)) && Next(s, me).servers[me] == if from + 1 < n then Answer(from + 1) else Off
      ensures answer[me, from] == asked[me, from]
      ensures forall i, j :: 0 <= i < n && 0 <= j < n && !(i == me && j == from) ==> answer[i, j] == old(answer[i, j])
    {
      hide Pair;
      ghost var u := Next(s, me);
      assert Cell(s, from, me);
      if asked[me, from] != answer[me, from] {
        answer[me, from] := asked[me, from];
      }
      forall i, t | 0 <= i < n && 0 <= t < n
        ensures Cell(u, i, t)
      {
        assert old(Cell(s, i, t));
      }
    }

    /** Every request the snapshot saw answered. */
    method PublishAnswers(me: nat, ghost s: Sys) returns (ghost u: Sys)
      requires Shaped() && me < n && Shows(s) && s.servers[me] == Answer(0)
      modifies answer
      ensures Shows(u) && Reach(s, u, me) && u.servers[me] == Off
      ensures forall from :: 0 <= from < n ==> answer[me, from] == asked[me, from]
      ensures forall i, j :: 0 <= i < n && 0 <= j < n && i != me ==> answer[i, j] == old(answer[i, j])
    {
      hide Inv, Next, Reach, Cell;
      u := s;
      ReachSelf(s, me);
      InvShaped(s);
      for from := 0 to n
        invariant forall j :: 0 <= j < from ==> answer[me, j] == asked[me, j]
        invariant forall i, j :: 0 <= i < n && 0 <= j < n && i != me ==> answer[i, j] == old(answer[i, j])
        invariant Shows(u) && Reach(s, u, me) && me < |u.servers|
        invariant u.servers[me] == if from < n then Answer(from) else Off
      {
        AnswerOne(me, from, u);
        ReachNext(s, u, me);
        u := Next(u, me);
        InvShaped(u);
      }
    }

    /** The service body, run from off to off as the steps proved of it: nothing owed, nothing done;
        else every ask outstanding is performed and every request answered, and no other core's
        answers move. */
    method Service(me: nat, ghost s: Sys) returns (ghost u: Sys)
      requires Shaped() && me < n && Shows(s) && s.servers[me].Off?
      modifies asked, ran, answer, this`deeds
      ensures Shows(u) && Reach(s, u, me) && u.servers[me].Off?
      ensures forall from :: 0 <= from < n ==> answer[me, from] == request[from, me]
      ensures forall i, j :: 0 <= i < n && 0 <= j < n && i != me ==>
              answer[i, j] == old(answer[i, j]) && ran[i, j] == old(ran[i, j])
      ensures if exists from :: 0 <= from < n && request[from, me] != old(answer[me, from])
              then deeds == old(deeds) + old(Owed(me, n)) && forall from :: 0 <= from < n ==> ran[me, from] == seqno[from, me]
              else deeds == old(deeds) && forall from :: 0 <= from < n ==> ran[me, from] == old(ran[me, from])
    {
      hide Inv, Reach, Cell, Owed;
      InvShaped(s);
      StartBody(s, me);
      u := Next(s, me);
      InvShaped(u);
      SameCells(s, u, me);
      var owed;
      ghost var w;
      owed, w := Snapshot(me, u);
      ReachTrans(s, u, w, me);
      InvShaped(w);
      if owed {
        u := RouteService(me, w);
        ReachTrans(s, w, u, me);
        InvShaped(u);
        w := PublishAnswers(me, u);
        ReachTrans(s, u, w, me);
      }
      u := w;
    }

    lemma SameCells(s: Sys, u: Sys, me: nat)
      requires Shaped() && me < n && Shows(s) && s.servers[me].Off? && u == Next(s, me)
      ensures Shows(u)
    {
      forall i, t | 0 <= i < n && 0 <= t < n
        ensures Cell(u, i, t)
      {
        assert Cell(s, i, t);
      }
    }

    /** One request, a rendezvous's or an ask's last store. */
    method RequestOne(me: nat, to: nat, ghost s: Sys)
      requires Shaped() && me < n && to < n && Shows(s) && Requests(s, me, to)
      modifies request
      ensures Shows(Asked(s, me, to)) && Asked(s, me, to).servers == s.servers
      ensures s.askers[me].Quiet? ==> Asked(s, me, to).askers == s.askers
      ensures forall i, t :: 0 <= i < n && 0 <= t < n ==> request[i, t] == old(request[i, t]) + if i == me
              && t == to then 1 else 0
    {
      hide Pair;
      ghost var u := Asked(s, me, to);
      assert Cell(s, me, to);
      request[me, to] := request[me, to] + 1;
      forall i, t | 0 <= i < n && 0 <= t < n
        ensures Cell(u, i, t)
      {
        assert old(Cell(s, i, t));
      }
    }

    /** A request to each core of the mask, or to the one an ask is for; the caller's own is serviced
        at once. */
    method Send(me: nat, cores: set<nat>, ghost s: Sys) returns (ghost u: Sys)
      requires Shaped() && me < n && Shows(s) && s.servers[me].Off?
      requires s.askers[me].Quiet? || (s.askers[me].Bump? && cores == {s.askers[me].to})
      modifies request, asked, ran, answer, this`deeds
      ensures Shows(u) && u.servers[me].Off?
      ensures forall i, t :: 0 <= i < n && 0 <= t < n ==> request[i, t] == old(request[i, t]) + if i == me
              && t in cores then 1 else 0
      ensures me in cores ==> forall from :: 0 <= from < n ==> answer[me, from] == request[from, me]
      ensures forall i, j :: 0 <= i < n && 0 <= j < n && (i != me || me !in cores) ==> answer[i, j] == old(answer[i, j])
    {
      hide Inv, Cell, Owed, Asked;
      u := s;
      InvShaped(s);
      for to := 0 to n
        modifies request
        invariant forall i, t :: 0 <= i < n && 0 <= t < n ==>
                    request[i, t] == old(request[i, t]) + if i == me && t in cores && t < to then 1 else 0
        invariant Shows(u) && BellRun.Shaped(u) && u.servers[me].Off?
        invariant s.askers[me].Quiet? || (forall c :: c in cores ==> c >= to) ==> u.askers[me] == s.askers[me]
      {
        if to in cores {
          RequestOne(me, to, u);
          u := Asked(u, me, to);
          InvShaped(u);
        }
      }
      if me in cores {
        u := Service(me, u);
      }
    }

    /** Whether every peer of the mask has answered this core's last request to it. */
    method Answered(me: nat, cores: set<nat>) returns (all: bool)
      requires Shaped() && me < n
      ensures all <==> forall to :: 0 <= to < n && to in cores && to != me ==> answer[to, me] == request[me, to]
    {
      for to := 0 to n
        invariant forall t :: 0 <= t < to && t in cores && t != me ==> answer[t, me] == request[me, t]
      {
        if to in cores && to != me && answer[to, me] != request[me, to] {
          return false;
        }
      }
      return true;
    }
  }

  lemma BootLink(n: nat, i: nat, t: nat)
    requires i < n && t < n
    ensures Boot(n).links[i][t] == Link(0, 0, 0, 0, 0, 0, [], []) && Boot(n).asked[t][i] == 0
  {
    assert |Boot(n).links[i]| == n && |Boot(n).asked[t]| == n;
  }

  /** One step of core t's service. */
  ghost function Next(s: Sys, t: nat): (u: Sys)
    requires Inv(s) && t < |s.askers|
    ensures Inv(u) && Shaped(s) && u == Serves(s, t) && Shaped(u) && |u.askers| == |s.askers|
  {
    OneStep(s, t);
    InvShaped(Serves(s, t));
    Serves(s, t)
  }

  /** Core i is to make a request of core t. */
  ghost predicate Requests(s: Sys, i: nat, t: nat)
    requires Shaped(s) && i < |s.askers|
  {
    s.askers[i].Quiet? || (s.askers[i].Bump? && s.askers[i].to == t)
  }

  /** That request made. */
  ghost function Asked(s: Sys, i: nat, t: nat): (u: Sys)
    requires Inv(s) && Shaped(s) && i < |s.askers| && t < |s.askers| && Requests(s, i, t)
    ensures Inv(u) && Shaped(u) && |u.askers| == |s.askers|
  {
    var a := if s.askers[i].Quiet? then Ring(i, t) else AskStep(i);
    StepInv(s, a);
    StepShaped(s, a);
    Step(s, a)
  }

  /** Steps of core t's service alone lead from `s` to `u`. */
  ghost predicate Reach(s: Sys, u: Sys, t: nat) {
    Inv(s) && t < |s.askers| && exists m: nat :: u == Alone(s, t, m)
  }

  lemma ReachSelf(s: Sys, t: nat)
    requires Inv(s) && t < |s.askers|
    ensures Reach(s, s, t)
  {
    assert s == Alone(s, t, 0);
  }

  lemma {:induction false} AloneTwice(s: Sys, t: nat, m: nat, k: nat)
    requires Inv(s) && t < |s.askers|
    ensures Alone(Alone(s, t, m), t, k) == Alone(s, t, m + k)
    decreases m
  {
    hide Inv, Serves;
    if m > 0 {
      OneStep(s, t);
      AloneTwice(Serves(s, t), t, m - 1, k);
    }
  }

  lemma ReachTrans(s: Sys, u: Sys, w: Sys, t: nat)
    requires Reach(s, u, t) && Reach(u, w, t)
    ensures Reach(s, w, t)
  {
    hide Inv, Alone;
    var m: nat :| u == Alone(s, t, m);
    var k: nat :| w == Alone(u, t, k);
    AloneTwice(s, t, m, k);
  }

  lemma ReachNext(s: Sys, u: Sys, t: nat)
    requires Inv(u) && t < |u.askers| && Reach(s, u, t)
    ensures Reach(s, Next(u, t), t)
  {
    OneReach(u, t);
    ReachTrans(s, u, Next(u, t), t);
  }

  lemma OneReach(s: Sys, t: nat)
    requires Inv(s) && t < |s.askers|
    ensures Reach(s, Next(s, t), t)
  {
    assert Alone(Next(s, t), t, 0) == Next(s, t);
    assert Next(s, t) == Alone(s, t, 1);
  }

  lemma StartBody(s: Sys, t: nat)
    requires Inv(s) && t < |s.askers| && Shaped(s) && s.servers[t].Off?
    ensures Next(s, t).servers[t] == Snap(0, false) && Reach(s, Next(s, t), t)
  {
    OneReach(s, t);
  }

  /** The drain of one core's ask: two steps past one already performed, five through one that is not. */
  ghost function DrainSteps(s: Sys, t: nat, k: nat): (u: Sys)
    requires Inv(s) && Shaped(s) && t < |s.askers| && k < |s.askers| && s.servers[t] == Drain(k)
    ensures Reach(s, u, t) && Inv(u) && Shaped(u) && |u.askers| == |s.askers|
  {
    var a := Next(s, t);
    var b := Next(a, t);
    OneReach(s, t); ReachNext(s, a, t);
    if s.links[k][t].seqno == s.links[k][t].ran then b
    else
      var c := Next(b, t);
      var d := Next(c, t);
      var e := Next(d, t);
      ReachNext(s, b, t); ReachNext(s, c, t); ReachNext(s, d, t);
      e
  }

  lemma DrainIs(s: Sys, t: nat, k: nat)
    requires Inv(s) && Shaped(s) && t < |s.askers| && k < |s.askers| && s.servers[t] == Drain(k)
    ensures var u := DrainSteps(s, t, k);
            && u.servers[t] == Onward(k, |s.askers|) && u.asked == s.asked
            && (forall i, j :: 0 <= i < |s.askers| && 0 <= j < |s.askers| && !(i == k && j == t) ==>
                u.links[i][j] == s.links[i][j])
            && var l := s.links[k][t];
               u.links[k][t] == if l.seqno == l.ran then l else l.(done := l.done + [LineOp(l.line, l.op)], ran := l.seqno)
  {
    hide Inv, Reach;
  }
}
