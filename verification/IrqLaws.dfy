/** What each operation on the publication records does to the lines, the handlers a dispatch is handed
    and the binding slots owed, said of those alone. */
module IrqLaws {
  import opened IrqPub
  import opened Sets

  /** A dispatch of the line finds a record, and its pair is `what`. */
  ghost predicate Hands(p: Pub, line: nat, what: nat)
    requires Sized(p) && line < Lines(p)
  {
    && p.word[line] != 0 && !Retires(p.word[line])
    && p.word[line] <= Lines(p) && p.pair[p.word[line]] == what
  }

  ghost predicate Unbound(p: Pub, line: nat)
    requires line < Lines(p)
  {
    p.word[line] == 0
  }

  /** Line `l` reads as it did, and so does the record it names. */
  ghost predicate SameLine(p: Pub, q: Pub, l: nat)
    requires Sized(p) && Sized(q) && Lines(p) == Lines(q) && l < Lines(p)
  {
    && q.word[l] == p.word[l]
    && (var s := SlotIn(p.word[l]);
        s <= Lines(p) ==> q.pair[s] == p.pair[s] && q.binding[s] == p.binding[s] && (s > 0 ==> q.lineOf[s] == p.lineOf[s]))
  }

  /** Every line but `line`. */
  ghost predicate OthersSame(p: Pub, q: Pub, line: nat)
    requires Sized(p) && Sized(q) && Lines(p) == Lines(q)
  {
    forall l: nat {:trigger SameLine(p, q, l)} :: l < Lines(p) && l != line ==> SameLine(p, q, l)
  }

  /** A reserved record published hands its pair out for its line, and no other line changes. */
  lemma CommitHands(p: Pub, s: nat, line: nat, what: nat)
    requires PubOk(p) && s in Reserved(p) && line < Lines(p) && p.word[line] == 0
    ensures var q := Commit(p, s, line, what);
            Sized(q) && Lines(q) == Lines(p) && Hands(q, line, what) && OthersSame(p, q, line)
  {
    var q := Commit(p, s, line, what);
    forall l: nat | l < Lines(p) && l != line
      ensures SameLine(p, q, l)
    {
      assert WordOk(p, l);
    }
  }

  lemma ReserveSame(p: Pub)
    requires PubOk(p) && p.free != []
    ensures var q := Reserve(p).0;
            && Sized(q) && Lines(q) == Lines(p) && q.word == p.word
            && forall l: nat {:trigger SameLine(p, q, l)} :: l < Lines(p) ==> SameLine(p, q, l)
  {
    var q := Reserve(p).0;
    var s := p.free[0];
    assert p.state[s] == Free;
    forall l: nat | l < Lines(p)
      ensures SameLine(p, q, l)
    {
      assert WordOk(p, l);
      assert SlotOk(p, s);
    }
  }

  /** Binding a line succeeds exactly when it is unbound; then a dispatch is handed what was bound. */
  lemma AttachHands(p: Pub, line: nat, what: nat)
    requires PubOk(p) && Reserved(p) == {} && line < Lines(p)
    ensures var (q, ok) := Attached(p, line, what);
            && (ok <==> Unbound(p, line)) && (!ok ==> q == p)
            && (ok ==> Sized(q) && Lines(q) == Lines(p) && Hands(q, line, what) && OthersSame(p, q, line))
  {
    hide PubOk, Reserve, Commit, Hands, Reserved, SameLine;
    if p.word[line] == 0 {
      NeverRunsOut(p, line);
      FreeFirst(p);
      ReserveOk(p);
      ReserveSame(p);
      CommitHands(Reserve(p).0, p.free[0], line, what);
      SameTwice(p, Reserve(p).0, Attached(p, line, what).0, line);
    }
  }

  lemma FreeFirst(p: Pub)
    requires PubOk(p) && p.free != []
    ensures Sized(p) && Reserve(p).1 == p.free[0] && p.free[0] in Reserved(Reserve(p).0)
  {
    ReserveOk(p);
  }

  lemma SameTwice(p: Pub, q: Pub, r: Pub, line: nat)
    requires Sized(p) && Sized(q) && Sized(r) && Lines(p) == Lines(q) == Lines(r)
    requires OthersSame(p, q, line) && OthersSame(q, r, line)
    ensures OthersSame(p, r, line)
  {
    forall l: nat | l < Lines(p) && l != line
      ensures SameLine(p, r, l)
    {
      assert SameLine(p, q, l) && SameLine(q, r, l);
    }
  }

  /** A release leaves nothing for a dispatch of the line to find; what its record owes is the binding
      named, or what it owed before where none is; and no other line changes. */
  lemma RetireSays(p: Pub, line: nat, binding: int)
    requires PubOk(p) && line < Lines(p)
    ensures var q := Retire(p, line, binding);
            && Sized(q) && Lines(q) == Lines(p) && OthersSame(p, q, line)
            && (Unbound(p, line) ==> q == p)
            && (!Unbound(p, line) ==>
                  var s := SlotIn(p.word[line]);
                  && 1 <= s <= Lines(p) && q.word[line] == s + RETIRING && q.pair[s] == p.pair[s] && q.lineOf[s] == line
                  && q.binding == p.binding[s := if binding == -1 then p.binding[s] else binding]
                  && q.pending == (if Retires(p.word[line]) then p.pending else [s] + p.pending))
  {
    var q := Retire(p, line, binding);
    assert WordOk(p, line);
    assert Unbound(p, line) ==> q.word == p.word;
    forall l: nat | l < Lines(p) && l != line
      ensures SameLine(p, q, l)
    {
      assert WordOk(p, l);
    }
  }

  /** A batch closed is what was pending, with the epochs read as its sample; no line changes. */
  lemma CloseSays(p: Pub, sample: seq<nat>)
    requires PubOk(p)
    ensures var q := Close(p, sample);
            && (p.pending == [] ==> q == p)
            && (p.pending != [] ==> q.draining == p.pending && q.pending == [] && q.sample == sample && q.open)
            && q.word == p.word && q.pair == p.pair && q.binding == p.binding && q.lineOf == p.lineOf && q.free == p.free
  {
  }

  /** A record reclaimed unbinds its line, is owed for no longer, and heads the free chain. */
  lemma ReclaimSays(p: Pub)
    requires PubOk(p) && p.draining != []
    ensures var q := ReclaimOne(p);
            var s := p.draining[0];
            && 1 <= s <= Lines(p) && 0 <= p.lineOf[s] < Lines(p) && Retires(p.word[p.lineOf[s]])
            && Sized(q) && Lines(q) == Lines(p) && Unbound(q, p.lineOf[s]) && OthersSame(p, q, p.lineOf[s])
            && q.binding == p.binding[s := -1] && q.free == [s] + p.free && q.pending == p.pending && q.sample == p.sample
  {
    var q := ReclaimOne(p);
    var s := p.draining[0];
    assert SlotOk(p, s);
    forall l: nat | l < Lines(p) && l != p.lineOf[s]
      ensures SameLine(p, q, l)
    {
      assert WordOk(p, l);
    }
  }

  // ---- Drains ----

  /** A bound line keeps what it hands out; a retiring one may come unbound. */
  ghost predicate LineKept(p: Pub, q: Pub, l: nat)
    requires Sized(p) && Sized(q) && Lines(p) == Lines(q) && l < Lines(p)
  {
    SameLine(p, q, l) || (Retires(p.word[l]) && Unbound(q, l))
  }

  ghost predicate LinesKept(p: Pub, q: Pub) {
    && Sized(p) && Sized(q) && Lines(p) == Lines(q)
    && forall l: nat {:trigger LineKept(p, q, l)} :: l < Lines(p) ==> LineKept(p, q, l)
  }

  lemma KeptTwice(p: Pub, q: Pub, r: Pub)
    requires LinesKept(p, q) && LinesKept(q, r)
    ensures LinesKept(p, r)
  {
    forall l: nat | l < Lines(p)
      ensures LineKept(p, r, l)
    {
      assert LineKept(p, q, l) && LineKept(q, r, l);
    }
  }

  /** Every line but `line` that hands a handler out goes on handing it out. */
  ghost predicate OthersLive(p: Pub, q: Pub, line: nat) {
    && Sized(p) && Sized(q) && Lines(p) == Lines(q)
    && forall l: nat, what: nat {:trigger Hands(p, l, what)} ::
         l < Lines(p) && l != line && Hands(p, l, what) ==> Hands(q, l, what)
  }

  lemma KeptLive(p: Pub, q: Pub, r: Pub, line: nat)
    requires LinesKept(p, q) && Sized(r) && Lines(q) == Lines(r) && OthersSame(q, r, line)
    ensures OthersLive(p, r, line)
  {
    forall l: nat, what: nat | l < Lines(p) && l != line && Hands(p, l, what)
      ensures Hands(r, l, what)
    {
      assert LineKept(p, q, l) && SameLine(q, r, l);
    }
  }

  lemma SameLive(p: Pub, q: Pub, r: Pub, line: nat)
    requires Sized(p) && Sized(q) && Lines(p) == Lines(q) && OthersSame(p, q, line) && LinesKept(q, r)
    ensures OthersLive(p, r, line)
  {
    forall l: nat, what: nat | l < Lines(p) && l != line && Hands(p, l, what)
      ensures Hands(r, l, what)
    {
      assert SameLine(p, q, l) && LineKept(q, r, l);
    }
  }

  lemma StillRetires(p: Pub, q: Pub, line: nat)
    requires LinesKept(p, q) && line < Lines(p) && (Unbound(p, line) || Retires(p.word[line]))
    ensures Unbound(q, line) || Retires(q.word[line])
  {
    assert LineKept(p, q, line);
  }

  /** The line hands a handler out. */
  ghost predicate BoundTo(p: Pub, line: nat)
    requires line < Lines(p)
  {
    p.word[line] != 0 && !Retires(p.word[line])
  }

  lemma AttachedLive(was: Pub, p: Pub, line: nat, what: nat)
    requires PubOk(p) && Reserved(p) == {} && line < Lines(p) && LinesKept(was, p)
    ensures var (q, ok) := Attached(p, line, what);
            && (ok <==> Unbound(p, line)) && (!ok ==> q == p)
            && (ok ==> Sized(q) && Lines(q) == Lines(p) && Hands(q, line, what) && OthersSame(p, q, line))
            && OthersLive(was, q, line) && OthersLive(was, p, line)
  {
    hide PubOk, Attached, Reserved;
    AttachHands(p, line, what);
    assert OthersSame(p, p, line);
    KeptLive(was, p, p, line);
    if p.word[line] == 0 {
      KeptLive(was, p, Attached(p, line, what).0, line);
    }
  }

  lemma ReclaimKeeps(p: Pub)
    requires PubOk(p) && p.draining != []
    ensures LinesKept(p, ReclaimOne(p))
  {
    hide PubOk, ReclaimOne, SameLine;
    PubSized(p);
    ReclaimSays(p);
    var q, line := ReclaimOne(p), p.lineOf[p.draining[0]];
    forall l: nat | l < Lines(p)
      ensures LineKept(p, q, l)
    {
      if l != line {
        assert SameLine(p, q, l);
      }
    }
  }

  lemma {:induction false} ReclaimAllKeeps(p: Pub)
    requires PubOk(p)
    ensures LinesKept(p, ReclaimAll(p))
    decreases |p.draining|
  {
    hide PubOk, ReclaimOne;
    PubSized(p);
    if p.draining != [] {
      ReclaimOk(p);
      ReclaimKeeps(p);
      LessDraining(p);
      ReclaimAllKeeps(ReclaimOne(p));
      KeptTwice(p, ReclaimOne(p), ReclaimAll(p));
    }
  }

  lemma LessDraining(p: Pub)
    requires PubOk(p) && p.draining != []
    ensures ReclaimOne(p).draining == p.draining[1..]
  {
  }

  lemma PassKeeps(p: Pub, sampled: seq<nat>, now: seq<nat>)
    requires PubOk(p)
    ensures LinesKept(p, Pass(p, sampled, now))
  {
    hide PubOk, ReclaimAll, Close;
    BatchKeeps(p, sampled);
    ReclaimAllKeeps(Batch(p, sampled));
    KeptTwice(p, Batch(p, sampled), ReclaimAll(Batch(p, sampled)));
  }

  lemma BatchKeeps(p: Pub, sampled: seq<nat>)
    requires PubOk(p)
    ensures LinesKept(p, Batch(p, sampled)) && Batch(p, sampled).binding == p.binding
  {
    hide PubOk;
    PubSized(p);
    PubSized(Batch(p, sampled));
    CloseSays(p, sampled);
  }

  /** A drain leaves every bound line handing out what it did, on whatever epochs it reads. */
  lemma DrainKeeps(p: Pub, s0: seq<nat>, n0: seq<nat>, s1: seq<nat>, n1: seq<nat>)
    requires PubOk(p)
    ensures LinesKept(p, Drain(p, s0, n0, s1, n1))
  {
    hide PubOk, Pass, Batch, PassStops;
    BatchKeeps(p, s0);
    PassKeeps(p, s0, n0);
    PassKeeps(Pass(p, s0, n0), s1, n1);
    KeptTwice(p, Pass(p, s0, n0), Pass(Pass(p, s0, n0), s1, n1));
  }

  // ---- Binding slots owed ----

  /** How often binding slot `b` is named. */
  function Count(bs: seq<int>, b: int): nat {
    if bs == [] then 0 else (if bs[0] == b then 1 else 0) + Count(bs[1..], b)
  }

  /** -1 names no slot. */
  function Given(b: int): seq<int> { if b == -1 then [] else [b] }

  lemma {:induction false} CountSet(bs: seq<int>, i: nat, c: int, b: int)
    requires i < |bs|
    ensures Count(bs[i := c], b) + (if bs[i] == b then 1 else 0) == Count(bs, b) + if c == b then 1 else 0
  {
    if i == 0 {
      assert bs[0 := c][1..] == bs[1..];
    } else {
      assert bs[i := c][1..] == bs[1..][i - 1 := c];
      CountSet(bs[1..], i - 1, c, b);
    }
  }

  lemma {:induction false} CountJoined(a: seq<int>, c: seq<int>, b: int)
    ensures Count(a + c, b) == Count(a, b) + Count(c, b)
  {
    if a == [] {
      assert a + c == c;
    } else {
      assert (a + c)[1..] == a[1..] + c;
      CountJoined(a[1..], c, b);
    }
  }

  lemma {:induction false} CountNone(bs: seq<int>, b: int)
    requires b !in bs
    ensures Count(bs, b) == 0
  {
    if bs != [] {
      CountNone(bs[1..], b);
    }
  }

  /** The binding slots a reclamation of the whole batch gives back, in its order. */
  ghost function Returns(p: Pub): seq<int>
    requires PubOk(p)
    decreases |p.draining|
  {
    if p.draining == [] then []
    else
      ReclaimOk(p);
      LessDraining(p);
      Given(p.binding[p.draining[0]]) + Returns(ReclaimOne(p))
  }

  lemma {:induction false} ReturnsOwed(p: Pub, b: int)
    requires PubOk(p) && b != -1
    ensures Count(ReclaimAll(p).binding, b) + Count(Returns(p), b) == Count(p.binding, b)
    decreases |p.draining|
  {
    hide PubOk, ReclaimOne;
    if p.draining != [] {
      PubSized(p);
      ReclaimOk(p);
      ReclaimSays(p);
      LessDraining(p);
      ReturnsOwed(ReclaimOne(p), b);
      CountSet(p.binding, p.draining[0], -1, b);
      CountJoined(Given(p.binding[p.draining[0]]), Returns(ReclaimOne(p)), b);
    }
  }

  ghost function PassReturns(p: Pub, sampled: seq<nat>, now: seq<nat>): seq<int>
    requires PubOk(p)
  {
    if PassStops(p, sampled, now) then [] else Returns(Batch(p, sampled))
  }

  ghost function DrainReturns(p: Pub, s0: seq<nat>, n0: seq<nat>, s1: seq<nat>, n1: seq<nat>): seq<int>
    requires PubOk(p)
  {
    if PassStops(p, s0, n0) then [] else PassReturns(p, s0, n0) + PassReturns(Pass(p, s0, n0), s1, n1)
  }

  lemma PassOwed(p: Pub, sampled: seq<nat>, now: seq<nat>, b: int)
    requires PubOk(p) && b != -1
    ensures Count(Pass(p, sampled, now).binding, b) + Count(PassReturns(p, sampled, now), b) == Count(p.binding, b)
  {
    hide PubOk, ReclaimAll, Batch, Returns, PassStops;
    BatchKeeps(p, sampled);
    ReturnsOwed(Batch(p, sampled), b);
  }

  /** A binding slot owed is given back once: what a drain returns and what is owed after it are what
      was owed before. */
  lemma DrainOwed(p: Pub, s0: seq<nat>, n0: seq<nat>, s1: seq<nat>, n1: seq<nat>, b: int)
    requires PubOk(p) && b != -1
    ensures Count(Drain(p, s0, n0, s1, n1).binding, b) + Count(DrainReturns(p, s0, n0, s1, n1), b) == Count(p.binding, b)
  {
    hide PubOk, ReclaimAll, Returns;
    BatchKeeps(p, s0);
    PassOwed(p, s0, n0, b);
    PassOwed(Pass(p, s0, n0), s1, n1, b);
    CountJoined(PassReturns(p, s0, n0), PassReturns(Pass(p, s0, n0), s1, n1), b);
  }

  /** With no core inside a dispatch it gives back everything owed. */
  lemma DrainReturnsAll(p: Pub, s0: seq<nat>, n0: seq<nat>, s1: seq<nat>, n1: seq<nat>, b: int)
    requires PubOk(p) && |s0| == |n0| == |s1| == |n1| == |p.sample| && Lines(p) > 0
    requires p.open ==> Elapsed(p.sample, n0)
    requires forall c :: 0 <= c < |s0| ==> s0[c] % 2 == 0 && s1[c] % 2 == 0
    requires b != -1
    ensures Count(DrainReturns(p, s0, n0, s1, n1), b) == Count(p.binding, b)
  {
    hide PubOk, Drain, DrainReturns;
    var q := Drain(p, s0, n0, s1, n1);
    DrainFrees(p, s0, n0, s1, n1, 0);
    DrainOwed(p, s0, n0, s1, n1, b);
    NoneOwed(q);
    CountNone(q.binding, b);
  }

  lemma NoneOwed(p: Pub)
    requires PubOk(p) && p.pending == [] && p.draining == []
    ensures forall i :: 0 <= i < |p.binding| ==> p.binding[i] == -1
  {
    forall i | 1 <= i < |p.binding|
      ensures p.binding[i] == -1
    {
      assert SlotOk(p, i);
      assert p.state[i] == Pending ==> i in p.pending;
      assert p.state[i] == Draining ==> i in p.draining;
    }
  }
}
