/** What the interrupt records are for, over whole runs: a dispatch is handed what was last bound to its
    line, a binding slot is given back once its record is, and every drain ends. */
module IrqBound {
  import opened IrqPub
  import opened IrqLaws
  import opened G = IrqGrace

  // ---- What a dispatch is handed ----

  /** The handlers bound, line by line, from the binds and releases alone. */
  ghost function Bound(acts: seq<Act>): map<nat, nat>
    decreases |acts|
  {
    if acts == [] then map[] else Rebound(Bound(acts[..|acts| - 1]), acts[|acts| - 1])
  }

  ghost function Rebound(m: map<nat, nat>, a: Act): map<nat, nat> {
    match a
    case Bind(line, what, _) => m[line := what]
    case Detach(line) => m - {line}
    case Drop(line) => m - {line}
    case _ => m
  }

  ghost predicate LineAgrees(p: Pub, m: map<nat, nat>, l: nat)
    requires Sized(p) && l < Lines(p)
  {
    if l in m then Hands(p, l, m[l]) else !BoundTo(p, l)
  }

  ghost predicate Agrees(p: Pub, m: map<nat, nat>) {
    Sized(p) && forall l: nat {:trigger LineAgrees(p, m, l)} :: l < Lines(p) ==> LineAgrees(p, m, l)
  }

  lemma BindAgrees(p: Pub, m: map<nat, nat>, line: nat, what: nat)
    requires PubOk(p) && Reserved(p) == {} && line < Lines(p) && p.word[line] == 0 && p.free != [] && Agrees(p, m)
    ensures Agrees(Commit(Reserve(p).0, p.free[0], line, what), m[line := what])
  {
    hide PubOk, Reserved, Reserve, Commit;
    AttachHands(p, line, what);
    var q, m' := Attached(p, line, what).0, m[line := what];
    forall l: nat | l < Lines(q)
      ensures LineAgrees(q, m', l)
    {
      if l != line {
        assert SameLine(p, q, l) && LineAgrees(p, m, l);
      }
    }
  }

  lemma RetireAgrees(p: Pub, m: map<nat, nat>, line: nat, binding: int)
    requires PubOk(p) && line < Lines(p) && Agrees(p, m)
    ensures Agrees(Retire(p, line, binding), m - {line})
  {
    hide PubOk, Retire;
    RetireSays(p, line, binding);
    var q := Retire(p, line, binding);
    forall l: nat | l < Lines(q)
      ensures LineAgrees(q, m - {line}, l)
    {
      assert LineAgrees(p, m, l);
      if l != line {
        assert SameLine(p, q, l);
      }
    }
  }

  lemma ReclaimAgrees(p: Pub, m: map<nat, nat>)
    requires PubOk(p) && p.draining != [] && Agrees(p, m)
    ensures Agrees(ReclaimOne(p), m)
  {
    hide PubOk, ReclaimOne;
    ReclaimSays(p);
    var q, line := ReclaimOne(p), p.lineOf[p.draining[0]];
    forall l: nat | l < Lines(q)
      ensures LineAgrees(q, m, l)
    {
      assert LineAgrees(p, m, l);
      if l != line {
        assert SameLine(p, q, l);
      }
    }
  }

  /** Records whose lines and handlers are the same agree alike. */
  lemma SameAgrees(p: Pub, q: Pub, m: map<nat, nat>)
    requires Agrees(p, m) && Sized(q) && q.word == p.word && q.pair == p.pair
    ensures Agrees(q, m)
  {
    forall l: nat | l < Lines(q)
      ensures LineAgrees(q, m, l)
    {
      assert LineAgrees(p, m, l);
    }
  }

  lemma StepAgrees(s: Sys, a: Act, m: map<nat, nat>)
    requires Inv(s) && Can(s, a) && Agrees(s.pub, m)
    ensures Agrees(Step(s, a).pub, Rebound(m, a))
  {
    hide PubOk, Agrees, Reserved, Reserve, Commit, Retire, Close, ReclaimOne;
    PubSized(s.pub);
    match a
    case Bind(line, what, _) => BindAgrees(s.pub, m, line, what);
    case Detach(line) => RetireAgrees(s.pub, m, line, -1);
    case Drop(line) =>
      DropIs(s, line);
      RetireAgrees(s.pub, m, line, s.pub.pair[SlotIn(s.pub.word[line])]);
    case Drain =>
      if !s.pub.open {
        CloseSays(s.pub, s.pub.sample);
        CloseSized(s.pub, s.pub.sample);
        SameAgrees(s.pub, Close(s.pub, s.pub.sample), m);
      }
    case Sample => SameAgrees(s.pub, Step(s, a).pub, m);
    case Reclaim =>
      if s.pub.draining != [] {
        ReclaimAgrees(s.pub, m);
      }
    case _ =>
  }

  lemma DropIs(s: Sys, line: nat)
    requires PubOk(s.pub) && line < Lines(s.pub) && s.pub.word[line] != 0
    ensures 1 <= SlotIn(s.pub.word[line]) <= Lines(s.pub)
    ensures Dropped(s, line) == s.(pub := Retire(s.pub, line, s.pub.pair[SlotIn(s.pub.word[line])]))
  {
    assert WordOk(s.pub, line);
  }

  lemma CloseSized(p: Pub, sample: seq<nat>)
    requires PubOk(p)
    ensures Sized(Close(p, sample))
  {
  }

  lemma {:induction false} RunAgrees(ss: seq<Sys>, acts: seq<Act>, lines: nat, cores: nat, k: nat)
    requires IsRun(ss, acts) && lines < 0x8000 && cores > 0 && ss[0] == Boot(lines, cores) && k < |ss|
    ensures Agrees(ss[k].pub, Bound(acts[..k]))
  {
    hide Inv, PubOk, Step, Boot, Agrees, Rebound;
    if k == 0 {
      BootAgrees(lines, cores);
    } else {
      RunAgrees(ss, acts, lines, cores, k - 1);
      RunInv(ss, acts, lines, cores, k - 1);
      InvPub(ss[k - 1]);
      assert acts[..k][..k - 1] == acts[..k - 1];
      StepAgrees(ss[k - 1], acts[k - 1], Bound(acts[..k - 1]));
      assert ss[k - 1 + 1] == Step(ss[k - 1], acts[k - 1]);
    }
  }

  lemma BootAgrees(lines: nat, cores: nat)
    requires lines < 0x8000
    ensures Agrees(Boot(lines, cores).pub, map[])
  {
    var p := Boot(lines, cores).pub;
    forall l: nat | l < Lines(p)
      ensures LineAgrees(p, map[], l)
    {
    }
  }

  /** In every run a dispatch reads the handler last bound to its line, and none once the line was
      released since: whatever was drained, reclaimed and rebound meanwhile. */
  lemma Delivered(ss: seq<Sys>, acts: seq<Act>, lines: nat, cores: nat, k: nat, c: nat)
    requires IsRun(ss, acts) && lines < 0x8000 && cores > 0 && ss[0] == Boot(lines, cores)
    requires k < |acts| && acts[k] == Load(c)
    ensures Inv(ss[k]) && Inv(ss[k + 1]) && Can(ss[k], Load(c)) && |ss[k + 1].cores| == |ss[k].cores|
    ensures ss[k + 1].cores[c].frames != []
    ensures var line, f, m := Top(ss[k].cores[c]).line, Top(ss[k + 1].cores[c]), Bound(acts[..k]);
            && f.Holding? && f.line == line && (f.slot != 0 <==> line in m)
            && (line in m ==> f.pair == m[line])
  {
    hide Inv, PubOk, Boot, Agrees, Bound;
    RunInv(ss, acts, lines, cores, k);
    RunInv(ss, acts, lines, cores, k + 1);
    InvPub(ss[k]);
    assert Can(ss[k], acts[k]) && ss[k + 1] == Step(ss[k], acts[k]);
    RunAgrees(ss, acts, lines, cores, k);
    ReadAgrees(ss[k].pub, Bound(acts[..k]), Top(ss[k].cores[c]).line);
  }

  lemma ReadAgrees(p: Pub, m: map<nat, nat>, line: nat)
    requires PubOk(p) && Agrees(p, m) && line < Lines(p)
    ensures var f := Read(p, line);
            f.Holding? && f.line == line && (f.slot != 0 <==> line in m) && (line in m ==> f.pair == m[line])
  {
    assert LineAgrees(p, m, line) && WordOk(p, line);
  }

  // ---- Binding slots ----

  /** The binding slots some record holds for a claim. */
  ghost function Owned(s: Sys): set<nat>
    requires Sized(s.pub)
  {
    set x: nat | x in s.claimed && x <= Lines(s.pub) :: s.pub.pair[x]
  }

  /** A claimed record that retires owes the binding slot its handler is handed. */
  ghost predicate Owes(s: Sys, x: nat)
    requires Sized(s.pub) && 1 <= x <= Lines(s.pub)
  {
    x in s.claimed && s.pub.state[x] != Live ==> s.pub.binding[x] == s.pub.pair[x]
  }

  ghost predicate NoneLeaks(s: Sys) {
    && Sized(s.pub) && 0 !in s.claimed && s.bindings == Owned(s)
    && forall x: nat {:trigger Owes(s, x)} :: 1 <= x <= Lines(s.pub) ==> Owes(s, x)
  }

  /** A line under a claim is released through the claim. */
  ghost predicate Proper(s: Sys, a: Act) {
    a.Detach? && Sized(s.pub) && a.line < Lines(s.pub) ==> SlotIn(s.pub.word[a.line]) !in s.claimed
  }

  lemma BindLeaks(s: Sys, line: nat, what: nat, claim: bool)
    requires Inv(s) && Can(s, Bind(line, what, claim)) && NoneLeaks(s)
    ensures NoneLeaks(Step(s, Bind(line, what, claim)))
  {
    var t, slot := Step(s, Bind(line, what, claim)), s.pub.free[0];
    assert s.pub.state[slot] == Free && 1 <= slot <= Lines(s.pub);
    assert ClaimOk(s, slot);
    assert slot !in s.claimed;
    forall x: nat | 1 <= x <= Lines(t.pub)
      ensures Owes(t, x)
    {
      assert Owes(s, x);
    }
    forall b
      ensures b in t.bindings <==> b in Owned(t)
    {
      if b in Owned(s) {
        var x: nat :| x in s.claimed && x <= Lines(s.pub) && s.pub.pair[x] == b;
        assert x != slot && t.pub.pair[x] == b;
        assert x in t.claimed;
      }
      if claim && b == what {
        assert slot in t.claimed && t.pub.pair[slot] == b;
      }
      if b in Owned(t) {
        var x: nat :| x in t.claimed && x <= Lines(t.pub) && t.pub.pair[x] == b;
        assert x != slot ==> x in s.claimed && s.pub.pair[x] == b;
      }
    }
    assert t.bindings == Owned(t);
  }

  lemma RetireLeaks(s: Sys, line: nat, binding: int)
    requires Inv(s) && line < Lines(s.pub) && NoneLeaks(s) && s.pub.word[line] != 0
    requires 1 <= SlotIn(s.pub.word[line]) <= Lines(s.pub)
    requires SlotIn(s.pub.word[line]) in s.claimed ==> binding == s.pub.pair[SlotIn(s.pub.word[line])]
    ensures NoneLeaks(s.(pub := Retire(s.pub, line, binding)))
  {
    var t, slot := s.(pub := Retire(s.pub, line, binding)), SlotIn(s.pub.word[line]);
    assert WordOk(s.pub, line);
    assert t.pub.pair == s.pub.pair;
    assert Owned(t) == Owned(s);
    forall x: nat | 1 <= x <= Lines(t.pub)
      ensures Owes(t, x)
    {
      assert Owes(s, x);
    }
  }

  lemma ReclaimLeaks(s: Sys)
    requires Inv(s) && s.pub.draining != [] && NoneLeaks(s)
    ensures NoneLeaks(Reclaimed(s))
  {
    var t, slot := Reclaimed(s), s.pub.draining[0];
    assert SlotOk(s.pub, slot) && s.pub.state[slot] == Draining && ClaimOk(s, slot) && Owes(s, slot);
    forall x: nat | 1 <= x <= Lines(t.pub)
      ensures Owes(t, x)
    {
      assert Owes(s, x);
    }
    forall b
      ensures b in t.bindings <==> b in Owned(t)
    {
      if b in Owned(t) {
        var x: nat :| x in t.claimed && x <= Lines(t.pub) && t.pub.pair[x] == b;
        assert x in s.claimed && s.pub.pair[x] == b && x != slot;
        assert b in Owned(s);
      }
      if b in t.bindings {
        var x: nat :| x in s.claimed && x <= Lines(s.pub) && s.pub.pair[x] == b;
        assert x != slot;
        assert x in t.claimed && t.pub.pair[x] == b;
      }
    }
    assert t.bindings == Owned(t);
  }

  lemma CloseLeaks(s: Sys)
    requires Inv(s) && NoneLeaks(s) && !s.pub.open
    ensures NoneLeaks(s.(pub := Close(s.pub, s.pub.sample), phase := Sampling(0)))
  {
    var t := s.(pub := Close(s.pub, s.pub.sample), phase := Sampling(0));
    assert Owned(t) == Owned(s);
    forall x: nat | 1 <= x <= Lines(t.pub)
      ensures Owes(t, x)
    {
      assert Owes(s, x);
    }
  }

  lemma SameLeaks(s: Sys, t: Sys)
    requires NoneLeaks(s) && t.pub == s.pub.(sample := t.pub.sample) && t.bindings == s.bindings && t.claimed == s.claimed
    ensures NoneLeaks(t)
  {
    assert Owned(t) == Owned(s);
    forall x: nat | 1 <= x <= Lines(t.pub)
      ensures Owes(t, x)
    {
      assert Owes(s, x);
    }
  }

  lemma StepLeaks(s: Sys, a: Act)
    requires Inv(s) && Can(s, a) && NoneLeaks(s) && Proper(s, a)
    ensures NoneLeaks(Step(s, a))
  {
    hide PubOk, Inv, NoneLeaks, Reserved, Reserve, Commit, Retire, Close, ReclaimOne, Reclaimed, Dropped;
    InvPub(s);
    PubSized(s.pub);
    match a
    case Bind(line, what, claim) => BindLeaks(s, line, what, claim);
    case Detach(line) =>
      if s.pub.word[line] == 0 {
        RetireNone(s.pub, line);
      } else {
        DropIs(s, line);
        RetireLeaks(s, line, -1);
      }
    case Drop(line) =>
      DropIs(s, line);
      RetireLeaks(s, line, s.pub.pair[SlotIn(s.pub.word[line])]);
    case Drain =>
      if s.pub.open {
        SameLeaks(s, Step(s, a));
      } else {
        CloseLeaks(s);
      }
    case Reclaim =>
      if s.pub.draining != [] {
        ReclaimLeaks(s);
      } else {
        SameLeaks(s, Step(s, a));
      }
    case _ => SameLeaks(s, Step(s, a));
  }

  lemma RetireNone(p: Pub, line: nat)
    requires PubOk(p) && line < Lines(p) && p.word[line] == 0
    ensures Retire(p, line, -1) == p
  {
    assert WordOk(p, line);
    assert p.word[line := 0] == p.word;
  }

  lemma {:induction false} RunLeaks(ss: seq<Sys>, acts: seq<Act>, lines: nat, cores: nat, k: nat)
    requires IsRun(ss, acts) && lines < 0x8000 && cores > 0 && ss[0] == Boot(lines, cores) && k < |ss|
    requires forall i {:trigger acts[i]} :: 0 <= i < |acts| ==> Proper(ss[i], acts[i])
    ensures NoneLeaks(ss[k])
  {
    hide Inv, PubOk, Step, Boot, NoneLeaks, Proper;
    if k == 0 {
      BootLeaks(lines, cores);
    } else {
      RunLeaks(ss, acts, lines, cores, k - 1);
      RunInv(ss, acts, lines, cores, k - 1);
      InvPub(ss[k - 1]);
      StepLeaks(ss[k - 1], acts[k - 1]);
      assert ss[k - 1 + 1] == Step(ss[k - 1], acts[k - 1]);
    }
  }

  lemma BootLeaks(lines: nat, cores: nat)
    requires lines < 0x8000
    ensures NoneLeaks(Boot(lines, cores))
  {
    var s := Boot(lines, cores);
    assert Owned(s) == {};
    forall x: nat | 1 <= x <= Lines(s.pub)
      ensures Owes(s, x)
    {
    }
  }

  /** In every run in which a claimed line is released through its claim, the binding slots in use are
      exactly those of the records in use: none is given back early, twice, or never. */
  lemma BindingsConserved(ss: seq<Sys>, acts: seq<Act>, lines: nat, cores: nat, k: nat, b: nat)
    requires IsRun(ss, acts) && lines < 0x8000 && cores > 0 && ss[0] == Boot(lines, cores) && k < |ss|
    requires forall i {:trigger acts[i]} :: 0 <= i < |acts| ==> Proper(ss[i], acts[i])
    ensures Inv(ss[k])
    ensures b in ss[k].bindings <==>
              exists x: nat ::
                && x in ss[k].claimed && 1 <= x <= Lines(ss[k].pub)
                && ss[k].pub.state[x] != Free && ss[k].pub.pair[x] == b
  {
    RunInv(ss, acts, lines, cores, k);
    RunLeaks(ss, acts, lines, cores, k);
    OwnedBy(ss[k], b);
  }

  lemma OwnedBy(s: Sys, b: nat)
    requires Inv(s) && NoneLeaks(s)
    ensures b in s.bindings <==>
              exists x: nat :: x in s.claimed && 1 <= x <= Lines(s.pub) && s.pub.state[x] != Free && s.pub.pair[x] == b
  {
    if b in s.bindings {
      var x: nat :| x in s.claimed && x <= Lines(s.pub) && s.pub.pair[x] == b;
      assert ClaimOk(s, x);
    }
  }

  // ---- Drains ----

  /** The steps a drain has left at most. */
  ghost function Left(s: Sys): nat {
    match s.phase
    case Idle => 0
    case Sampling(k) => (if k < |s.cores| then |s.cores| - k else 0) + |s.cores| + |s.pub.draining| + 3
    case Testing(k) => (if k < |s.cores| then |s.cores| - k else 0) + |s.pub.draining| + 2
    case Reclaiming => |s.pub.draining| + 1
  }

  /** Each step of a drain brings its end nearer, and no dispatch puts it off. */
  lemma DrainEnds(s: Sys, a: Act)
    requires Inv(s) && Can(s, a)
    ensures a == Sample || a == Test || a == Reclaim ==> Left(Step(s, a)) < Left(s)
    ensures a.Enter? || a.Load? || a.Return? ==> Left(Step(s, a)) == Left(s)
  {
  }

  /** A core in no dispatch never holds a drain up. */
  lemma QuietPasses(s: Sys)
    requires Inv(s) && Can(s, Test) && s.cores[s.phase.k].frames == []
    ensures Step(s, Test).phase == Testing(s.phase.k + 1)
  {
    assert CoreOk(s, s.phase.k);
  }
}
