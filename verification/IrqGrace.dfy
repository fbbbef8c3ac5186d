/** Retirement against dispatch, one shared access at a time: every core may be any depth inside the
    dispatch entry while the lock holder claims, releases, samples, tests and reclaims. */
module IrqGrace {
  import opened IrqPub

  const WRAP: nat := 0x1_0000_0000

  /** A dispatch inside the entry: before it reads its line's word, and then holding what it read,
      slot 0 standing for the default handler. */
  datatype Frame = Entered(line: nat) | Holding(line: nat, slot: nat, pair: nat)

  /** A core's epoch and the dispatches nested on it, the running one last. */
  datatype Core = Core(epoch: nat, frames: seq<Frame>)

  /** How far the lock holder is through a drain: cores sampled, cores tested, records being reclaimed. */
  datatype Phase = Idle | Sampling(k: nat) | Testing(k: nat) | Reclaiming

  /** `bindings` are the binding slots in use; `claimed` the records whose pair is one of them. */
  datatype Sys = Sys(pub: Pub, cores: seq<Core>, phase: Phase, bindings: set<nat>, claimed: set<nat>)

  datatype Act =
    | Enter(core: nat, line: nat)
    | Load(core: nat)
    | Return(core: nat)
    | Bind(line: nat, pair: nat, claim: bool)
    | Detach(line: nat)
    | Drop(line: nat)
    | Drain
    | Sample
    | Test
    | Reclaim

  // ---- Steps ----

  ghost predicate Can(s: Sys, a: Act)
    requires PubOk(s.pub)
  {
    match a
    case Enter(c, line) => c < |s.cores| && line < Lines(s.pub)
    case Load(c) => c < |s.cores| && s.cores[c].frames != [] && Top(s.cores[c]).Entered? && Top(s.cores[c]).line < Lines(s.pub)
    case Return(c) => c < |s.cores| && s.cores[c].frames != [] && Top(s.cores[c]).Holding?
    case Bind(line, pair, claim) =>
      s.phase == Idle && line < Lines(s.pub) && s.pub.word[line] == 0 && s.pub.free != [] && (claim ==> pair !in s.bindings)
    case Detach(line) => s.phase == Idle && line < Lines(s.pub)
    case Drop(line) =>
      s.phase == Idle && line < Lines(s.pub) && s.pub.word[line] != 0 && SlotIn(s.pub.word[line]) in s.claimed
    case Drain => s.phase == Idle && (s.pub.open || s.pub.pending != [])
    case Sample => s.phase.Sampling? && s.phase.k < |s.cores| == |s.pub.sample|
    case Test => s.phase.Testing? && s.phase.k < |s.cores| == |s.pub.sample|
    case Reclaim => s.phase == Reclaiming || (s.phase.Testing? && s.phase.k == |s.cores|)
  }

  function Top(c: Core): Frame
    requires c.frames != []
  {
    c.frames[|c.frames| - 1]
  }

  /** The epoch turns over as the outermost dispatch enters and leaves. */
  function Entering(c: Core, line: nat): Core {
    Core(if c.frames == [] then (c.epoch + 1) % WRAP else c.epoch, c.frames + [Entered(line)])
  }

  function Leaving(c: Core): Core
    requires c.frames != []
  {
    var rest := c.frames[..|c.frames| - 1];
    Core(if rest == [] then (c.epoch + 1) % WRAP else c.epoch, rest)
  }

  /** A word that names no record, or a retiring one, dispatches to the default. */
  function Read(p: Pub, line: nat): Frame
    requires Sized(p) && line < Lines(p)
  {
    var w := p.word[line];
    if w == 0 || w > Lines(p) then Holding(line, 0, 0) else Holding(line, w, p.pair[w])
  }

  ghost function Step(s: Sys, a: Act): Sys
    requires PubOk(s.pub) && Can(s, a)
  {
    match a
    case Enter(c, line) => s.(cores := s.cores[c := Entering(s.cores[c], line)])
    case Load(c) =>
      var f := s.cores[c].frames;
      s.(cores := s.cores[c := s.cores[c].(frames := f[|f| - 1 := Read(s.pub, Top(s.cores[c]).line)])])
    case Return(c) => s.(cores := s.cores[c := Leaving(s.cores[c])])
    case Bind(line, pair, claim) =>
      var slot := s.pub.free[0];
      s.(pub := Commit(Reserve(s.pub).0, slot, line, pair),
         bindings := if claim then s.bindings + {pair} else s.bindings,
         claimed := if claim then s.claimed + {slot} else s.claimed - {slot})
    case Detach(line) => s.(pub := Retire(s.pub, line, -1))
    case Drop(line) => Dropped(s, line)
    case Drain =>
      if s.pub.open then s.(phase := Testing(0)) else s.(pub := Close(s.pub, s.pub.sample), phase := Sampling(0))
    case Sample =>
      var k := s.phase.k;
      s.(pub := s.pub.(sample := s.pub.sample[k := s.cores[k].epoch]),
         phase := if k + 1 == |s.cores| then Testing(0) else Sampling(k + 1))
    case Test =>
      var k := s.phase.k;
      if s.pub.sample[k] % 2 == 0 || s.cores[k].epoch != s.pub.sample[k] then s.(phase := Testing(k + 1)) else s.(phase := Idle)
    case Reclaim => if s.pub.draining == [] then s.(phase := Idle) else Reclaimed(s)
  }

  /** The last reference to a line's binding dropped: its slot waits for the record. */
  ghost function Dropped(s: Sys, line: nat): Sys
    requires PubOk(s.pub) && line < Lines(s.pub) && s.pub.word[line] != 0
  {
    assert WordOk(s.pub, line);
    s.(pub := Retire(s.pub, line, s.pub.pair[SlotIn(s.pub.word[line])]))
  }

  ghost function Reclaimed(s: Sys): Sys
    requires PubOk(s.pub) && s.pub.draining != []
  {
    var slot := s.pub.draining[0];
    var b := s.pub.binding[slot];
    s.(pub := ReclaimOne(s.pub), phase := Reclaiming,
       bindings := if b >= 0 then s.bindings - {b} else s.bindings, claimed := s.claimed - {slot})
  }

  // ---- What every step keeps ----

  /** Whether the lock holder has this batch's sample of core `c`. */
  predicate Sampled(ph: Phase, c: nat) { !(ph.Sampling? && ph.k <= c) }

  /** Whether core `c` has been found clear of this batch. */
  predicate Passed(ph: Phase, c: nat) { ph == Reclaiming || (ph.Testing? && c < ph.k) }

  /** A record held by a dispatch is in use for the line it was read from, as it was read; while it
      drains, its core has not left the entry since the sample, and has not been found clear. */
  ghost predicate HeldOk(s: Sys, c: nat, f: Frame)
    requires Sized(s.pub) && c < |s.cores| == |s.pub.sample|
  {
    f.Entered? || f.slot == 0 ||
    (&& 1 <= f.slot <= Lines(s.pub) && s.pub.state[f.slot] != Free
     && s.pub.lineOf[f.slot] == f.line && s.pub.pair[f.slot] == f.pair
     && (s.pub.state[f.slot] == Draining ==>
           !Passed(s.phase, c) && (Sampled(s.phase, c) ==> s.pub.sample[c] == s.cores[c].epoch)))
  }

  ghost predicate CoreOk(s: Sys, c: nat)
    requires Sized(s.pub) && c < |s.cores| == |s.pub.sample|
  {
    && s.cores[c].epoch < WRAP && (s.cores[c].epoch % 2 == 1 <==> s.cores[c].frames != [])
    && forall i :: 0 <= i < |s.cores[c].frames| ==> HeldOk(s, c, s.cores[c].frames[i])
  }

  /** A claimed record in use has its binding slot in use, and shares it with no other. */
  ghost predicate ClaimOk(s: Sys, x: nat)
    requires Sized(s.pub) && 1 <= x <= Lines(s.pub)
  {
    && (x in s.claimed ==> s.pub.state[x] != Free && s.pub.pair[x] in s.bindings)
    && (s.pub.binding[x] != -1 ==> x in s.claimed && s.pub.binding[x] == s.pub.pair[x])
  }

  ghost predicate Apart(s: Sys)
    requires Sized(s.pub)
  {
    forall x, y :: 1 <= x <= Lines(s.pub) && 1 <= y <= Lines(s.pub) && x in s.claimed && y in s.claimed && x != y ==>
                     s.pub.pair[x] != s.pub.pair[y]
  }

  ghost predicate Inv(s: Sys) {
    && PubOk(s.pub) && Reserved(s.pub) == {} && |s.pub.sample| == |s.cores| > 0
    && (s.phase.Sampling? ==> s.phase.k < |s.cores|) && (s.phase.Sampling? || s.phase.Testing? ==> s.pub.open)
    && (forall c {:trigger CoreOk(s, c)} :: 0 <= c < |s.cores| ==> CoreOk(s, c))
    && (forall x {:trigger ClaimOk(s, x)} :: 1 <= x <= Lines(s.pub) ==> ClaimOk(s, x))
    && Apart(s)
  }

  lemma EnterInv(s: Sys, c: nat, line: nat)
    requires Inv(s) && Can(s, Enter(c, line))
    ensures Inv(Step(s, Enter(c, line)))
  {
    var t := Step(s, Enter(c, line));
    forall d | 0 <= d < |t.cores|
      ensures CoreOk(t, d)
    {
      assert CoreOk(s, d);
      forall i | 0 <= i < |t.cores[d].frames|
        ensures HeldOk(t, d, t.cores[d].frames[i])
      {
        if i < |s.cores[d].frames| {
          assert HeldOk(s, d, s.cores[d].frames[i]);
        }
      }
    }
    forall x | 1 <= x <= Lines(t.pub)
      ensures ClaimOk(t, x)
    {
      assert ClaimOk(s, x);
    }
  }

  lemma LoadInv(s: Sys, c: nat)
    requires Inv(s) && Can(s, Load(c))
    ensures Inv(Step(s, Load(c)))
  {
    var t := Step(s, Load(c));
    var line := Top(s.cores[c]).line;
    assert WordOk(s.pub, line);
    forall d | 0 <= d < |t.cores|
      ensures CoreOk(t, d)
    {
      assert CoreOk(s, d);
      forall i | 0 <= i < |t.cores[d].frames|
        ensures HeldOk(t, d, t.cores[d].frames[i])
      {
        assert HeldOk(s, d, s.cores[d].frames[i]);
      }
    }
    forall x | 1 <= x <= Lines(t.pub)
      ensures ClaimOk(t, x)
    {
      assert ClaimOk(s, x);
    }
  }

  lemma ReturnInv(s: Sys, c: nat)
    requires Inv(s) && Can(s, Return(c))
    ensures Inv(Step(s, Return(c)))
  {
    var t := Step(s, Return(c));
    forall d | 0 <= d < |t.cores|
      ensures CoreOk(t, d)
    {
      assert CoreOk(s, d);
      forall i | 0 <= i < |t.cores[d].frames|
        ensures HeldOk(t, d, t.cores[d].frames[i])
      {
        assert HeldOk(s, d, s.cores[d].frames[i]);
      }
    }
    forall x | 1 <= x <= Lines(t.pub)
      ensures ClaimOk(t, x)
    {
      assert ClaimOk(s, x);
    }
  }

  /** Record `x` is still in use as it was, and if it drains core `c` still counts as inside. */
  ghost predicate MovesOn(s: Sys, t: Sys, c: nat, x: nat)
    requires Sized(s.pub) && Sized(t.pub) && Lines(t.pub) == Lines(s.pub) && 1 <= x <= Lines(s.pub)
    requires c < |t.cores| == |t.pub.sample|
  {
    && t.pub.state[x] != Free && t.pub.lineOf[x] == s.pub.lineOf[x] && t.pub.pair[x] == s.pub.pair[x]
    && (t.pub.state[x] == Draining ==> !Passed(t.phase, c) && (Sampled(t.phase, c) ==> t.pub.sample[c] == t.cores[c].epoch))
  }

  /** The frames stay good where every record one may hold is left as it was, or only moved on. */
  lemma FramesKept(s: Sys, t: Sys)
    requires Inv(s) && PubOk(t.pub) && t.cores == s.cores && |t.pub.sample| == |s.pub.sample| && Lines(t.pub) == Lines(s.pub)
    requires forall c, x {:trigger Holds(s, c, x)} :: 0 <= c < |s.cores| && 1 <= x <= Lines(s.pub) && Holds(s, c, x) ==>
               MovesOn(s, t, c, x)
    ensures forall c {:trigger CoreOk(t, c)} :: 0 <= c < |t.cores| ==> CoreOk(t, c)
  {
    hide PubOk;
    assert Sized(s.pub) && Sized(t.pub) by {
      PubSized(s.pub);
      PubSized(t.pub);
    }
    forall c | 0 <= c < |t.cores|
      ensures CoreOk(t, c)
    {
      assert CoreOk(s, c);
      forall i | 0 <= i < |t.cores[c].frames|
        ensures HeldOk(t, c, t.cores[c].frames[i])
      {
        var f := s.cores[c].frames[i];
        assert HeldOk(s, c, f);
        assert f.Holding? ==> Holds(s, c, f.slot);
      }
    }
  }

  /** Some dispatch on core `c` holds record `x`. */
  ghost predicate Holds(s: Sys, c: nat, x: nat)
    requires c < |s.cores|
  {
    exists i :: 0 <= i < |s.cores[c].frames| && s.cores[c].frames[i].Holding? && s.cores[c].frames[i].slot == x
  }

  /** What a held record is in, read off the invariant. */
  lemma HeldIs(s: Sys, c: nat, x: nat)
    requires Inv(s) && c < |s.cores| && 1 <= x <= Lines(s.pub) && Holds(s, c, x)
    ensures s.pub.state[x] != Free && s.cores[c].epoch % 2 == 1
    ensures s.pub.state[x] == Draining ==> !Passed(s.phase, c) && (Sampled(s.phase, c) ==> s.pub.sample[c] == s.cores[c].epoch)
  {
    assert CoreOk(s, c);
    var i :| 0 <= i < |s.cores[c].frames| && s.cores[c].frames[i].Holding? && s.cores[c].frames[i].slot == x;
    assert HeldOk(s, c, s.cores[c].frames[i]);
  }

  lemma BindInv(s: Sys, line: nat, pair: nat, claim: bool)
    requires Inv(s) && Can(s, Bind(line, pair, claim))
    ensures Inv(Step(s, Bind(line, pair, claim)))
  {
    hide ChainOf;
    var t := Step(s, Bind(line, pair, claim));
    var slot, q := s.pub.free[0], Reserve(s.pub).0;
    ReserveOk(s.pub);
    CommitOk(q, slot, line, pair);
    assert SlotOk(s.pub, slot) && ClaimOk(s, slot);
    forall c, x {:trigger Holds(s, c, x)} | 0 <= c < |s.cores| && 1 <= x <= Lines(s.pub) && Holds(s, c, x)
      ensures MovesOn(s, t, c, x)
    {
      HeldIs(s, c, x);
    }
    FramesKept(s, t);
    BindClaims(s, t, slot, pair, claim);
  }

  lemma BindClaims(s: Sys, t: Sys, slot: nat, pair: nat, claim: bool)
    requires Inv(s) && Sized(t.pub) && Lines(t.pub) == Lines(s.pub) && 1 <= slot <= Lines(s.pub) && slot !in s.claimed
    requires t.pub.pair == s.pub.pair[slot := pair] && t.pub.state == s.pub.state[slot := Live]
    requires t.pub.binding == s.pub.binding[slot := -1] && (claim ==> pair !in s.bindings)
    requires t.bindings == (if claim then s.bindings + {pair} else s.bindings)
    requires t.claimed == (if claim then s.claimed + {slot} else s.claimed - {slot})
    ensures forall x {:trigger ClaimOk(t, x)} :: 1 <= x <= Lines(t.pub) ==> ClaimOk(t, x)
    ensures Apart(t)
  {
    hide PubOk;
    assert Sized(s.pub) by {
      PubSized(s.pub);
    }
    forall x | 1 <= x <= Lines(t.pub)
      ensures ClaimOk(t, x)
    {
      assert ClaimOk(s, x);
    }
    forall x, y | 1 <= x <= Lines(t.pub) && 1 <= y <= Lines(t.pub) && x in t.claimed && y in t.claimed && x != y
      ensures t.pub.pair[x] != t.pub.pair[y]
    {
      assert ClaimOk(s, x) && ClaimOk(s, y);
    }
  }

  /** What a line's release may owe: nothing, or the binding slot its claimed record hands out. */
  ghost predicate Owes(s: Sys, line: nat, binding: int)
    requires PubOk(s.pub) && line < Lines(s.pub)
  {
    binding == -1 || (s.pub.word[line] != 0 && SlotIn(s.pub.word[line]) in s.claimed &&
                      (WordOk(s.pub, line) ==> binding == s.pub.pair[SlotIn(s.pub.word[line])]))
  }

  lemma RetireFrames(s: Sys, line: nat, binding: int)
    requires Inv(s) && s.phase == Idle && line < Lines(s.pub) && PubOk(Retire(s.pub, line, binding))
    ensures var t := s.(pub := Retire(s.pub, line, binding)); forall c {:trigger CoreOk(t, c)} ::
            0 <= c < |t.cores| ==> CoreOk(t, c)
  {
    hide CoreOk, ClaimOk, Apart, Reserved;
    var t := s.(pub := Retire(s.pub, line, binding));
    forall c, x {:trigger Holds(s, c, x)} | 0 <= c < |s.cores| && 1 <= x <= Lines(s.pub) && Holds(s, c, x)
      ensures MovesOn(s, t, c, x)
    {
      HeldIs(s, c, x);
    }
    FramesKept(s, t);
  }

  lemma RetireClaims(s: Sys, line: nat, binding: int)
    requires Inv(s) && line < Lines(s.pub) && Owes(s, line, binding) && PubOk(Retire(s.pub, line, binding))
    ensures var t := s.(pub := Retire(s.pub, line, binding));
            Apart(t) && forall x {:trigger ClaimOk(t, x)} :: 1 <= x <= Lines(t.pub) ==> ClaimOk(t, x)
  {
    hide CoreOk, Reserved, ChainOf;
    var t := s.(pub := Retire(s.pub, line, binding));
    assert WordOk(s.pub, line);
    forall x | 1 <= x <= Lines(t.pub)
      ensures ClaimOk(t, x)
    {
      assert ClaimOk(s, x);
    }
  }

  lemma RetireInv(s: Sys, line: nat, binding: int)
    requires Inv(s) && s.phase == Idle && line < Lines(s.pub) && Owes(s, line, binding)
    ensures Inv(s.(pub := Retire(s.pub, line, binding)))
  {
    hide CoreOk, ClaimOk, Apart, Reserved, PubOk, Owes;
    RetireOk(s.pub, line, binding);
    RetireFrames(s, line, binding);
    RetireClaims(s, line, binding);
  }

  lemma DropInv(s: Sys, line: nat)
    requires Inv(s) && Can(s, Drop(line))
    ensures Inv(Step(s, Drop(line)))
  {
    assert WordOk(s.pub, line);
    RetireInv(s, line, s.pub.pair[SlotIn(s.pub.word[line])]);
  }

  lemma DrainInv(s: Sys)
    requires Inv(s) && Can(s, Drain)
    ensures Inv(Step(s, Drain))
  {
    var t := Step(s, Drain);
    if !s.pub.open {
      CloseOk(s.pub, s.pub.sample);
    }
    forall c, x {:trigger Holds(s, c, x)} | 0 <= c < |s.cores| && 1 <= x <= Lines(s.pub) && Holds(s, c, x)
      ensures MovesOn(s, t, c, x)
    {
      HeldIs(s, c, x);
    }
    FramesKept(s, t);
    forall x | 1 <= x <= Lines(t.pub)
      ensures ClaimOk(t, x)
    {
      assert ClaimOk(s, x);
    }
  }

  lemma SampleInv(s: Sys)
    requires Inv(s) && Can(s, Sample)
    ensures Inv(Step(s, Sample))
  {
    var t := Step(s, Sample);
    SampledOk(s.pub, t.pub.sample);
    forall c, x {:trigger Holds(s, c, x)} | 0 <= c < |s.cores| && 1 <= x <= Lines(s.pub) && Holds(s, c, x)
      ensures MovesOn(s, t, c, x)
    {
      HeldIs(s, c, x);
    }
    FramesKept(s, t);
    forall x | 1 <= x <= Lines(t.pub)
      ensures ClaimOk(t, x)
    {
      assert ClaimOk(s, x);
    }
  }

  /** A core found even, or moved on since its sample, holds no record of the batch; and while the
      batch drains it can take up none. */
  lemma TestInv(s: Sys)
    requires Inv(s) && Can(s, Test)
    ensures Inv(Step(s, Test))
  {
    var t := Step(s, Test);
    forall c, x {:trigger Holds(s, c, x)} | 0 <= c < |s.cores| && 1 <= x <= Lines(s.pub) && Holds(s, c, x)
      ensures MovesOn(s, t, c, x)
    {
      HeldIs(s, c, x);
    }
    FramesKept(s, t);
    forall x | 1 <= x <= Lines(t.pub)
      ensures ClaimOk(t, x)
    {
      assert ClaimOk(s, x);
    }
  }

  lemma ReclaimFrames(s: Sys)
    requires Inv(s) && Can(s, Reclaim) && s.pub.draining != [] && PubOk(ReclaimOne(s.pub))
    ensures var t := Reclaimed(s); forall c {:trigger CoreOk(t, c)} :: 0 <= c < |t.cores| ==> CoreOk(t, c)
  {
    hide CoreOk, ClaimOk, Apart, Reserved;
    var t := Reclaimed(s);
    forall c, x {:trigger Holds(s, c, x)} | 0 <= c < |s.cores| && 1 <= x <= Lines(s.pub) && Holds(s, c, x)
      ensures MovesOn(s, t, c, x)
    {
      HeldIs(s, c, x);
      assert Passed(s.phase, c);
    }
    FramesKept(s, t);
  }

  lemma ReclaimClaims(s: Sys)
    requires Inv(s) && s.pub.draining != [] && PubOk(ReclaimOne(s.pub))
    ensures var t := Reclaimed(s); Apart(t) && forall x {:trigger ClaimOk(t, x)} :: 1 <= x <= Lines(t.pub) ==> ClaimOk(t, x)
  {
    hide CoreOk, Reserved;
    var t := Reclaimed(s);
    assert ClaimOk(s, s.pub.draining[0]);
    forall x | 1 <= x <= Lines(t.pub)
      ensures ClaimOk(t, x)
    {
      assert ClaimOk(s, x);
    }
  }

  lemma ReclaimInv(s: Sys)
    requires Inv(s) && Can(s, Reclaim)
    ensures Inv(Step(s, Reclaim))
  {
    hide CoreOk, ClaimOk, Apart, Reserved, ReclaimOne, PubOk, Reclaimed;
    if s.pub.draining != [] {
      ReclaimOk(s.pub);
      ReclaimFrames(s);
      ReclaimClaims(s);
      ReclaimElse(s);
    } else {
      DrainOver(s);
    }
  }

  lemma ReclaimElse(s: Sys)
    requires PubOk(s.pub) && s.pub.draining != []
    ensures var t := Reclaimed(s);
            t.pub == ReclaimOne(s.pub) && t.phase == Reclaiming && t.cores == s.cores && |t.pub.sample| == |s.pub.sample|
  {
  }

  /** The lock holder's drain over. */
  lemma DrainOver(s: Sys)
    requires Inv(s) && Can(s, Reclaim)
    ensures Inv(s.(phase := Idle))
  {
    hide PubOk;
    var t := s.(phase := Idle);
    PubSized(s.pub);
    forall c | 0 <= c < |t.cores|
      ensures CoreOk(t, c)
    {
      assert CoreOk(s, c);
      forall i | 0 <= i < |t.cores[c].frames|
        ensures HeldOk(t, c, t.cores[c].frames[i])
      {
        assert HeldOk(s, c, s.cores[c].frames[i]);
      }
    }
    forall x | 1 <= x <= Lines(t.pub)
      ensures ClaimOk(t, x)
    {
      assert ClaimOk(s, x);
    }
  }

  // ---- Runs ----

  lemma StepInv(s: Sys, a: Act)
    requires Inv(s) && Can(s, a)
    ensures Inv(Step(s, a))
  {
    hide PubOk, Apart, HeldOk;
    match a
    case Enter(c, line) => EnterInv(s, c, line);
    case Load(c) => LoadInv(s, c);
    case Return(c) => ReturnInv(s, c);
    case Bind(line, pair, claim) => BindInv(s, line, pair, claim);
    case Detach(line) => RetireInv(s, line, -1);
    case Drop(line) => DropInv(s, line);
    case Drain => DrainInv(s);
    case Sample => SampleInv(s);
    case Test => TestInv(s);
    case Reclaim => ReclaimInv(s);
  }

  ghost function Boot(lines: nat, cores: nat): Sys {
    Sys(Reset(lines, cores), seq(cores, _ => Core(0, [])), Idle, {}, {})
  }

  lemma BootInv(lines: nat, cores: nat)
    requires lines < 0x8000 && cores > 0
    ensures Inv(Boot(lines, cores))
  {
    ResetOk(lines, cores);
    var s := Boot(lines, cores);
    hide PubOk;
    assert forall c {:trigger CoreOk(s, c)} :: 0 <= c < |s.cores| ==> CoreOk(s, c);
    assert forall x {:trigger ClaimOk(s, x)} :: 1 <= x <= Lines(s.pub) ==> ClaimOk(s, x);
  }

  ghost predicate IsRun(ss: seq<Sys>, acts: seq<Act>) {
    && |ss| == |acts| + 1
    && forall i {:trigger acts[i]} :: 0 <= i < |acts| && PubOk(ss[i].pub) ==>
         Can(ss[i], acts[i]) && ss[i + 1] == Step(ss[i], acts[i])
  }

  /** What a dispatch relies on while it runs a handler it read: the record is not reclaimed and holds
      the pair it read, its line still names it and so cannot be bound, and the binding slot handed to
      the handler is still in use. */
  ghost predicate Guarded(s: Sys, f: Frame) {
    f.Holding? && f.slot != 0 ==>
      && PubOk(s.pub) && 1 <= f.slot <= Lines(s.pub) && f.line < Lines(s.pub)
      && s.pub.state[f.slot] != Free && s.pub.pair[f.slot] == f.pair
      && s.pub.word[f.line] != 0 && SlotIn(s.pub.word[f.line]) == f.slot
      && (forall pair, claim :: !Can(s, Bind(f.line, pair, claim)))
      && (f.slot in s.claimed ==> f.pair in s.bindings)
  }

  lemma InvGuards(s: Sys, c: nat, i: nat)
    requires Inv(s) && c < |s.cores| && i < |s.cores[c].frames|
    ensures Guarded(s, s.cores[c].frames[i])
  {
    var f := s.cores[c].frames[i];
    assert CoreOk(s, c);
    assert HeldOk(s, c, f);
    if f.Holding? && f.slot != 0 {
      assert SlotOk(s.pub, f.slot) && ClaimOk(s, f.slot);
      assert f.slot !in Reserved(s.pub);
    }
  }

  /** Grace period safety, over every run from boot and every interleaving of nested dispatches with
      claims, releases and drains. */
  lemma GracePeriod(ss: seq<Sys>, acts: seq<Act>, lines: nat, cores: nat)
    requires IsRun(ss, acts) && lines < 0x8000 && cores > 0 && ss[0] == Boot(lines, cores)
    ensures forall k, c, i :: 0 <= k < |ss| && 0 <= c < |ss[k].cores| && 0 <= i < |ss[k].cores[c].frames| ==>
                                Guarded(ss[k], ss[k].cores[c].frames[i])
  {
    hide Guarded;
    forall k, c, i | 0 <= k < |ss| && 0 <= c < |ss[k].cores| && 0 <= i < |ss[k].cores[c].frames|
      ensures Guarded(ss[k], ss[k].cores[c].frames[i])
    {
      RunInv(ss, acts, lines, cores, k);
      InvGuards(ss[k], c, i);
    }
  }

  lemma {:induction false} RunInv(ss: seq<Sys>, acts: seq<Act>, lines: nat, cores: nat, k: nat)
    requires IsRun(ss, acts) && lines < 0x8000 && cores > 0 && ss[0] == Boot(lines, cores) && k < |ss|
    ensures Inv(ss[k])
  {
    hide Inv, PubOk, Step, Boot;
    if k == 0 {
      BootInv(lines, cores);
    } else {
      RunInv(ss, acts, lines, cores, k - 1);
      var a := acts[k - 1];
      InvPub(ss[k - 1]);
      StepInv(ss[k - 1], a);
      assert ss[k - 1 + 1] == Step(ss[k - 1], a);
    }
  }

  lemma InvPub(s: Sys)
    requires Inv(s)
    ensures PubOk(s.pub)
  {
  }

  /** A drain in a run never reclaims a record some dispatch holds. */
  lemma ReclaimsNoneHeld(s: Sys, c: nat)
    requires Inv(s) && Can(s, Reclaim) && s.pub.draining != [] && c < |s.cores|
    ensures !Holds(s, c, s.pub.draining[0])
  {
    if Holds(s, c, s.pub.draining[0]) {
      ReclaimOk(s.pub);
      HeldIs(s, c, s.pub.draining[0]);
      assert false;
    }
  }
}
