/** Publication records of the interrupt dispatch table (kernel/irq/irq.cc): one record per line,
    each free, live, or retiring behind a grace period, and the word of each line naming one. */
module IrqPub {
  import opened Sets

  /** What a line's word carries beside its record while that record retires. */
  const RETIRING: nat := 0x8000_0000

  datatype State = Free | Live | Pending | Draining

  /** Slot 0 is no record. `word` is indexed by line, the rest by record; `sample` by core. A record
      names its line in `lineOf`, -1 for none, the binding slot its grace period gates in `binding`,
      -1 for none, and what a dispatch is handed in `pair`. */
  datatype Pub = Pub(
    word: seq<nat>, state: seq<State>, lineOf: seq<int>, binding: seq<int>, pair: seq<nat>,
    free: seq<nat>, pending: seq<nat>, draining: seq<nat>, open: bool, sample: seq<nat>)

  function SlotIn(w: nat): nat { if w >= RETIRING then w - RETIRING else w }

  predicate Retires(w: nat) { w >= RETIRING }

  function Lines(p: Pub): nat { |p.word| }

  // ---- Well-formedness ----

  /** `c` lists every record in state `st`, once. */
  ghost predicate ChainOf(c: seq<nat>, state: seq<State>, st: State) {
    && (forall i :: 0 <= i < |c| ==> 1 <= c[i] < |state| && state[c[i]] == st)
    && (forall i, j :: 0 <= i < j < |c| ==> c[i] != c[j])
    && (forall s :: 1 <= s < |state| && state[s] == st ==> s in c)
  }

  ghost predicate SlotOk(p: Pub, s: nat)
    requires Sized(p) && 1 <= s <= Lines(p)
  {
    match p.state[s]
    case Free => p.lineOf[s] == -1 && p.binding[s] == -1
    case Live => p.binding[s] == -1 && (p.lineOf[s] == -1 || (0 <= p.lineOf[s] < Lines(p) && p.word[p.lineOf[s]] == s))
    case Pending => 0 <= p.lineOf[s] < Lines(p) && p.word[p.lineOf[s]] == s + RETIRING
    case Draining => 0 <= p.lineOf[s] < Lines(p) && p.word[p.lineOf[s]] == s + RETIRING
  }

  ghost predicate WordOk(p: Pub, l: nat)
    requires Sized(p) && l < Lines(p)
  {
    p.word[l] == 0 ||
    (var s := SlotIn(p.word[l]);
     && 1 <= s <= Lines(p) && p.lineOf[s] == l && p.state[s] != Free
     && (Retires(p.word[l]) <==> p.state[s] != Live))
  }

  ghost predicate Sized(p: Pub) {
    && Lines(p) < 0x8000
    && |p.state| == |p.lineOf| == |p.binding| == |p.pair| == Lines(p) + 1
  }

  ghost predicate PubOk(p: Pub) {
    && Sized(p) && p.state[0] == Free && p.binding[0] == -1
    && ChainOf(p.free, p.state, Free) && ChainOf(p.pending, p.state, Pending) && ChainOf(p.draining, p.state, Draining)
    && (p.open <==> p.draining != [])
    && (forall s {:trigger SlotOk(p, s)} :: 1 <= s <= Lines(p) ==> SlotOk(p, s))
    && (forall l {:trigger WordOk(p, l)} :: 0 <= l < Lines(p) ==> WordOk(p, l))
  }

  /** The records held for a claim that has not published them. */
  ghost function Reserved(p: Pub): set<nat>
    requires Sized(p)
  {
    set s: nat | 1 <= s <= Lines(p) && p.state[s] == Live && p.lineOf[s] == -1
  }

  // ---- Operations ----

  function Reserve(p: Pub): (Pub, int)
    requires PubOk(p)
  {
    if p.free == [] then (p, -1)
    else
      var s := p.free[0];
      (p.(free := p.free[1..], state := p.state[s := Live], binding := p.binding[s := -1],
              lineOf := p.lineOf[s := -1]), s as int)
  }

  function Unreserve(p: Pub, s: nat): Pub
    requires Sized(p) && s <= Lines(p)
  {
    p.(state := p.state[s := Free], free := [s] + p.free)
  }

  function Commit(p: Pub, s: nat, line: nat, pair: nat): Pub
    requires Sized(p) && s <= Lines(p) && line < Lines(p)
  {
    p.(pair := p.pair[s := pair], lineOf := p.lineOf[s := line], word := p.word[line := s])
  }

  /** The line's record marked retiring, its binding owed; its reclamation is what frees the line. */
  function Retire(p: Pub, line: nat, binding: int): Pub
    requires PubOk(p) && line < Lines(p)
  {
    assert WordOk(p, line);
    var w := p.word[line];
    var s := SlotIn(w);
    if s == 0 then p.(word := p.word[line := 0])
    else
      var owed := if binding == -1 then p.binding[s] else binding;
      if Retires(w) then p.(binding := p.binding[s := owed]) else Mark(p, line, s, owed)
  }

  function Mark(p: Pub, line: nat, s: nat, owed: int): Pub
    requires Sized(p) && line < Lines(p) && s <= Lines(p)
  {
    p.(binding := p.binding[s := owed], state := p.state[s := Pending], pending := [s] + p.pending,
       word := p.word[line := s + RETIRING])
  }

  /** Every pending record joins the draining batch, whose sample is taken now. */
  function Close(p: Pub, sample: seq<nat>): Pub
    requires Sized(p)
  {
    if p.pending == [] then p
    else p.(draining := p.pending, pending := [], state := Restated(p.state), sample := sample, open := true)
  }

  function Restated(state: seq<State>): (r: seq<State>)
    ensures |r| == |state|
    ensures forall i :: 0 <= i < |r| ==> r[i] == if state[i] == Pending then Draining else state[i]
  {
    seq(|state|, i requires 0 <= i < |state| => if state[i] == Pending then Draining else state[i])
  }

  /** Whether every core that was inside a dispatch at the sample has left it. */
  predicate Elapsed(sample: seq<nat>, now: seq<nat>)
    requires |sample| == |now|
  {
    forall c :: 0 <= c < |sample| ==> sample[c] % 2 == 0 || now[c] != sample[c]
  }

  /** The first draining record freed, with the line it held. */
  function ReclaimOne(p: Pub): Pub
    requires PubOk(p) && p.draining != []
  {
    var s := p.draining[0];
    assert SlotOk(p, s);
    p.(word := p.word[p.lineOf[s] := 0], lineOf := p.lineOf[s := -1], binding := p.binding[s := -1],
       pair := p.pair[s := 0], state := p.state[s := Free], free := [s] + p.free,
       draining := p.draining[1..], open := |p.draining| > 1)
  }

  /** The whole batch freed. */
  ghost function ReclaimAll(p: Pub): (q: Pub)
    requires PubOk(p)
    ensures PubOk(q) && Reserved(q) == Reserved(p) && !q.open && q.draining == [] && q.pending == p.pending
    ensures Lines(q) == Lines(p) && q.sample == p.sample
    decreases |p.draining|
  {
    if p.draining == [] then p
    else
      ReclaimOk(p);
      ReclaimAll(ReclaimOne(p))
  }

  /** The batch a pass works on: the one open, or the one it opens with the epochs it reads. */
  ghost function Batch(p: Pub, sampled: seq<nat>): (q: Pub)
    requires PubOk(p)
    ensures PubOk(q) && Reserved(q) == Reserved(p) && Lines(q) == Lines(p)
  {
    if p.open then p
    else
      CloseOk(p, sampled);
      Close(p, sampled)
  }

  /** A pass reclaims its batch if the epochs it then reads show the grace period over. */
  ghost predicate PassStops(p: Pub, sampled: seq<nat>, now: seq<nat>)
    requires PubOk(p)
  {
    !Batch(p, sampled).open || |now| != |Batch(p, sampled).sample| || !Elapsed(Batch(p, sampled).sample, now)
  }

  ghost function Pass(p: Pub, sampled: seq<nat>, now: seq<nat>): (q: Pub)
    requires PubOk(p)
    ensures PubOk(q) && Reserved(q) == Reserved(p) && Lines(q) == Lines(p)
  {
    if PassStops(p, sampled, now) then Batch(p, sampled) else ReclaimAll(Batch(p, sampled))
  }

  /** Two passes: the batch a past drain left open, then what was retired since. The epochs each
      reads are the parameters. */
  ghost function Drain(p: Pub, s0: seq<nat>, n0: seq<nat>, s1: seq<nat>, n1: seq<nat>): (q: Pub)
    requires PubOk(p)
    ensures PubOk(q) && Reserved(q) == Reserved(p) && Lines(q) == Lines(p)
  {
    if PassStops(p, s0, n0) then Batch(p, s0) else Pass(Pass(p, s0, n0), s1, n1)
  }

  /** Every record free, lowest first, and no batch open. */
  ghost function Reset(lines: nat, cores: nat): Pub {
    Pub(seq(lines, _ => 0), seq(lines + 1, _ => Free), seq(lines + 1, _ => -1), seq(lines + 1, _ => -1),
        seq(lines + 1, _ => 0), seq(lines, i => i + 1), [], [], false, seq(cores, _ => 0))
  }

  lemma ResetOk(lines: nat, cores: nat)
    requires lines < 0x8000
    ensures PubOk(Reset(lines, cores)) && Reserved(Reset(lines, cores)) == {}
  {
    var p := Reset(lines, cores);
    forall x | 1 <= x < |p.state|
      ensures x in p.free
    {
      assert p.free[x - 1] == x;
    }
    assert ChainOf(p.free, p.state, Free) && ChainOf(p.pending, p.state, Pending) && ChainOf(p.draining, p.state, Draining);
    assert forall s {:trigger SlotOk(p, s)} :: 1 <= s <= Lines(p) ==> SlotOk(p, s);
  }

  // ---- What each keeps ----

  lemma ReserveOk(p: Pub)
    requires PubOk(p) && p.free != []
    ensures PubOk(Reserve(p).0) && Reserved(Reserve(p).0) == Reserved(p) + {p.free[0]}
    ensures p.state[p.free[0]] == Free
  {
    var s := p.free[0];
    var q := Reserve(p).0;
    assert SlotOk(p, s);
    ChainPop(p.free, p.state, Free, Live);
    ChainOther(p.pending, p.state, Pending, s, Live);
    ChainOther(p.draining, p.state, Draining, s, Live);
    forall x | 1 <= x <= Lines(q)
      ensures SlotOk(q, x)
    {
      assert SlotOk(p, x);
    }
    forall l | 0 <= l < Lines(q)
      ensures WordOk(q, l)
    {
      assert WordOk(p, l);
    }
  }

  lemma ChainPop(c: seq<nat>, state: seq<State>, st: State, to: State)
    requires ChainOf(c, state, st) && c != [] && to != st
    ensures ChainOf(c[1..], state[c[0] := to], st)
  {
    forall s | 1 <= s < |state| && state[c[0] := to][s] == st
      ensures s in c[1..]
    {
      assert s in c;
    }
  }

  lemma ChainPush(c: seq<nat>, state: seq<State>, st: State, s: nat)
    requires ChainOf(c, state, st) && 1 <= s < |state| && state[s] != st
    ensures ChainOf([s] + c, state[s := st], st)
  {
    var d := [s] + c;
    forall x | 1 <= x < |state| && state[s := st][x] == st
      ensures x in d
    {
      assert x == s || x in c;
      assert x == s ==> d[0] == x;
    }
  }

  lemma ChainOther(c: seq<nat>, state: seq<State>, st: State, s: nat, to: State)
    requires ChainOf(c, state, st) && 1 <= s < |state| && state[s] != st && to != st
    ensures ChainOf(c, state[s := to], st)
  {
  }

  lemma UnreserveOk(p: Pub, s: nat)
    requires PubOk(p) && s in Reserved(p)
    ensures PubOk(Unreserve(p, s)) && Reserved(Unreserve(p, s)) == Reserved(p) - {s}
  {
    var q := Unreserve(p, s);
    assert SlotOk(p, s);
    ChainPush(p.free, p.state, Free, s);
    ChainOther(p.pending, p.state, Pending, s, Free);
    ChainOther(p.draining, p.state, Draining, s, Free);
    forall x | 1 <= x <= Lines(q)
      ensures SlotOk(q, x)
    {
      assert SlotOk(p, x);
    }
    forall l | 0 <= l < Lines(q)
      ensures WordOk(q, l)
    {
      assert WordOk(p, l);
    }
  }

  /** A reservation handed back leaves the records, chains and all, as they were. */
  lemma ReserveUndone(p: Pub)
    requires PubOk(p) && p.free != []
    ensures Sized(Reserve(p).0) && p.free[0] <= Lines(p) && Unreserve(Reserve(p).0, p.free[0]) == p
  {
    var s := p.free[0];
    assert SlotOk(p, s);
    assert p.state[s := Live][s := Free] == p.state && [s] + p.free[1..] == p.free;
    assert p.binding[s := -1] == p.binding && p.lineOf[s := -1] == p.lineOf;
  }

  lemma CommitOk(p: Pub, s: nat, line: nat, pair: nat)
    requires PubOk(p) && s in Reserved(p) && line < Lines(p) && p.word[line] == 0
    ensures PubOk(Commit(p, s, line, pair)) && Reserved(Commit(p, s, line, pair)) == Reserved(p) - {s}
  {
    var q := Commit(p, s, line, pair);
    forall x | 1 <= x <= Lines(q)
      ensures SlotOk(q, x)
    {
      assert SlotOk(p, x);
    }
    forall l | 0 <= l < Lines(q)
      ensures WordOk(q, l)
    {
      assert WordOk(p, l);
    }
  }

  lemma RetireOk(p: Pub, line: nat, binding: int)
    requires PubOk(p) && line < Lines(p)
    ensures PubOk(Retire(p, line, binding)) && Reserved(Retire(p, line, binding)) == Reserved(p)
  {
    hide SlotOk, PubOk, Mark, ChainOf;
    assert Sized(p) && WordOk(p, line) by {
      WordIs(p, line);
    }
    var w := p.word[line];
    var s := SlotIn(w);
    if s == 0 {
      assert p.word[line := 0] == p.word;
    } else {
      var owed := if binding == -1 then p.binding[s] else binding;
      if Retires(w) {
        OweOk(p, s, owed);
      } else {
        MarkOk(p, line, s, owed);
      }
    }
  }

  lemma WordIs(p: Pub, line: nat)
    requires PubOk(p) && line < Lines(p)
    ensures Sized(p) && WordOk(p, line)
  {
  }

  lemma OweOk(p: Pub, s: nat, owed: int)
    requires PubOk(p) && 1 <= s <= Lines(p) && p.state[s] != Live && p.state[s] != Free
    ensures PubOk(p.(binding := p.binding[s := owed])) && Reserved(p.(binding := p.binding[s := owed])) == Reserved(p)
  {
    var q := p.(binding := p.binding[s := owed]);
    forall x | 1 <= x <= Lines(q)
      ensures SlotOk(q, x)
    {
      assert SlotOk(p, x);
    }
    forall l | 0 <= l < Lines(q)
      ensures WordOk(q, l)
    {
      assert WordOk(p, l);
    }
  }

  lemma MarkOk(p: Pub, line: nat, s: nat, owed: int)
    requires PubOk(p) && line < Lines(p) && 1 <= s <= Lines(p) && p.word[line] == s
    ensures PubOk(Mark(p, line, s, owed)) && Reserved(Mark(p, line, s, owed)) == Reserved(p)
  {
    var q := Mark(p, line, s, owed);
    assert WordOk(p, line) && SlotOk(p, s);
    ChainPush(p.pending, p.state, Pending, s);
    ChainOther(p.free, p.state, Free, s, Pending);
    ChainOther(p.draining, p.state, Draining, s, Pending);
    forall x | 1 <= x <= Lines(q)
      ensures SlotOk(q, x)
    {
      assert SlotOk(p, x);
    }
    forall l | 0 <= l < Lines(q)
      ensures WordOk(q, l)
    {
      assert WordOk(p, l);
    }
  }

  lemma CloseOk(p: Pub, sample: seq<nat>)
    requires PubOk(p) && !p.open
    ensures PubOk(Close(p, sample)) && Reserved(Close(p, sample)) == Reserved(p)
  {
    var q := Close(p, sample);
    if p.pending != [] {
      forall x | 1 <= x <= Lines(q)
        ensures SlotOk(q, x)
      {
        assert SlotOk(p, x);
        assert p.state[x] == Draining ==> x in p.draining;
      }
      forall l | 0 <= l < Lines(q)
        ensures WordOk(q, l)
      {
        assert WordOk(p, l);
      }
      assert forall x :: 1 <= x < |p.state| && p.state[x] == Draining ==> x in p.draining;
    }
  }

  lemma ReclaimOk(p: Pub)
    requires PubOk(p) && p.draining != []
    ensures PubOk(ReclaimOne(p)) && Reserved(ReclaimOne(p)) == Reserved(p)
    ensures p.state[p.draining[0]] == Draining
  {
    var s := p.draining[0];
    var q := ReclaimOne(p);
    assert SlotOk(p, s);
    ChainPop(p.draining, p.state, Draining, Free);
    ChainPush(p.free, p.state, Free, s);
    ChainOther(p.pending, p.state, Pending, s, Free);
    forall x | 1 <= x <= Lines(q)
      ensures SlotOk(q, x)
    {
      assert SlotOk(p, x);
    }
    forall l | 0 <= l < Lines(q)
      ensures WordOk(q, l)
    {
      assert WordOk(p, l);
    }
  }

  lemma SampledOk(p: Pub, sample: seq<nat>)
    requires PubOk(p)
    ensures PubOk(p.(sample := sample)) && Reserved(p.(sample := sample)) == Reserved(p)
  {
    var q := p.(sample := sample);
    forall x | 1 <= x <= Lines(q)
      ensures SlotOk(q, x)
    {
      assert SlotOk(p, x);
    }
    forall l | 0 <= l < Lines(q)
      ensures WordOk(q, l)
    {
      assert WordOk(p, l);
    }
  }

  lemma PubSized(p: Pub)
    requires PubOk(p)
    ensures Sized(p)
  {
  }

  // ---- Records never run out ----

  /** A handler bound to the line if it is unbound. */
  ghost function Attached(p: Pub, line: nat, what: nat): (Pub, bool)
    requires PubOk(p) && Reserved(p) == {} && line < Lines(p)
  {
    if p.word[line] != 0 then (p, false)
    else
      NeverRunsOut(p, line);
      ReserveOk(p);
      (Commit(Reserve(p).0, p.free[0], line, what), true)
  }

  /** The lines named by the records from 1 to `k`. */
  ghost function NamedBy(p: Pub, k: nat): set<int>
    requires Sized(p) && k <= Lines(p)
  {
    if k == 0 then {} else NamedBy(p, k - 1) + {p.lineOf[k]}
  }

  lemma {:induction false} NamedIn(p: Pub, k: nat, l: int) returns (s: nat)
    requires Sized(p) && k <= Lines(p) && l in NamedBy(p, k)
    ensures 1 <= s <= k && p.lineOf[s] == l
  {
    if p.lineOf[k] == l {
      s := k;
    } else {
      s := NamedIn(p, k - 1, l);
    }
  }

  lemma NamesOwn(p: Pub, s: nat)
    requires PubOk(p) && p.free == [] && Reserved(p) == {} && 1 <= s <= Lines(p)
    ensures 0 <= p.lineOf[s] < Lines(p) && SlotIn(p.word[p.lineOf[s]]) == s
  {
    assert SlotOk(p, s) && s !in Reserved(p);
    assert p.state[s] == Free ==> s in p.free;
  }

  /** With no record free and none reserved, every record names a line of its own. */
  lemma {:induction false} NamedCount(p: Pub, k: nat)
    requires PubOk(p) && p.free == [] && Reserved(p) == {} && k <= Lines(p)
    ensures |NamedBy(p, k)| == k
  {
    hide PubOk, Reserved;
    PubSized(p);
    if k > 0 {
      NamedCount(p, k - 1);
      if p.lineOf[k] in NamedBy(p, k - 1) {
        var s := NamedIn(p, k - 1, p.lineOf[k]);
        NamesOwn(p, s);
        NamesOwn(p, k);
        assert false;
      }
    }
  }

  /** A record is free for every unbound line: outside a claim the records not free are named by
      as many lines, and this one names none. */
  lemma NeverRunsOut(p: Pub, line: nat)
    requires PubOk(p) && Reserved(p) == {} && line < Lines(p) && p.word[line] == 0
    ensures p.free != []
  {
    if p.free == [] {
      var n := Lines(p);
      var all := Below(n);
      NamedCount(p, n);
      forall l | l in NamedBy(p, n)
        ensures l in all - {line}
      {
        var s := NamedIn(p, n, l);
        NamesOwn(p, s);
      }
      SubsetSize(NamedBy(p, n), all - {line});
      assert false;
    }
  }

  /** A reclamation frees retiring lines and touches no other. */
  ghost predicate Frees(p: Pub, q: Pub) {
    |q.word| == |p.word| && forall l :: 0 <= l < |p.word| ==> q.word[l] == p.word[l] || (Retires(p.word[l]) && q.word[l] == 0)
  }

  lemma {:induction false} ReclaimFrees(p: Pub)
    requires PubOk(p)
    ensures Frees(p, ReclaimAll(p))
    decreases |p.draining|
  {
    if p.draining != [] {
      assert SlotOk(p, p.draining[0]);
      ReclaimOk(p);
      ReclaimFrees(ReclaimOne(p));
    }
  }

  lemma NoneRetires(p: Pub, line: nat)
    requires PubOk(p) && p.pending == [] && p.draining == [] && line < Lines(p)
    ensures !Retires(p.word[line])
  {
    assert WordOk(p, line);
    var s := SlotIn(p.word[line]);
    if 1 <= s <= Lines(p) {
      assert p.state[s] == Pending ==> s in p.pending;
      assert p.state[s] == Draining ==> s in p.draining;
    }
  }

  /** With no core inside a dispatch, and none still in one the open batch waits for, a drain
      reclaims every retired record and frees its line; no bound line is touched. */
  lemma DrainFrees(p: Pub, s0: seq<nat>, n0: seq<nat>, s1: seq<nat>, n1: seq<nat>, line: nat)
    requires PubOk(p) && line < Lines(p) && |s0| == |n0| == |s1| == |n1| == |p.sample|
    requires p.open ==> Elapsed(p.sample, n0)
    requires forall c :: 0 <= c < |s0| ==> s0[c] % 2 == 0 && s1[c] % 2 == 0
    ensures var q := Drain(p, s0, n0, s1, n1);
            && q.pending == [] && q.draining == []
            && q.word[line] == if Retires(p.word[line]) then 0 else p.word[line]
  {
    hide PubOk, ReclaimAll;
    var q := Drain(p, s0, n0, s1, n1);
    OpenIs(p);
    PassFrees(p, s0, n0);
    if !PassStops(p, s0, n0) {
      OpenIs(Pass(p, s0, n0));
      PassFrees(Pass(p, s0, n0), s1, n1);
    }
    NoneRetires(q, line);
  }

  lemma OpenIs(p: Pub)
    requires PubOk(p)
    ensures p.open <==> p.draining != []
  {
  }

  lemma PassFrees(p: Pub, sampled: seq<nat>, now: seq<nat>)
    requires PubOk(p)
    ensures Frees(p, Pass(p, sampled, now))
  {
    ReclaimFrees(Batch(p, sampled));
  }
}
