/** The publication records and their three intrusive chains, updated in place by the lock holder. */
module IrqTable {
  import P = IrqPub
  import opened IrqPub
  import opened IrqLaws

  /** `c` is the chain threaded through `link` from `head`, -1 ending it. */
  ghost predicate Threaded(link: seq<int>, head: int, c: seq<nat>)
    decreases |c|
  {
    if c == [] then head == -1 else head == c[0] < |link| && Threaded(link, link[head], c[1..])
  }

  lemma {:induction false} ThreadKept(link: seq<int>, head: int, c: seq<nat>, s: nat, to: int)
    requires Threaded(link, head, c) && s < |link| && s !in c
    ensures Threaded(link[s := to], head, c)
    decreases |c|
  {
    if c != [] {
      assert c[0] in c;
      ThreadKept(link, link[head], c[1..], s, to);
    }
  }

  lemma ThreadNone(link: seq<int>)
    ensures Threaded(link, -1, [])
  {
  }

  lemma ThreadPush(link: seq<int>, head: int, c: seq<nat>, s: nat)
    requires Threaded(link, head, c) && s < |link| && s !in c
    ensures Threaded(link[s := head], s, [s] + c)
  {
    ThreadKept(link, head, c, s, head);
    assert ([s] + c)[1..] == c;
  }

  lemma ThreadPop(link: seq<int>, head: int, c: seq<nat>)
    requires Threaded(link, head, c)
    ensures (head < 0 <==> c == []) && (c == [] ==> head == -1)
    ensures c != [] ==> head == c[0] < |link| && Threaded(link, link[head], c[1..])
  {
  }

  class Table {
    const word: array<nat>
    const state: array<State>
    const lineOf: array<int>
    const binding: array<int>
    const pair: array<nat>
    const link: array<int>
    const sample: array<nat>
    var freeHead: int
    var pendingHead: int
    var drainingHead: int
    var drainOpen: bool
    /** The binding slots given back, in order. */
    var returned: seq<int>
    ghost var free: seq<nat>
    ghost var pending: seq<nat>
    ghost var draining: seq<nat>

    ghost function View(): Pub
      reads this, word, state, lineOf, binding, pair, sample
    {
      Pub(word[..], state[..], lineOf[..], binding[..], pair[..], free, pending, draining, draining != [], sample[..])
    }

    ghost predicate Apart() {
      && word != pair && word != sample && pair != sample
      && lineOf != binding && lineOf != link && binding != link
    }

    /** The chains as threaded, the draining one from `dh`. */
    ghost predicate Wired(dh: int)
      reads this, word, state, lineOf, binding, pair, link, sample
    {
      && Apart() && link.Length == word.Length + 1 && PubOk(View())
      && Threaded(link[..], freeHead, free) && Threaded(link[..], pendingHead, pending) && Threaded(link[..], dh, draining)
    }

    ghost predicate Valid()
      reads this, word, state, lineOf, binding, pair, link, sample
    {
      Wired(drainingHead) && drainOpen == (draining != [])
    }

    constructor (lines: nat, cores: nat)
      ensures Apart() && Shaped() && word.Length == lines && sample.Length == cores
    {
      word := new nat[lines];
      state := new State[lines + 1];
      lineOf := new int[lines + 1];
      binding := new int[lines + 1];
      pair := new nat[lines + 1];
      link := new int[lines + 1];
      sample := new nat[cores];
    }

    ghost predicate Shaped()
    {
      state.Length == lineOf.Length == binding.Length == pair.Length == link.Length == word.Length + 1
    }

    /** Every record free, lowest first, every line unbound, and no batch open. */
    method Reset()
      requires Apart() && Shaped() && word.Length < 0x8000
      modifies this, link, word, lineOf, binding, pair, state
      ensures Valid() && View() == P.Reset(word.Length, sample.Length).(sample := old(sample[..])) && returned == []
    {
      hide PubOk, Threaded;
      ClearAll();
      ThreadFree();
      ghost var n := word.Length;
      pendingHead, drainingHead, drainOpen, returned := -1, -1, false, [];
      pending, draining := [], [];
      ThreadNone(link[..]);
      ResetOk(n, sample.Length);
      assert View() == P.Reset(n, sample.Length).(sample := old(sample[..]));
      SampledOk(P.Reset(n, sample.Length), sample[..]);
    }

    /** The free chain threaded from the last record down to the first. */
    method ThreadFree()
      requires Apart() && Shaped()
      modifies this`freeHead, this`free, link
      ensures Threaded(link[..], freeHead, free) && free == seq(word.Length, i => i + 1)
    {
      hide Threaded;
      freeHead := -1;
      free := [];
      ThreadNone(link[..]);
      var i := word.Length;
      while i >= 1
        invariant 0 <= i <= word.Length && |free| == word.Length - i && Threaded(link[..], freeHead, free)
        invariant forall k :: 0 <= k < |free| ==> free[k] == i + 1 + k
        decreases i
      {
        ghost var l := link[..];
        ThreadPush(l, freeHead, free, i);
        link[i] := freeHead;
        assert link[..] == l[i := freeHead];
        freeHead := i;
        free := [i] + free;
        i := i - 1;
      }
    }

    method ClearAll()
      requires Apart() && Shaped()
      modifies link, word, lineOf, binding, pair, state
      ensures word[..] == seq(word.Length, _ => 0) && pair[..] == seq(pair.Length, _ => 0)
      ensures state[..] == seq(state.Length, _ => Free)
      ensures lineOf[..] == seq(lineOf.Length, _ => -1) && binding[..] == seq(binding.Length, _ => -1)
    {
      for i := 0 to word.Length + 1
        invariant pair[..i] == seq(i, _ => 0) && state[..i] == seq(i, _ => Free)
        invariant lineOf[..i] == seq(i, _ => -1) && binding[..i] == seq(i, _ => -1)
      {
        pair[i] := 0;
        state[i] := Free;
        binding[i] := -1;
        lineOf[i] := -1;
        link[i] := -1;
      }
      for i := 0 to word.Length
        modifies word
        invariant word[..i] == seq(i, _ => 0)
      {
        word[i] := 0;
      }
    }

    /** Holds a free record for a claim; -1 when every record is spoken for. */
    method Reserve() returns (i: int)
      requires Valid()
      modifies this`freeHead, this`free, link, state, binding, lineOf
      ensures Valid() && (View(), i) == P.Reserve(old(View()))
    {
      hide PubOk, Threaded;
      i := freeHead;
      ghost var p, l := View(), link[..];
      ThreadPop(l, freeHead, free);
      if i < 0 {
        return;
      }
      ReserveOk(p);
      FreeSlot(p);
      OffChains(p, i);
      ThreadKept(l, pendingHead, pending, i, -1);
      ThreadKept(l, drainingHead, draining, i, -1);
      ThreadKept(l, link[i], free[1..], i, -1);
      freeHead := link[i];
      free := free[1..];
      link[i] := -1;
      state[i] := Live;
      binding[i] := -1;
      lineOf[i] := -1;
      assert link[..] == l[i := -1];
      assert View() == P.Reserve(p).0;
    }

    method Unreserve(slot: nat)
      requires Valid() && slot in Reserved(View())
      modifies this`freeHead, this`free, link, state
      ensures Valid() && View() == P.Unreserve(old(View()), slot)
    {
      hide PubOk, Threaded;
      ghost var p, l := View(), link[..];
      PubSized(p);
      UnreserveOk(p, slot);
      OffChains(p, slot);
      ThreadKept(l, pendingHead, pending, slot, freeHead);
      ThreadKept(l, drainingHead, draining, slot, freeHead);
      ThreadPush(l, freeHead, free, slot);
      PushFree(slot);
      free := [slot] + free;
      assert View() == P.Unreserve(p, slot);
    }

    /** Seats a pair in a reserved record and names it from an unbound line. */
    method Commit(slot: nat, line: nat, what: nat)
      requires Valid() && slot in Reserved(View()) && line < word.Length && word[line] == 0
      modifies pair, lineOf, word
      ensures Valid() && View() == P.Commit(old(View()), slot, line, what)
    {
      hide PubOk, Threaded;
      ghost var p := View();
      PubSized(p);
      CommitOk(p, slot, line, what);
      pair[slot] := what;
      lineOf[slot] := line;
      word[line] := slot;
      assert View() == P.Commit(p, slot, line, what);
    }

    method SampleEpochs(now: seq<nat>)
      requires |now| == sample.Length
      modifies sample
      ensures sample[..] == now
    {
      for core := 0 to sample.Length
        invariant sample[..core] == now[..core]
      {
        sample[core] := now[core];
      }
    }

    /** Every pending record joins the batch, and each core's epoch is sampled. */
    method BatchClose(now: seq<nat>)
      requires Valid() && !drainOpen && |now| == sample.Length
      modifies this`pendingHead, this`drainingHead, this`drainOpen, this`pending, this`draining, state, sample
      ensures Valid() && View() == P.Close(old(View()), now)
      ensures old(pending) != [] ==> drainOpen && draining == old(pending) && pending == [] && sample[..] == now
      ensures old(pending) == [] ==> !drainOpen && sample[..] == old(sample[..])
    {
      hide PubOk, Threaded, Restated;
      ghost var p, l := View(), link[..];
      PubSized(p);
      ThreadPop(l, pendingHead, pending);
      ThreadPop(l, drainingHead, draining);
      CloseOk(p, now);
      if pendingHead < 0 {
        return;
      }
      drainingHead := pendingHead;
      pendingHead := -1;
      draining := pending;
      pending := [];
      Restate(p);
      assert state[..] == Restated(p.state);
      SampleEpochs(now);
      drainOpen := true;
      assert View() == P.Close(p, now);
    }

    /** Walks the chain now draining, restating its records. */
    method Restate(ghost p: Pub)
      requires PubOk(p) && p.draining == [] && state[..] == p.state && link.Length == state.Length
      requires Threaded(link[..], drainingHead, p.pending)
      modifies state
      ensures state[..] == Restated(p.state)
    {
      hide PubOk, Threaded;
      var i := drainingHead;
      ghost var k: nat := 0;
      ghost var l := link[..];
      ThreadPop(l, i, p.pending);
      assert p.pending[0..] == p.pending;
      while i >= 0
        modifies state
        invariant k <= |p.pending| && Threaded(l, i, p.pending[k..]) && (i < 0 <==> k == |p.pending|)
        invariant forall x {:trigger state[x]} :: 0 <= x < state.Length ==>
                    state[x] == if x in p.pending[..k] then Draining else p.state[x]
        decreases |p.pending| - k
      {
        ThreadPop(l, i, p.pending[k..]);
        PendingSlot(p, k);
        assert p.pending[k..][0] == p.pending[k] && p.pending[k..][1..] == p.pending[k + 1..];
        assert p.pending[..k + 1] == p.pending[..k] + [p.pending[k]];
        state[i] := Draining;
        i := link[i];
        k := k + 1;
        ThreadPop(l, i, p.pending[k..]);
      }
      assert p.pending[..k] == p.pending;
      forall x | 0 <= x < state.Length
        ensures state[x] == Restated(p.state)[x]
      {
        PendingIs(p, x);
      }
    }

    /** Whether every core inside a dispatch when the batch closed has left it. */
    method BatchElapsed(now: seq<nat>) returns (elapsed: bool)
      requires |now| == sample.Length
      ensures elapsed == Elapsed(sample[..], now)
      ensures elapsed <==> forall c :: 0 <= c < sample.Length ==> sample[c] % 2 == 0 || now[c] != sample[c]
    {
      for core := 0 to sample.Length
        invariant forall c :: 0 <= c < core ==> sample[c] % 2 == 0 || now[c] != sample[c]
      {
        if sample[core] % 2 == 0 {
          continue;
        }
        if now[core] == sample[core] {
          assert !(sample[..][core] % 2 == 0 || now[core] != sample[..][core]);
          return false;
        }
      }
      return true;
    }

    /** The record names nothing, and its line is free to bind. */
    method ClearRecord(slot: nat)
      requires Apart() && slot < lineOf.Length == binding.Length == pair.Length && lineOf[slot] < word.Length
      modifies word, lineOf, binding, pair
      ensures word[..] == old(if lineOf[slot] >= 0 then word[..][lineOf[slot] := 0] else word[..])
      ensures lineOf[..] == old(lineOf[..])[slot := -1] && binding[..] == old(binding[..])[slot := -1]
      ensures pair[..] == old(pair[..])[slot := 0]
    {
      if lineOf[slot] >= 0 {
        word[lineOf[slot]] := 0;
      }
      lineOf[slot] := -1;
      binding[slot] := -1;
      pair[slot] := 0;
    }

    /** The record heads the free chain. */
    method PushFree(slot: nat)
      requires slot < link.Length == state.Length
      modifies this`freeHead, link, state
      ensures state[..] == old(state[..])[slot := Free] && link[..] == old(link[..])[slot := old(freeHead)] && freeHead == slot
    {
      state[slot] := Free;
      link[slot] := freeHead;
      freeHead := slot;
    }

    /** Frees the first record of the batch, the line it held and the binding slot it owes. */
    method Reclaim(slot: nat)
      requires Wired(slot) && draining != []
      modifies this`freeHead, this`free, this`draining, this`returned, link, word, lineOf, binding, pair, state
      ensures Wired(if draining == [] then -1 else draining[0]) && View() == ReclaimOne(old(View()))
      ensures draining == old(draining)[1..] && slot < |old(View()).binding|
      ensures returned == old(returned) + Given(old(View()).binding[slot])
    {
      hide PubOk, Threaded;
      ghost var p, l := View(), link[..];
      PubSized(p);
      ReclaimOk(p);
      DrainingSlot(p);
      ThreadPop(l, slot, draining);
      OffChains(p, slot);
      ThreadKept(l, pendingHead, pending, slot, freeHead);
      ThreadKept(l, link[slot], draining[1..], slot, freeHead);
      ThreadPush(l, freeHead, free, slot);
      if binding[slot] != -1 {
        returned := returned + [binding[slot]];
      }
      ClearRecord(slot);
      PushFree(slot);
      free := [slot] + free;
      draining := draining[1..];
      assert View() == ReclaimOne(p);
      ThreadPop(l, l[slot], draining);
    }

    /** Reclaims the batch from `first` on. */
    method ReclaimBatch(first: int)
      requires Wired(first)
      modifies this`freeHead, this`free, this`draining, this`returned, link, word, lineOf, binding, pair, state
      ensures Wired(-1) && View() == ReclaimAll(old(View())) && returned == old(returned) + Returns(old(View()))
    {
      hide PubOk, Threaded, ReclaimOne;
      var i := first;
      ghost var goal, given := ReclaimAll(View()), returned + Returns(View());
      ThreadPop(link[..], i, draining);
      while i >= 0
        invariant Wired(i) && (i < 0 <==> draining == []) && (i < 0 ==> i == -1) && ReclaimAll(View()) == goal
        invariant returned + Returns(View()) == given
        decreases |draining|
      {
        ThreadPop(link[..], i, draining);
        var next := link[i];
        ThreadPop(link[..], next, draining[1..]);
        Reclaim(i);
        i := next;
        ThreadPop(link[..], i, draining);
      }
    }

    /** One pass of a drain, on the epochs it reads; whether the drain ends with it. */
    method Pass(sampled: seq<nat>, now: seq<nat>) returns (stop: bool)
      requires Valid() && |sampled| == |now| == sample.Length
      modifies this, link, word, lineOf, binding, pair, state, sample
      ensures Valid() && View() == P.Pass(old(View()), sampled, now) && stop == PassStops(old(View()), sampled, now)
      ensures returned == old(returned) + PassReturns(old(View()), sampled, now)
    {
      hide PubOk, Threaded, ReclaimAll, Close, Reserved;
      if !drainOpen {
        BatchClose(sampled);
      }
      ThreadPop(link[..], drainingHead, draining);
      if !drainOpen {
        return true;
      }
      var elapsed := BatchElapsed(now);
      if !elapsed {
        return true;
      }
      var i := drainingHead;
      drainingHead := -1;
      ReclaimBatch(i);
      drainOpen := false;
      return false;
    }

    /** Reclaims what past retirements are owed and opens a batch for the rest. */
    method Drain(s0: seq<nat>, n0: seq<nat>, s1: seq<nat>, n1: seq<nat>)
      requires Valid() && |s0| == |n0| == |s1| == |n1| == sample.Length
      modifies this, link, word, lineOf, binding, pair, state, sample
      ensures Valid() && View() == P.Drain(old(View()), s0, n0, s1, n1) && LinesKept(old(View()), View())
      ensures returned == old(returned) + DrainReturns(old(View()), s0, n0, s1, n1)
    {
      hide PubOk, Threaded, PassStops, Batch, ReclaimAll, Reserved, LinesKept;
      DrainKeeps(View(), s0, n0, s1, n1);
      var stop := Pass(s0, n0);
      if !stop {
        stop := Pass(s1, n1);
      }
    }

    /** The record heads the pending chain. */
    method PushPending(slot: nat)
      requires slot < link.Length == state.Length
      modifies this`pendingHead, link, state
      ensures state[..] == old(state[..])[slot := Pending] && link[..] == old(link[..])[slot := old(pendingHead)]
              && pendingHead == slot
    {
      state[slot] := Pending;
      link[slot] := pendingHead;
      pendingHead := slot;
    }

    /** The line's record marked retiring. */
    method MarkRetiring(line: nat, owed: int)
      requires Valid() && line < word.Length
      modifies this`pendingHead, this`pending, link, word, binding, state
      ensures Valid() && View() == Retire(old(View()), line, owed)
    {
      hide PubOk, Threaded;
      ghost var p, l := View(), link[..];
      WordIs(p, line);
      RetireOk(p, line, owed);
      var w := word[line];
      var slot := SlotIn(w);
      if slot == 0 || slot > word.Length {
        word[line] := 0;
        assert word[..] == p.word[line := 0];
        return;
      }
      if owed != -1 {
        binding[slot] := owed;
      }
      assert binding[..] == p.binding[slot := if owed == -1 then p.binding[slot] else owed];
      if !Retires(w) {
        OffChains(p, slot);
        ThreadKept(l, freeHead, free, slot, pendingHead);
        ThreadKept(l, drainingHead, draining, slot, pendingHead);
        ThreadPush(l, pendingHead, pending, slot);
        PushPending(slot);
        pending := [slot] + pending;
        word[line] := slot + RETIRING;
        assert View() == Mark(p, line, slot, if owed == -1 then p.binding[slot] else owed);
      }
    }

    /** A line released: its record retires, and a drain is tried. */
    method Release(line: nat, owed: int, s0: seq<nat>, n0: seq<nat>, s1: seq<nat>, n1: seq<nat>)
      requires Valid() && line < word.Length && |s0| == |n0| == |s1| == |n1| == sample.Length
      modifies this, link, word, lineOf, binding, pair, state, sample
      ensures Valid() && View() == Released(old(View()), line, owed, s0, n0, s1, n1)
      ensures word[line] == 0 || Retires(word[line])
      ensures OthersLive(old(View()), View(), line)
      ensures returned == old(returned) + ReleaseReturns(old(View()), line, owed, s0, n0, s1, n1)
    {
      hide PubOk, Threaded, P.Drain, Retire, OthersSame, SameLine, LinesKept, DrainReturns;
      ghost var p := View();
      MarkRetiring(line, owed);
      ghost var q := View();
      RetireSays(p, line, owed);
      Drain(s0, n0, s1, n1);
      PubSized(p);
      PubSized(q);
      SameLive(p, q, View(), line);
      StillRetires(q, View(), line);
    }

    /** A handler bound to a line that is unbound once what is owed is reclaimed; no record is ever wanting. */
    method Attach(line: nat, what: nat, s0: seq<nat>, n0: seq<nat>, s1: seq<nat>, n1: seq<nat>) returns (ok: bool)
      requires Valid() && line < word.Length && Reserved(View()) == {} && |s0| == |n0| == |s1| == |n1| == sample.Length
      modifies this, link, word, lineOf, binding, pair, state, sample
      ensures Valid() && Reserved(View()) == {}
      ensures (View(), ok) == Attached(P.Drain(old(View()), s0, n0, s1, n1), line, what)
      ensures ok <==> P.Drain(old(View()), s0, n0, s1, n1).word[line] == 0
      ensures !ok ==> View() == P.Drain(old(View()), s0, n0, s1, n1)
      ensures ok ==> word[line] != 0 && !Retires(word[line]) && word[line] < pair.Length && pair[word[line]] == what
      ensures ok ==> OthersSame(P.Drain(old(View()), s0, n0, s1, n1), View(), line)
      ensures OthersLive(old(View()), View(), line)
      ensures returned == old(returned) + DrainReturns(old(View()), s0, n0, s1, n1)
    {
      hide PubOk, Threaded, P.Drain, Reserved, P.Reserve, P.Commit, OthersSame, OthersLive, LinesKept, DrainReturns;
      ghost var was := View();
      Drain(s0, n0, s1, n1);
      AttachedLive(was, View(), line, what);
      if word[line] != 0 {
        return false;
      }
      ghost var p := View();
      NeverRunsOut(p, line);
      ReserveOk(p);
      ReservedOne(p, line);
      var slot := Reserve();
      CommitOk(View(), slot, line, what);
      Commit(slot, line, what);
      return true;
    }

    /** A claim of a line. `budget` is whether its task may hold one more binding, `install` what the
        binding pool and the capability table answer; a refusal leaves the records as the drain did. */
    method Claim(line: nat, what: nat, budget: bool, install: Outcome, s0: seq<nat>, n0: seq<nat>, s1: seq<nat>, n1: seq<nat>)
      returns (r: Outcome)
      requires Valid() && line < word.Length && Reserved(View()) == {} && |s0| == |n0| == |s1| == |n1| == sample.Length
      modifies this, link, word, lineOf, binding, pair, state, sample
      ensures Valid() && Reserved(View()) == {}
      ensures (View(), r) == Claimed(P.Drain(old(View()), s0, n0, s1, n1), line, what, budget, install)
      ensures !budget || Retires(P.Drain(old(View()), s0, n0, s1, n1).word[line]) ==> r == Again
      ensures budget && BoundTo(P.Drain(old(View()), s0, n0, s1, n1), line) ==> r == Busy
      ensures budget && P.Drain(old(View()), s0, n0, s1, n1).word[line] == 0 ==> r == install
      ensures (r == Done <==> budget && install.Done? && P.Drain(old(View()), s0, n0, s1, n1).word[line] == 0)
      ensures r != Done ==> View() == P.Drain(old(View()), s0, n0, s1, n1)
      ensures r == Done ==> word[line] != 0 && !Retires(word[line]) && word[line] < pair.Length && pair[word[line]] == what
      ensures r == Done ==> OthersSame(P.Drain(old(View()), s0, n0, s1, n1), View(), line)
      ensures OthersLive(old(View()), View(), line)
      ensures returned == old(returned) + DrainReturns(old(View()), s0, n0, s1, n1)
    {
      hide PubOk, Threaded, P.Drain, Reserved, P.Reserve, P.Commit, P.Unreserve, OthersSame, OthersLive, LinesKept;
      hide DrainReturns;
      ghost var was := View();
      Drain(s0, n0, s1, n1);
      AttachedLive(was, View(), line, what);
      if !budget || Retires(word[line]) {
        return Again;
      }
      if word[line] != 0 {
        return Busy;
      }
      ghost var p := View();
      NeverRunsOut(p, line);
      ReserveOk(p);
      ReservedOne(p, line);
      var slot := Reserve();
      if slot < 0 {
        return NoMemory;
      }
      if !install.Done? {
        ReserveUndone(p);
        Unreserve(slot);
        return install;
      }
      CommitOk(View(), slot, line, what);
      Commit(slot, line, what);
      return Done;
    }

    /** What a dispatch of the line is handed: nothing, or its record, unless that retires. */
    method Published(line: nat) returns (found: bool, what: nat)
      requires Valid() && line < word.Length
      ensures found <==> word[line] != 0 && !Retires(word[line])
      ensures found ==> 1 <= word[line] <= word.Length && what == View().pair[word[line]] && View().lineOf[word[line]] == line
    {
      hide Threaded;
      WordIs(View(), line);
      PubSized(View());
      var slot := word[line];
      if slot == 0 || slot > word.Length {
        return false, 0;
      }
      return true, pair[slot];
    }
  }

  ghost function Released(p: Pub, line: nat, owed: int, s0: seq<nat>, n0: seq<nat>, s1: seq<nat>, n1: seq<nat>): Pub
    requires PubOk(p) && line < Lines(p)
  {
    RetireOk(p, line, owed);
    P.Drain(Retire(p, line, owed), s0, n0, s1, n1)
  }

  ghost function ReleaseReturns(p: Pub, line: nat, owed: int, s0: seq<nat>, n0: seq<nat>, s1: seq<nat>, n1: seq<nat>): seq<int>
    requires PubOk(p) && line < Lines(p)
  {
    RetireOk(p, line, owed);
    DrainReturns(Retire(p, line, owed), s0, n0, s1, n1)
  }

  /** How a claim ends: done, over budget or still retiring, bound, out of slots, or no room for its
      capability. */
  datatype Outcome = Done | Again | Busy | NoMemory | Refused

  ghost function Claimed(p: Pub, line: nat, what: nat, budget: bool, install: Outcome): (Pub, Outcome)
    requires PubOk(p) && line < Lines(p) && Reserved(p) == {}
  {
    if !budget || Retires(p.word[line]) then (p, Again)
    else if p.word[line] != 0 then (p, Busy)
    else if !install.Done? then (p, install)
    else (Attached(p, line, what).0, Done)
  }

  lemma ReservedOne(p: Pub, line: nat)
    requires PubOk(p) && Reserved(p) == {} && p.free != [] && line < Lines(p) && p.word[line] == 0
    ensures var (q, s) := P.Reserve(p);
            s == p.free[0] && PubOk(q) && s in Reserved(q) && q.word[line] == 0 && Lines(q) == Lines(p)
    ensures Reserved(P.Reserve(p).0) == {p.free[0]}
  {
    ReserveOk(p);
  }

  lemma FreeSlot(p: Pub)
    requires PubOk(p) && p.free != []
    ensures Sized(p) && 1 <= p.free[0] <= Lines(p) && p.state[p.free[0]] == Free && p.free[0] !in p.free[1..]
  {
  }

  /** A record is on no chain but that of its state. */
  lemma OffChains(p: Pub, s: nat)
    requires PubOk(p) && 1 <= s <= Lines(p)
    ensures p.state[s] != Free ==> s !in p.free
    ensures p.state[s] != Pending ==> s !in p.pending
    ensures p.state[s] != Draining ==> s !in p.draining
  {
  }

  lemma PendingIs(p: Pub, x: nat)
    requires PubOk(p) && x < |p.state|
    ensures x in p.pending <==> p.state[x] == Pending
  {
  }

  lemma PendingSlot(p: Pub, k: nat)
    requires PubOk(p) && k < |p.pending|
    ensures p.pending[k] < |p.state|
  {
  }

  lemma DrainingSlot(p: Pub)
    requires PubOk(p) && p.draining != []
    ensures Sized(p) && 1 <= p.draining[0] <= Lines(p) && p.state[p.draining[0]] == Draining
    ensures p.draining[0] !in p.draining[1..] && 0 <= p.lineOf[p.draining[0]] < Lines(p)
  {
    assert SlotOk(p, p.draining[0]);
  }
}
