/** The console's transmit ring (kernel/init/console_tx.cc), each lock body one method. What the
    device answers is a parameter: how many pushes it takes before it is found busy, or stuck. */
module TxRing {
  import opened TxStream
  import D = TxDrain
  import opened Modular

  const WRAPS: nat := 0x1_0000_0000

  function Wrap(x: nat, size: nat): (i: nat)
    requires x < 2 * size
    ensures i < size
  {
    if x < size then x else x - size
  }

  /** Two indices' distance, by 32-bit subtraction and the mask. */
  function Used(head: nat, tail: nat, size: nat): nat
    requires size > 0
  {
    (head - tail) % WRAPS % size
  }

  function Low(x: nat): nat { x % WRAPS }

  /** Whether the count of bytes that left, by signed 32-bit difference, is at or past `until`. */
  predicate Reached(queued: nat, used: nat, until: nat) { (queued - used - until) % WRAPS < 0x8000_0000 }

  /** A size whose mask is exact: it divides 2^32. */
  ghost predicate Exact(size: nat) { size > 1 && exists q: nat :: size * q == WRAPS }

  lemma UsedIs(head: nat, tail: nat, size: nat, n: nat)
    requires Exact(size) && tail < size && n < size && head == Wrap(tail + n, size)
    ensures Used(head, tail, size) == n
  {
    var q: nat :| size * q == WRAPS;
    if head >= tail {
      assert head - tail == n;
      AtMost(size, q);
      DivModUnique(WRAPS, n, 0, n);
      DivModUnique(size, n, 0, n);
    } else {
      assert head - tail == n - size;
      AtMost(size, q);
      DivModUnique(WRAPS, n - size, -1, WRAPS + n - size);
      assert size * (q - 1) == WRAPS - size;
      DivModUnique(size, WRAPS + n - size, q - 1, n);
    }
  }

  lemma AtMost(size: nat, q: nat)
    requires size * q == WRAPS
    ensures q > 0 && size <= WRAPS
  {
    assert q == 0 ==> size * q == 0;
    assert size * q == size + size * (q - 1);
  }

  /** The `n` bytes of the ring from `tail`. */
  ghost function Held(b: seq<Byte>, tail: nat, n: nat): (r: seq<Byte>)
    requires tail < |b| && n <= |b|
    ensures |r| == n && forall i {:trigger r[i]} :: 0 <= i < n ==> r[i] == b[Wrap(tail + i, |b|)]
  {
    seq(n, i requires 0 <= i < n => b[Wrap(tail + i, |b|)])
  }

  lemma HeldPush(b: seq<Byte>, tail: nat, n: nat, x: Byte)
    requires tail < |b| && n < |b|
    ensures Held(b[Wrap(tail + n, |b|) := x], tail, n + 1) == Held(b, tail, n) + [x]
  {
    var c := b[Wrap(tail + n, |b|) := x];
    var r := Held(c, tail, n + 1);
    forall i {:trigger r[i]} | 0 <= i < n + 1
      ensures r[i] == (Held(b, tail, n) + [x])[i]
    {
    }
  }

  lemma HeldPop(b: seq<Byte>, tail: nat, n: nat)
    requires tail < |b| && 0 < n <= |b|
    ensures b[tail] == Held(b, tail, n)[0] && Held(b, Wrap(tail + 1, |b|), n - 1) == Held(b, tail, n)[1..]
  {
    var r := Held(b, Wrap(tail + 1, |b|), n - 1);
    forall i {:trigger r[i]} | 0 <= i < n - 1
      ensures r[i] == Held(b, tail, n)[1..][i]
    {
      assert Held(b, tail, n)[1..][i] == Held(b, tail, n)[i + 1];
    }
    assert Held(b, tail, n)[0] == b[Wrap(tail + 0, |b|)];
  }

  lemma {:induction false} ExpandMore(line: seq<Byte>, crlf: bool, i: nat)
    requires i < |line|
    ensures Expand(line[..i + 1], crlf) == Expand(line[..i], crlf) + if crlf && line[i] == LF then [CR, LF] else [line[i]]
  {
    var a, b := line[..i + 1], line[..i];
    if i == 0 {
      assert a == [line[0]] && b == [] && a[1..] == [];
    } else {
      assert a[1..] == line[1..][..i] && b[1..] == line[1..][..i - 1];
      ExpandMore(line[1..], crlf, i - 1);
    }
  }

  lemma ExpandNone(line: seq<Byte>, crlf: bool)
    requires line == []
    ensures Expand(line, crlf) == []
  {
  }

  lemma {:induction false} ExpandShorter(line: seq<Byte>, crlf: bool, i: nat)
    requires i <= |line|
    ensures |Expand(line[..i], crlf)| <= |Expand(line, crlf)|
    decreases |line| - i
  {
    if i < |line| {
      ExpandMore(line, crlf, i);
      ExpandShorter(line, crlf, i + 1);
    } else {
      assert line[..i] == line;
    }
  }

  /** The bytes a line takes up in the ring. */
  method LineNeeded(line: seq<Byte>, crlf: bool) returns (needed: nat)
    ensures needed == |Expand(line, crlf)|
  {
    needed := |line|;
    if crlf {
      for i := 0 to |line|
        invariant needed == |line| - i + |Expand(line[..i], crlf)|
      {
        ExpandMore(line, crlf, i);
        if line[i] == LF {
          needed := needed + 1;
        }
      }
    } else {
      ExpandRaw(line);
    }
    assert line[..|line|] == line;
  }

  /** How one turn of a producer's drain ends: over, a byte taken to push, or no slot for one. */
  datatype Turn = Left | Took | Waits

  class Ring {
    const buf: array<Byte>
    var head: nat
    var tail: nat
    var queued: nat
    var device: seq<Byte>
    var pushing: bool
    var carried: bool
    var carry: nat
    var hand: seq<Byte>
    ghost var n: nat
    ghost var gone: nat

    ghost predicate Placed()
      reads this, buf
    {
      Exact(buf.Length) && tail < buf.Length && n < buf.Length && head == Wrap(tail + n, buf.Length)
    }

    ghost function View(): Tx
      reads this, buf
      requires Placed()
    {
      Tx(device, hand, Held(buf[..], tail, n), pushing)
    }

    /** `queued` counts every byte ever queued, modulo 2^32: those gone from the ring and still here. */
    ghost predicate Valid()
      reads this, buf
    {
      Placed() && queued == Low(gone + n) && |hand| <= 1 && (hand != [] ==> pushing)
    }

    /** The ring is at state `s` of the producers draining it. */
    ghost predicate Shows(s: D.Sys)
      reads this, buf
    {
      && Valid() && s.tx == View() && s.gone == gone && s.carried == carried && (carried ==> carry == Low(s.carry))
    }

    constructor (storage: array<Byte>)
      requires Exact(storage.Length)
      ensures Valid() && buf == storage && View() == Tx([], [], [], false) && Shows(D.BOOT.sys)
    {
      buf := storage;
      head, tail, queued, device := 0, 0, 0, [];
      pushing, carried, carry := false, false, 0;
      hand, n, gone := [], 0, 0;
    }

    method PutByte(idx: nat, ghost c: nat, x: Byte) returns (next: nat)
      requires tail < buf.Length && c + 1 < buf.Length && idx == Wrap(tail + c, buf.Length)
      modifies buf
      ensures next == Wrap(tail + (c + 1), buf.Length)
      ensures Held(buf[..], tail, c + 1) == old(Held(buf[..], tail, c)) + [x]
    {
      hide Held;
      ghost var b: seq<Byte> := buf[..];
      HeldPush(b, tail, c, x);
      buf[idx] := x;
      assert buf[..] == b[idx := x];
      return Wrap(idx + 1, buf.Length);
    }

    /** A line's bytes stored past the head, which has not moved. */
    method CopyLine(line: seq<Byte>, crlf: bool) returns (idx: nat)
      requires Placed() && n + |Expand(line, crlf)| < buf.Length
      modifies buf
      ensures idx == Wrap(tail + (n + |Expand(line, crlf)|), buf.Length)
      ensures Held(buf[..], tail, n + |Expand(line, crlf)|) == old(Held(buf[..], tail, n)) + Expand(line, crlf)
    {
      hide Held, Exact, Wrap, Expand;
      ghost var ring := Held(buf[..], tail, n);
      idx := head;
      ghost var c: nat := 0;
      ExpandNone(line[..0], crlf);
      assert ring + [] == ring;
      for i := 0 to |line|
        invariant c == |Expand(line[..i], crlf)| && n + c < buf.Length && idx == Wrap(tail + (n + c), buf.Length)
        invariant Held(buf[..], tail, n + c) == ring + Expand(line[..i], crlf)
      {
        ExpandMore(line, crlf, i);
        ExpandShorter(line, crlf, i + 1);
        ghost var part := Expand(line[..i], crlf);
        if crlf && line[i] == LF {
          idx := PutByte(idx, n + c, CR);
          c := c + 1;
        }
        idx := PutByte(idx, n + c, line[i]);
        c := c + 1;
        assert ring + part + [CR] + [LF] == ring + (part + [CR, LF]);
        assert ring + part + [line[i]] == ring + (part + [line[i]]);
      }
      assert line[..|line|] == line;
    }

    /** A whole line or nothing. `inserting` refuses a line nested in another's copy; a device found
        idle, `free` not 0, is primed. */
    method InsertLocked(line: seq<Byte>, crlf: bool, inserting: bool, free: nat) returns (ok: bool)
      requires Valid()
      modifies this`head, this`tail, this`queued, this`device, this`n, this`gone, buf
      ensures Valid() && ok == (!inserting && Fits(old(View()), buf.Length - 1, line, crlf))
      ensures ok <==> !inserting && old(n) + |Expand(line, crlf)| < buf.Length
      ensures View() == if inserting then old(View()) else Inserted(old(View()), buf.Length - 1, line, crlf, free)
      ensures gone + n == old(gone + n) + if ok then |Expand(line, crlf)| else 0
      ensures var all := old(Held(buf[..], tail, n)) + Expand(line, crlf);
              if ok && (old(n) == 0 || line == []) && !pushing && all != [] && free > 0
              then device == old(device) + [all[0]] else device == old(device)
    {
      hide Held, Exact, Wrap, Expand, Used;
      HeldSize(buf[..], tail, n);
      if inserting {
        return false;
      }
      ghost var s := View();
      UsedHere();
      var needed := LineNeeded(line, crlf);
      if needed > buf.Length - 1 - Used(head, tail, buf.Length) {
        return false;
      }
      var wasEmpty := Used(head, tail, buf.Length) == 0;
      var idx := CopyLine(line, crlf);
      Advance(idx, needed, s, Expand(line, crlf));
      UsedHere();
      if (wasEmpty || |line| == 0) && !pushing && idx != tail && free != 0 {
        Pop();
      }
      return true;
    }

    /** A byte for a device just reprogrammed, if the ring holds any. */
    method Reprime(inserting: bool, free: nat)
      requires Valid()
      modifies this`head, this`tail, this`queued, this`device, this`n, this`gone, buf
      ensures Valid() && gone + n == old(gone + n)
      ensures var ring := old(Held(buf[..], tail, n));
              if ring != [] && !inserting && !pushing && free > 0
              then device == old(device) + [ring[0]] && Held(buf[..], tail, n) == ring[1..]
              else device == old(device) && Held(buf[..], tail, n) == ring
    {
      hide Held, Exact, Wrap, Used, Expand;
      UsedHere();
      HeldSize(buf[..], tail, n);
      if Used(head, tail, buf.Length) != 0 {
        ghost var s := View();
        ExpandNone([], false);
        assert s.ring + [] == s.ring;
        InsertedIs(s, buf.Length - 1, [], false, free);
        var ok := InsertLocked([], false, inserting, free);
      }
    }

    /** A line queued by a producer, which then drains up to the end of it. */
    method QueueLine(line: seq<Byte>, crlf: bool, inserting: bool, irq: bool, free: nat, ghost s: D.Sys, ghost p: nat)
      returns (ok: bool, until: nat)
      requires Shows(s) && D.Can(Setup(irq), s, D.Queue(p, line, crlf, free))
      modifies this`head, this`tail, this`queued, this`device, this`n, this`gone, buf
      ensures ok == (!inserting && Fits(s.tx, buf.Length - 1, line, crlf))
      ensures var t := if inserting then s else D.Step(Setup(irq), s, D.Queue(p, line, crlf, free));
              Shows(t) && (ok ==> p in t.active && until == Low(t.active[p]))
    {
      hide Held, Exact, Wrap, Expand, Low;
      HeldSize(buf[..], tail, n);
      ok := InsertLocked(line, crlf, inserting, free);
      HeldSize(buf[..], tail, n);
      until := queued;
    }

    /** The head moved past what was stored, and counted. */
    method Advance(idx: nat, ghost c: nat, ghost s: Tx, ghost e: seq<Byte>)
      requires Valid() && n + c < buf.Length && idx == Wrap(tail + (n + c), buf.Length)
      requires |e| == c && s == Tx(device, hand, s.ring, pushing) && |s.ring| == n
      requires Held(buf[..], tail, n + c) == s.ring + e
      modifies this`head, this`queued, this`n
      ensures Valid() && View() == s.(ring := s.ring + e) && n == old(n) + c && head == idx
    {
      hide Held, Exact, Wrap, Used, Low;
      Distance(head, tail, n, c, idx, buf.Length);
      QueuedMore(gone, n, c);
      queued := Low(queued + Used(idx, head, buf.Length));
      head := idx;
      n := n + c;
    }

    lemma UsedHere()
      requires Placed()
      ensures Used(head, tail, buf.Length) == n && (head == tail <==> n == 0)
    {
      UsedIs(head, tail, buf.Length, n);
    }

    /** One byte to the device. */
    method Pop()
      requires Valid() && n > 0
      modifies this`tail, this`device, this`n, this`gone
      ensures Valid() && View() == Sent(old(View()), 1) && n == old(n) - 1 && gone == old(gone) + 1
    {
      hide Held, Exact;
      ghost var s := View();
      HeldPop(buf[..], tail, n);
      HeldSize(buf[..], tail, n);
      device := device + [buf[tail]];
      tail := Wrap(tail + 1, buf.Length);
      n, gone := n - 1, gone + 1;
      assert s.ring[..1] == [s.ring[0]];
    }

    /** The interrupt's drain: as many as the device takes. */
    method Isr(free: nat)
      requires Valid()
      modifies this`tail, this`device, this`n, this`gone
      ensures Valid() && View() == Sent(old(View()), Min(free, |old(View()).ring|)) && gone + n == old(gone + n)
      ensures Min(free, old(n)) <= |old(View()).ring| && n == old(n) - Min(free, old(n))
      ensures device == old(device) + old(View()).ring[..Min(free, old(n))]
    {
      hide Held, Exact, Wrap, Low, Sent;
      SentIs(View(), Min(free, |View().ring|));
      ghost var s, taken := View(), 0;
      var left: nat := free;
      HeldSize(buf[..], tail, n);
      SentNone(s);
      UsedHere();
      while tail != head && left > 0
        invariant Valid() && left + taken == free && taken <= |s.ring| && n == |s.ring| - taken && View() == Sent(s, taken)
        invariant gone + n == old(gone + n) && (head == tail <==> n == 0)
        decreases left
      {
        SentMore(s, taken);
        Pop();
        UsedHere();
        left := left - 1;
        taken := taken + 1;
      }
    }

    /** The oldest byte taken to be pushed. */
    method TakeByte()
      requires Valid() && n > 0
      modifies this`tail, this`pushing, this`hand, this`n, this`gone
      ensures Valid() && old(View()).ring != [] && View() == Taken(old(View())) && gone == old(gone) + 1
    {
      hide Held, Exact;
      ghost var s := View();
      HeldPop(buf[..], tail, n);
      HeldSize(buf[..], tail, n);
      hand := [buf[tail]];
      tail := Wrap(tail + 1, buf.Length);
      pushing := true;
      n, gone := n - 1, gone + 1;
    }

    /** One turn of a drain, up to its push. `until` is the low 32 bits of the point producer `p`
        drains up to, which may have been passed by others' drains. */
    method DrainTurn(until: nat, irq: bool, slotFree: bool, ghost s: D.Sys, ghost p: nat) returns (r: Turn)
      requires Shows(s) && D.Inv(Setup(irq), s) && D.Can(Setup(irq), s, D.Enter(p, slotFree)) && buf.Length <= 0x8000_0000
      requires until == Low(s.active[p]) && s.gone - s.active[p] < 0x8000_0000
      modifies this`tail, this`pushing, this`hand, this`carried, this`carry, this`n, this`gone
      ensures Shows(D.Step(Setup(irq), s, D.Enter(p, slotFree)))
      ensures r == Turning(Setup(irq), s, p, slotFree)
    {
      hide Held, Exact, Wrap, Used, Low, Reached;
      HeldSize(buf[..], tail, n);
      UsedHere();
      if pushing {
        carried, carry := true, queued;
        return Left;
      }
      Point(gone, n, s.active[p], until);
      if irq || Reached(queued, Used(head, tail, buf.Length), until) {
        return Left;
      }
      if !slotFree {
        return Waits;
      }
      TakeByte();
      return Took;
    }

    ghost function Setup(irq: bool): D.Setup
      requires buf.Length > 0
    {
      D.Setup(buf.Length - 1, irq)
    }

    /** The push over: a point handed to it meanwhile is now the pusher's own. */
    method PushDone(until: nat, irq: bool, ghost s: D.Sys) returns (next: nat)
      requires Shows(s) && D.Inv(Setup(irq), s) && D.Can(Setup(irq), s, D.Push) && until == Low(s.active[s.pusher])
      modifies this`device, this`pushing, this`hand, this`carried
      ensures var t := D.Step(Setup(irq), s, D.Push);
              Shows(t) && s.pusher in t.active && next == Low(t.active[s.pusher])
      ensures !pushing && hand == [] && device == old(device) + old(hand) && !carried
      ensures next == if old(carried) then old(carry) else until
    {
      hide Held, Exact, Wrap, Low;
      next := until;
      device := device + hand;
      hand := [];
      pushing := false;
      if carried {
        carried := false;
        next := carry;
      }
    }

    /** A turn and its push with nothing between. */
    method OneByte(until: nat, irq: bool, slotFree: bool, ghost s: D.Sys, ghost p: nat) returns (r: Turn, ghost t: D.Sys)
      requires Shows(s) && D.Inv(Setup(irq), s) && D.Can(Setup(irq), s, D.Enter(p, slotFree)) && buf.Length <= 0x8000_0000
      requires until == Low(s.active[p]) && s.gone - s.active[p] < 0x8000_0000
      modifies this`tail, this`device, this`pushing, this`hand, this`carried, this`carry, this`n, this`gone
      ensures Shows(t) && D.Inv(Setup(irq), t) && t.tx.pushing == s.tx.pushing
      ensures r == Turning(Setup(irq), s, p, slotFree)
      ensures r == Left ==> t.active == s.active - {p} && t.tx == s.tx
      ensures r == Waits ==> t == s
      ensures r == Took ==> s.tx.ring != [] && t.active == s.active && t.tx == Sent(s.tx, 1) && t.gone == s.gone + 1
    {
      hide D.Inv, D.Step, Low, Valid, Shows, Turning, Sent;
      TurnIs(Setup(irq), s, p, slotFree);
      D.StepInv(Setup(irq), s, D.Enter(p, slotFree));
      r := DrainTurn(until, irq, slotFree, s, p);
      t := D.Step(Setup(irq), s, D.Enter(p, slotFree));
      if r == Took {
        D.StepInv(Setup(irq), t, D.Push);
        var next := PushDone(until, irq, t);
        t := D.Step(Setup(irq), t, D.Push);
      }
    }

    /** A producer's drain with nobody else's turn between its own. `free` is how many pushes the
        device takes; a channel stuck first loses the rest. */
    method DrainInProducer(until: nat, irq: bool, free: nat, ghost s0: D.Sys, ghost p: nat) returns (ghost s: D.Sys)
      requires Shows(s0) && D.Inv(Setup(irq), s0) && p in s0.active && buf.Length <= 0x8000_0000
      requires (s0.tx.pushing ==> p != s0.pusher) && until == Low(s0.active[p]) && s0.gone - s0.active[p] < 0x8000_0000
      modifies this`tail, this`device, this`pushing, this`hand, this`carried, this`carry, this`n, this`gone
      ensures Shows(s) && D.Inv(Setup(irq), s) && s.active == s0.active - {p}
      ensures ToGo(Setup(irq), s0, p) <= |s0.tx.ring| && s.tx == Drained(s0.tx, ToGo(Setup(irq), s0, p), free)
    {
      hide D.Inv, Low, Valid, Shows, Sent;
      s := s0;
      var left: nat := free;
      ghost var taken: nat := 0;
      GoBound(Setup(irq), s0, p);
      SentNone(s0.tx);
      while true
        invariant Shows(s) && D.Inv(Setup(irq), s) && s.active == s0.active && s.tx.pushing == s0.tx.pushing
        invariant taken + left == free && taken <= ToGo(Setup(irq), s0, p) <= |s0.tx.ring|
        invariant s.tx == Sent(s0.tx, taken) && s.gone == s0.gone + taken && (s.tx.pushing ==> p != s.pusher)
        decreases left
      {
        var r;
        r, s := OneByte(until, irq, left > 0, s, p);
        if r == Left {
          return;
        }
        if r == Waits {
          s := GiveUp(irq, s, p);
          return;
        }
        SentMore(s0.tx, taken);
        left := left - 1;
        taken := taken + 1;
      }
    }

    /** A stuck channel given up on: the ring emptied, the bytes lost. */
    method GiveUp(irq: bool, ghost s: D.Sys, ghost p: nat) returns (ghost t: D.Sys)
      requires Shows(s) && D.Inv(Setup(irq), s) && D.Can(Setup(irq), s, D.Wedge(p))
      modifies this`tail, this`n, this`gone
      ensures t == D.Step(Setup(irq), s, D.Wedge(p)) && Shows(t) && D.Inv(Setup(irq), t)
    {
      hide Held, Exact, Low;
      D.StepInv(Setup(irq), s, D.Wedge(p));
      t := D.Step(Setup(irq), s, D.Wedge(p));
      DiscardAll();
    }

    method DiscardAll()
      requires Valid()
      modifies this`tail, this`n, this`gone
      ensures Valid() && View() == Lost(old(View())) && n == 0 && gone == old(gone + n)
    {
      hide Exact, Low;
      tail := head;
      gone := gone + n;
      n := 0;
    }

    /** A writer the ring refused makes room for a line it can hold: whether it is to wait for the
        interrupt, or else up to which point, if any, it drains. */
    method MakeRoom(needed: nat, irq: bool, ghost s: D.Sys, ghost p: nat) returns (waits: bool, drains: bool, until: nat)
      requires Shows(s) && D.Inv(Setup(irq), s) && D.Can(Setup(irq), s, D.MakeRoom(p, needed))
      ensures waits == (irq && needed > buf.Length - 1 - |s.tx.ring|) && drains == (!irq
              && needed > buf.Length - 1 - |s.tx.ring|)
      ensures var t := D.Step(Setup(irq), s, D.MakeRoom(p, needed));
              && Shows(t) && (drains <==> p in t.active)
              && (drains ==> until == Low(t.active[p]) && t.active[p] == s.gone + (needed - (buf.Length - 1 - |s.tx.ring|)))
    {
      hide Held, Exact, Wrap, Used, Low;
      HeldSize(buf[..], tail, n);
      UsedHere();
      var used := Used(head, tail, buf.Length);
      var space := buf.Length - 1 - used;
      if needed <= space {
        return false, false, 0;
      }
      if irq {
        return true, false, 0;
      }
      MarkPoint(gone, n, needed - space);
      return false, true, (queued - used + (needed - space)) % WRAPS;
    }

    /** Everything sent, or, the channel stuck, what it did not take discarded. */
    method Flush(free: nat)
      requires Valid()
      modifies this`tail, this`device, this`hand, this`n, this`gone
      ensures Valid() && View() == Flushed(old(View()), free) && gone == old(gone + n)
      ensures n == 0 && Min(free, old(n)) <= |old(View()).ring|
      ensures device == old(device) + old(View()).ring[..Min(free, old(n))]
    {
      hide Held, Exact, Wrap, Low, Sent, Flushed;
      FlushedIs(View(), free);
      hand := [];
      ghost var s, taken := View(), 0;
      var left: nat := free;
      HeldSize(buf[..], tail, n);
      SentNone(s);
      UsedHere();
      while tail != head
        invariant Valid() && left + taken == free && taken <= |s.ring| && n == |s.ring| - taken && View() == Sent(s, taken)
        invariant gone + n == old(gone + n) && (head == tail <==> n == 0)
        decreases n
      {
        if left == 0 {
          DiscardAll();
          return;
        }
        SentMore(s, taken);
        Pop();
        UsedHere();
        left := left - 1;
        taken := taken + 1;
      }
    }
  }

  /** How many bytes a producer still has to see out. */
  ghost function ToGo(c: D.Setup, s: D.Sys, p: nat): nat
    requires p in s.active
  {
    if c.irq || s.tx.pushing || s.gone >= s.active[p] then 0 else s.active[p] - s.gone
  }

  ghost function Turning(c: D.Setup, s: D.Sys, p: nat, slotFree: bool): Turn
    requires p in s.active
  {
    if ToGo(c, s, p) == 0 then Left else if slotFree then Took else Waits
  }

  ghost function Drained(s: Tx, d: nat, free: nat): Tx
    requires d <= |s.ring|
  {
    if free >= d then Sent(s, d) else Lost(Sent(s, free))
  }

  lemma GoBound(c: D.Setup, s: D.Sys, p: nat)
    requires D.Inv(c, s) && p in s.active
    ensures ToGo(c, s, p) <= |s.tx.ring|
  {
  }

  lemma TurnIs(c: D.Setup, s: D.Sys, p: nat, slotFree: bool)
    requires D.Inv(c, s) && D.Can(c, s, D.Enter(p, slotFree))
    ensures var t := D.Step(c, s, D.Enter(p, slotFree));
            && (Turning(c, s, p, slotFree) == Left <==> p !in t.active)
            && (Turning(c, s, p, slotFree) == Left ==> t.active == s.active - {p} && t.tx == s.tx)
            && (Turning(c, s, p, slotFree) == Waits ==> t == s)
            && (Turning(c, s, p, slotFree) == Took ==>
                  && s.tx.ring != [] && t.pusher == p && t.active == s.active && D.Can(c, t, D.Push)
                  && var u := D.Step(c, t, D.Push);
                          u.active == s.active && u.tx == Sent(s.tx, 1) && u.gone == s.gone + 1 && u.tx.pushing == s.tx.pushing)
  {
  }

  lemma HeldSize(b: seq<Byte>, tail: nat, n: nat)
    requires tail < |b| && n <= |b|
    ensures |Held(b, tail, n)| == n
  {
  }

  lemma SentIs(s: Tx, k: nat)
    requires k <= |s.ring|
    ensures Sent(s, k).device == s.device + s.ring[..k] && Sent(s, k).ring == s.ring[k..]
  {
  }

  lemma FlushedIs(s: Tx, free: nat)
    ensures Flushed(s, free).device == s.device + s.ring[..Min(free, |s.ring|)]
    ensures Flushed(s, free) == if free >= |s.ring| then Sent(s.(hand := []), |s.ring|) else Lost(Sent(s.(hand := []), free))
  {
  }

  lemma SentNone(s: Tx)
    ensures Sent(s, 0) == s
  {
    assert s.device + s.ring[..0] == s.device;
  }

  lemma SentMore(s: Tx, k: nat)
    requires k < |s.ring|
    ensures Sent(Sent(s, k), 1) == Sent(s, k + 1)
  {
    assert s.ring[..k + 1] == s.ring[..k] + s.ring[k..][..1];
    assert s.device + s.ring[..k] + s.ring[k..][..1] == s.device + s.ring[..k + 1];
  }

  lemma Distance(head: nat, tail: nat, n: nat, c: nat, idx: nat, size: nat)
    requires Exact(size) && tail < size && n + c < size && head == Wrap(tail + n, size) && idx == Wrap(tail + (n + c), size)
    ensures Used(idx, head, size) == c
  {
    assert idx == Wrap(head + c, size);
    UsedIs(idx, head, size, c);
  }

  lemma QueuedMore(gone: nat, n: nat, c: nat)
    ensures Low(Low(gone + n) + c) == Low(gone + (n + c))
  {
  }

  /** By signed 32-bit difference, what has left has reached a point exactly when it has. */
  lemma Point(gone: nat, n: nat, point: nat, until: nat)
    requires point <= gone + n && n <= 0x8000_0000 && gone - point < 0x8000_0000 && until == Low(point)
    ensures Reached(Low(gone + n), n, until) <==> gone >= point
  {
    var q, r := (gone + n) / WRAPS, point / WRAPS;
    var x := (gone + n) % WRAPS - n - until;
    assert x == WRAPS * (r - q) + (gone - point);
    if gone >= point {
      DivModUnique(WRAPS, x, r - q, gone - point);
    } else {
      DivModUnique(WRAPS, x, r - q - 1, WRAPS + gone - point);
    }
  }

  lemma MarkPoint(gone: nat, n: nat, d: nat)
    ensures (Low(gone + n) - n + d) % WRAPS == Low(gone + d)
  {
    var q, r := (gone + n) / WRAPS, (gone + d) / WRAPS;
    assert Low(gone + n) - n + d == WRAPS * (r - q) + (gone + d) % WRAPS;
    DivModUnique(WRAPS, Low(gone + n) - n + d, r - q, (gone + d) % WRAPS);
  }
}
