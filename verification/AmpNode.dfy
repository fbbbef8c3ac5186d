/** The receiving half of an AMP node as it runs: index words, one released bit a slot, strike
    counters and a table of records, all updated in place. */
module AmpNode {
  import opened Modular
  import opened AmpPair
  import opened AmpLaws

  class Node {
    const n: nat
    const mint: Mint
    // The call ring's tail, the next slot to take, and one bit a slot from the tail.
    var tail: U32
    var taken: U32
    var released: seq<bool>
    var strikes: nat
    const recs: array<Record>
    // The reply ring's head.
    var rhead: U32
    var tailStrikes: nat
    var unsent: nat
    ghost var replies: seq<Tag>

    ghost predicate Valid()
      reads this, recs
    {
      && Slots(n) && recs.Length == n && |released| == 32
      && Sub(taken, tail) <= n
      && (forall i :: Sub(taken, tail) <= i < 32 ==> !released[i])
    }

    ghost function View(): Pair
      requires Valid()
      reads this, recs
    {
      Pair(tail, released[..Sub(taken, tail)], recs[..], strikes, rhead, tailStrikes, replies, unsent)
    }

    constructor (n: nat, mint: Mint, tail: U32, rhead: U32, recs: array<Record>)
      requires Slots(n) && recs.Length == n
      ensures Valid() && this.n == n && this.mint == mint && this.recs == recs
      ensures View() == Pair(tail, [], recs[..], 0, rhead, 0, [], 0)
    {
      this.n, this.mint, this.tail, this.taken, this.rhead, this.recs := n, mint, tail, tail, rhead, recs;
      released, strikes, tailStrikes, unsent, replies := seq(32, _ => false), 0, 0, 0, [];
    }

    /** Releases one held slot; the tail advances over the released bits from the oldest. */
    method ReleaseOn(slot: nat) returns (moved: bool)
      requires Valid()
      modifies this`tail, this`released
      ensures Valid() && View() == Release(n, old(View()), slot) && moved == (tail != old(tail))
    {
      hide Add, Sub, Off, Lead;
      var held := Sub(taken, tail);
      var off := Off(n, slot, tail);
      StartIndex(tail);
      if off >= held {
        return false;
      }
      released := released[off := true];
      ghost var flags := released[..held];
      ghost var k := 0;
      var was := tail;
      while released[0] && tail != taken
        invariant k <= Lead(flags) && |released| == 32 && tail == Add(was, k) && Sub(taken, tail) == held - k
        invariant forall i :: 0 <= i < held - k ==> released[i] == flags[k + i]
        invariant forall i :: held - k <= i < 32 ==> !released[i]
        decreases held - k
      {
        LeadGrows(flags, k);
        NextIndex(taken, tail, was, k);
        released := released[1..] + [false];
        tail := Add(tail, 1);
        k := k + 1;
      }
      SameIndex(taken, tail);
      LeadEnds(flags, k, held - k > 0 && released[0]);
      assert released[..held - k] == flags[k..];
      MovedIff(was, k);
      return tail != was;
    }

    method TailBelieved(rtail: U32) returns (ok: bool)
      requires Valid()
      modifies this`tailStrikes, this`rhead
      ensures Valid() && View() == Believe(n, old(View()), rtail).0 && ok == Believe(n, old(View()), rtail).1
      ensures ok <==> Sub(old(rhead), rtail) <= n || old(tailStrikes) + 1 >= DEPTH_STRIKES
      ensures rhead == if ok && Sub(old(rhead), rtail) > n then rtail else old(rhead)
    {
      if Sub(rhead, rtail) <= n {
        tailStrikes := 0;
        return true;
      }
      tailStrikes := tailStrikes + 1;
      if tailStrikes < DEPTH_STRIKES {
        return false;
      }
      tailStrikes := 0;
      rhead := rtail;
      return true;
    }

    method SendReply(rtail: U32, tag: Tag) returns (sent: Sent)
      requires Valid()
      modifies this`tailStrikes, this`rhead, this`replies
      ensures Valid() && View() == Send(n, old(View()), rtail, tag).0 && sent == Send(n, old(View()), rtail, tag).1
    {
      var believed := TailBelieved(rtail);
      if !believed {
        return SentDepth;
      }
      var used := Sub(rhead, rtail);
      if used > n {
        return SentFull;
      }
      if used == n {
        return SentFull;
      }
      rhead := Add(rhead, 1);
      replies := replies + [tag];
      return SentOk;
    }

    method RecordAnswerPair(rtails: seq<U32>)
      requires Valid()
      modifies this`tailStrikes, this`rhead, this`replies, this`unsent, recs
      ensures Valid() && View() == AnswerPair(n, old(View()), 0, rtails)
    {
      hide Send, Sub, Slots, Drop, Defer;
      var i: nat := 0;
      while i < n
        invariant i <= n && Valid()
        invariant AnswerPair(n, View(), i, rtails) == AnswerPair(n, old(View()), 0, rtails)
      {
        ghost var v := View();
        var r := recs[i];
        if r.live {
          if r.pending != PendingNone {
            recs[i] := r.(pending := PendingGone);
          } else {
            unsent := unsent + 1;
            var sent := SendReply(LoadAt(rtails, i), r.tag);
            recs[i] := if sent.SentOk? then Drop(r) else Defer(r, PendingGone);
          }
        }
        assert View() == AnswerOne(n, v, i, LoadAt(rtails, i));
        i := i + 1;
      }
    }

    /** The far head believed or refused, with the strike bound that resynchronises the ring. */
    method CheckDepth(head: U32, rtails: seq<U32>) returns (ok: bool)
      requires Valid()
      modifies this, recs
      ensures Valid() && View() == DepthOk(n, old(View()), head, rtails).0 && ok == DepthOk(n, old(View()), head, rtails).1
      ensures ok <==> Sub(head, old(tail)) <= n && Sub(head, old(taken)) <= n
      ensures !ok && old(strikes) + 1 >= DEPTH_STRIKES ==> tail == head && taken == head && strikes == 0
      ensures ok || old(strikes) + 1 < DEPTH_STRIKES ==> tail == old(tail) && taken == old(taken) && released == old(released)
    {
      hide AnswerPair, Sub, Add;
      RunEnd(taken, tail);
      assert Taken(View()) == taken;
      var deepest := Sub(head, tail);
      var unread := Sub(head, taken);
      if unread > deepest {
        deepest := unread;
      }
      if deepest <= n {
        strikes := 0;
        return true;
      }
      strikes := strikes + 1;
      if strikes >= DEPTH_STRIKES {
        strikes := 0;
        tail := head;
        taken := head;
        released := seq(32, _ => false);
        NoRun(head);
        ghost var v := View();
        assert v == old(View()).(strikes := 0, tail := head, flags := []);
        RecordAnswerPair(rtails);
      }
      return false;
    }

    /** Whether the reply ring has room for one more answer than this node already owes. */
    method ReplyReserved(rtail: U32) returns (ok: bool)
      requires Valid()
      modifies this`tailStrikes, this`rhead
      ensures Valid() && View() == Reserved(n, old(View()), rtail).0 && ok == Reserved(n, old(View()), rtail).1
    {
      hide Sub, Believe, Owed;
      ghost var p := View();
      var owed: nat, replied: nat, i: nat := 0, 0, 0;
      var held := Sub(taken, tail);
      while i < n
        invariant i <= n && owed == CountGone(recs[..i]) && replied == Count(released[..i])
        modifies {}
      {
        GoneNext(recs[..], i);
        CountNext(released, i);
        if recs[i].pending == PendingGone {
          owed := owed + 1;
        }
        if released[i] {
          replied := replied + 1;
        }
        i := i + 1;
      }
      CountTail(released, held, n);
      assert recs[..n] == recs[..];
      assert CountGone(recs[..n]) == CountGone(p.recs) && Count(released[..n]) == Count(p.flags);
      if held > replied {
        owed := owed + (held - replied);
      }
      OwedIs(p, held, replied, owed);
      var believed := TailBelieved(rtail);
      if !believed {
        return false;
      }
      BelieveOwed(n, p, rtail);
      var used := Sub(rhead, rtail);
      if used >= n {
        return false;
      }
      return n - used > owed;
    }

    method Take(head: U32, h: Header, rtail: U32, rtails: seq<U32>) returns (v: Verdict, slot: nat)
      requires Valid()
      modifies this, recs
      ensures Valid() && (View(), v) == TakeCall(n, mint, old(View()), head, h, rtail, rtails)
      ensures Judges(n, mint, old(View()), head, h, rtail, v)
      ensures v == Took ==> slot == old(taken) % n && taken == Add(old(taken), 1) && tail == old(tail)
      ensures v == Length || v == Port || v == Class ==> taken == Add(old(taken), 1)
      ensures v == Empty || v == Reserve ==> taken == old(taken) && tail == old(tail)
    {
      hide Sub, Add, AnswerPair, Release, Reserved, DepthOk, Judges;
      ghost var p := View();
      DepthMeans(n, p, head, rtails);
      TakeJudges(n, mint, p, head, h, rtail, rtails);
      RunEnd(taken, tail);
      slot := 0;
      var ok := CheckDepth(head, rtails);
      if !ok {
        return Depth, slot;
      }
      RunEnd(taken, tail);
      EndOfRun(head, taken);
      if Sub(head, taken) == 0 {
        return Empty, slot;
      }
      var at := taken;
      ghost var q := View();
      OneMore(n, q, head, taken);
      ReadAhead(released, q.flags);
      v := SlotOk(mint, h);
      if v != Took {
        taken := Add(at, 1);
        assert View() == q.(flags := q.flags + [false]);
        var moved := ReleaseOn(at % n);
        return;
      }
      var room := ReplyReserved(rtail);
      ReservedSame(n, q, rtail);
      if !room {
        return Reserve, slot;
      }
      taken := Add(at, 1);
      slot := at % n;
    }

    /** Seats a record for a held call, or answers that its slot's record is taken. */
    method Seat(slot: nat, tag: Tag) returns (ok: bool)
      requires Valid() && slot < n
      modifies recs
      ensures Valid() && ok == !old(recs[slot].live)
      ensures var r := old(recs[slot]).(tag := tag, slot := slot, live := true);
              View() == if ok then SetRec(old(View()), slot, r) else old(View())
    {
      if recs[slot].live {
        return false;
      }
      recs[slot] := recs[slot].(tag := tag, slot := slot, live := true);
      return true;
    }

    /** One taken call: a record where a receiver takes it, else answered here and its slot released. */
    method DispatchCall(slot: nat, tag: Tag, deliver: bool, rtail: U32)
      requires Valid() && slot < n
      modifies this, recs
      ensures Valid() && View() == Dispatch(n, old(View()), slot, tag, deliver, rtail)
    {
      hide Send, Release;
      if deliver {
        var ok := Seat(slot, tag);
        if ok {
          return;
        }
      }
      var sent := SendReply(rtail, tag);
      var moved := ReleaseOn(slot);
    }

    /** Publishes the answer to the record `token` names and releases its slot; a refused one is
        deferred with its token dead. */
    method InboundReply(base: nat, token: nat, len: nat, rtail: U32)
      requires Valid()
      modifies this, recs
      ensures Valid() && View() == Reply(n, mint, old(View()), base, token, len, rtail)
    {
      hide Send, Release;
      var index := token % 0x1_0000;
      if index < base || index >= base + n {
        return;
      }
      var i := index - base;
      var r := recs[i];
      if !r.live || r.gen % 0x1_0000 != (token / 0x1_0000) % 0x1_0000 {
        return;
      }
      var sent := SentLength;
      if len <= mint.bytes {
        sent := SendReply(rtail, r.tag);
      }
      if sent.SentOk? {
        recs[i] := Drop(r);
        var moved := ReleaseOn(r.slot);
        return;
      }
      unsent := unsent + 1;
      recs[i] := Defer(r, PendingHeld);
    }

    /** The answers a refused publication deferred, tried again in slot order. */
    method AnswerDeferred(rtails: seq<U32>)
      requires Valid()
      modifies this, recs
      ensures Valid() && View() == Retry(n, old(View()), 0, rtails)
    {
      hide Send, Release, Sub, Slots;
      var i: nat := 0;
      while i < n
        invariant i <= n && Valid()
        invariant Retry(n, View(), i, rtails) == Retry(n, old(View()), 0, rtails)
      {
        var on := RetrySlot(i, LoadAt(rtails, i));
        if !on {
          return;
        }
        i := i + 1;
      }
    }

    method RetrySlot(i: nat, rtail: U32) returns (on: bool)
      requires Valid() && i < n
      modifies this, recs
      ensures Valid() && View() == RetryOne(n, old(View()), i, rtail).0 && on == RetryOne(n, old(View()), i, rtail).1
    {
      hide Send, Release, Sub;
      if recs[i].pending == PendingNone {
        return true;
      }
      var sent := SendReply(rtail, recs[i].tag);
      if !sent.SentOk? {
        recs[i] := recs[i].(defers := recs[i].defers + 1);
        if recs[i].defers < DEFER_PASSES {
          return false;
        }
      }
      var r := recs[i];
      recs[i] := Drop(r);
      assert recs[..] == old(recs[..])[i := Drop(r)];
      if r.pending != PendingGone {
        var moved := ReleaseOn(r.slot);
      }
      return true;
    }
  }

  lemma LeadGrows(s: seq<bool>, k: nat)
    requires k < |s| && s[k] && k <= Lead(s)
    ensures k + 1 <= Lead(s)
  {
  }

  lemma LeadEnds(s: seq<bool>, k: nat, more: bool)
    requires k <= Lead(s) && !more && (k < |s| ==> more == s[k])
    ensures k == Lead(s)
  {
  }

  lemma NextIndex(taken: U32, tail: U32, was: U32, k: nat)
    requires tail == Add(was, k) && taken != tail
    ensures Add(tail, 1) == Add(was, k + 1) && Sub(taken, Add(tail, 1)) == Sub(taken, tail) - 1 && Sub(taken, tail) > 0
  {
    AddAdd(was, k, 1);
    SubNext(taken, tail);
  }

  lemma StartIndex(tail: U32)
    ensures Add(tail, 0) == tail
  {
  }

  lemma SameIndex(taken: U32, tail: U32)
    ensures Sub(taken, tail) == 0 <==> taken == tail
  {
  }

  lemma MovedIff(was: U32, k: nat)
    requires k <= 32
    ensures Add(was, k) != was <==> k > 0
  {
  }

  lemma RunEnd(taken: U32, tail: U32)
    ensures Add(tail, Sub(taken, tail)) == taken
  {
    AddSub(tail, taken);
  }

  lemma NoRun(head: U32)
    ensures Sub(head, head) == 0
  {
  }

  lemma EndOfRun(head: U32, taken: U32)
    ensures Sub(head, taken) == 0 <==> head == taken
  {
  }

  lemma {:induction false} GoneNext(s: seq<Record>, i: nat)
    requires i < |s|
    ensures CountGone(s[..i + 1]) == CountGone(s[..i]) + if s[i].pending == PendingGone then 1 else 0
  {
    if i > 0 {
      assert s[..i + 1][1..] == s[1..][..i] && s[..i][1..] == s[1..][..i - 1];
      GoneNext(s[1..], i - 1);
    }
  }

  lemma {:induction false} CountNext(s: seq<bool>, i: nat)
    requires i < |s|
    ensures Count(s[..i + 1]) == Count(s[..i]) + if s[i] then 1 else 0
  {
    if i > 0 {
      assert s[..i + 1][1..] == s[1..][..i] && s[..i][1..] == s[1..][..i - 1];
      CountNext(s[1..], i - 1);
    }
  }

  /** Bits past the run are clear and count for nothing. */
  lemma {:induction false} CountTail(s: seq<bool>, held: nat, n: nat)
    requires held <= n <= |s| && forall i :: held <= i < |s| ==> !s[i]
    ensures Count(s[..n]) == Count(s[..held])
    decreases n
  {
    if held < n {
      CountNext(s, n - 1);
      CountTail(s, held, n - 1);
    }
  }

  lemma OwedIs(p: Pair, held: nat, replied: nat, owed: nat)
    requires held == |p.flags| && replied == Count(p.flags) && owed == CountGone(p.recs) + held - replied
    ensures owed == Owed(p)
  {
  }

  lemma BelieveOwed(n: nat, p: Pair, rtail: U32)
    ensures Owed(Believe(n, p, rtail).0) == Owed(p)
  {
  }

  lemma ReservedSame(n: nat, p: Pair, rtail: U32)
    ensures Reserved(n, p, rtail).0.flags == p.flags && Reserved(n, p, rtail).0.tail == p.tail
  {
  }

  lemma DepthMeans(n: nat, p: Pair, head: U32, rtails: seq<U32>)
    ensures var (q, ok) := DepthOk(n, p, head, rtails);
            ok ==> q == p.(strikes := 0) && Sub(head, p.tail) <= n && Sub(head, Taken(p)) <= n
  {
  }

  /** With something unread under a credible head the run has room for one more. */
  lemma OneMore(n: nat, p: Pair, head: U32, taken: U32)
    requires Slots(n) && |p.flags| <= n && taken == Taken(p) && Sub(taken, p.tail) == |p.flags|
    requires Sub(head, p.tail) <= n && Sub(head, taken) <= n && Sub(head, taken) != 0
    ensures |p.flags| < n && Sub(Add(taken, 1), p.tail) == |p.flags| + 1
  {
    SubSum(head, taken, p.tail);
    AddAdd(p.tail, |p.flags|, 1);
    SubAdd(p.tail, |p.flags| + 1);
  }

  lemma ReadAhead(bits: seq<bool>, flags: seq<bool>)
    requires |flags| < |bits| && flags == bits[..|flags|] && !bits[|flags|]
    ensures bits[..|flags| + 1] == flags + [false]
  {
  }
}
