/** The held-record store in the disarmed console ring's storage (kernel/init/console_tx.cc),
    rearranged in place. */
module HeldStore {
  import R = HeldRecords
  import opened HeldRecords
  import opened HeldTheory
  import opened HeldRun
  import opened HeldBytes

  class Held {
    const buf: array<Byte>
    var head: nat
    var open: nat
    var tail: nat
    var taken: nat
    var armed: bool
    var changing: bool
    ghost var store: Store

    ghost predicate Valid()
      reads this, buf
    {
      Laid(buf[..], store, tail, open, head, taken) && StoreOk(store)
    }

    /** What a panic may find between any two stores of an operation, unless it finds `changing` set. */
    ghost predicate Readable()
      reads this, buf
    {
      Laid(buf[..], store, tail, open, head, taken)
    }

    constructor (b: array<Byte>)
      ensures buf == b && !armed && !changing
    {
      buf := b;
      armed, changing := false, false;
    }

    /** An empty store over `b`. */
    static method Create(b: array<Byte>) returns (h: Held)
      ensures fresh(h) && h.Valid() && h.buf == b && !h.armed && !h.changing && h.store == Store(0, [], 0, [])
    {
      hide Laid, StoreOk;
      h := new Held(b);
      h.Clear();
    }

    /** The marker of the open record with that key, or else that id; `head` for none. */
    method FindMark(byKey: bool, value: nat) returns (at: nat)
      requires Valid()
      ensures var m := if byKey then MarkOf(store.entries, value) else MarkOfId(store.entries, value);
              at == open + SizeAll(store.entries[..m])
    {
      hide Fit, At, EntryOk, StoreOk, Enc, EncRecords, EncAll, Text, MarkOf, MarkOfId, SizeAll;
      ghost var es, b := store.entries, buf[..];
      WalkStart(es);
      at := open;
      ghost var i := 0;
      WalkStep(b, open, head, es, 0);
      var size := Fit(buf[..], at, head);
      while size != 0
        invariant i <= |es| && at == open + SizeAll(es[..i])
        invariant size == Fit(b, at, head) == if i == |es| then 0 else Size(es[i])
        invariant forall j :: 0 <= j < i && es[j].Mark? ==> (if byKey then es[j].key else es[j].id) != value
        decreases |es| - i
      {
        WalkStep(b, open, head, es, i);
        EntryAt(b, at, es[i]);
        if buf[at + 1] == 0 {
          var have := Id(buf[at]);
          if byKey {
            have := KeyAt(buf[..], at);
          }
          if have == value {
            return;
          }
        }
        at := at + size;
        i := i + 1;
        WalkStep(b, open, head, es, i);
        size := Fit(buf[..], at, head);
      }
    }

    /** The bytes of the record's lines so far. */
    method RecordBytes(id: nat) returns (bytes: nat)
      requires Valid()
      ensures bytes == |Text(store.entries, id)|
    {
      hide Fit, At, EntryOk, StoreOk, Enc, EncRecords, EncAll, Text, MarkOf, MarkOfId, SizeAll;
      ghost var es, b := store.entries, buf[..];
      WalkStart(es);
      bytes := 0;
      var at := open;
      ghost var i := 0;
      WalkStep(b, open, head, es, 0);
      var size := Fit(buf[..], at, head);
      while size != 0
        invariant i <= |es| && at == open + SizeAll(es[..i])
        invariant size == Fit(b, at, head) == if i == |es| then 0 else Size(es[i])
        invariant bytes == |Text(es[..i], id)|
        decreases |es| - i
      {
        WalkStep(b, open, head, es, i);
        EntryAt(b, at, es[i]);
        TextStep(es, i, id);
        if buf[at + 1] != 0 && Id(buf[at]) == id {
          bytes := bytes + size - 2;
        }
        at := at + size;
        i := i + 1;
        WalkStep(b, open, head, es, i);
        size := Fit(buf[..], at, head);
      }
      assert es[..i] == es;
    }

    // ---- Appending ----

    /** The least id no open record has. */
    method PickId() returns (id: nat)
      requires Valid()
      ensures id == FreeId(store.entries, 0)
    {
      hide Laid, StoreOk, MarkOfId, SizeAll, At, Id;
      id := 0;
      while id != ID_COUNT
        invariant id <= ID_COUNT && FreeId(store.entries, id) == FreeId(store.entries, 0)
        decreases ID_COUNT - id
      {
        var at := FindMark(false, id);
        MarkPlace(buf[..], store, tail, open, head, taken, MarkOfId(store.entries, id));
        if at == head {
          return;
        }
        id := id + 1;
      }
    }

    /** A byte stored past the head changes nothing a reader sees. */
    method Put(at: nat, x: Byte)
      requires Readable() && head <= at < buf.Length
      modifies buf
      ensures Readable() && buf[..] == old(buf[..])[at := x]
    {
      hide Laid;
      ghost var b := buf[..];
      buf[at] := x;
      LaidAhead(b, buf[..], store, tail, open, head, taken);
    }

    method PutMark(id: nat, key: nat)
      requires Valid() && id < ID_COUNT && key < 0x1_0000_0000 && head + 6 <= buf.Length
      requires MarkOf(store.entries, key) == |store.entries| && MarkOfId(store.entries, id) == |store.entries|
      modifies this`head, this`store, buf
      ensures Valid() && store == old(store).(entries := old(store).entries + [Mark(id, false, key)])
      ensures head == old(head) + 6
    {
      hide Laid, StoreOk, MarkOf, MarkOfId, At, Enc;
      ghost var b: seq<Byte> := buf[..];
      Put(head, id);
      Put(head + 1, 0);
      for i := 0 to 4
        modifies buf
        invariant Readable() && buf.Length == |b| && Kept(b, buf[..], head, head + 6)
        invariant buf[head] == id && buf[head + 1] == 0 && forall j :: 0 <= j < i ==> buf[head + 2 + j] == KeyByte(key, j)
      {
        Put(head + 2 + i, KeyByte(key, i));
      }
      MarkStored(buf[..], head, id, key);
      MarkedOk(store, id, key);
      LaidAppended(b, buf[..], store, tail, open, head, taken, Mark(id, false, key));
      head := head + 6;
      store := store.(entries := store.entries + [Mark(id, false, key)]);
    }

    method PutLine(id: nat, text: seq<Byte>)
      requires Valid() && id < ID_COUNT && 1 <= |text| <= 0xFF && head + 2 + |text| <= buf.Length
      requires StoreOk(store.(entries := store.entries + [Line(id, text)]))
      modifies this`head, this`store, buf
      ensures Valid() && store == old(store).(entries := old(store).entries + [Line(id, text)])
    {
      hide Laid, StoreOk, At, Enc, Kept;
      ghost var b: seq<Byte> := buf[..];
      var h := head;
      Put(h, id);
      Put(h + 1, |text|);
      for i := 0 to |text|
        modifies buf
        invariant Readable()
        invariant forall k {:trigger buf[k]} :: 0 <= k < buf.Length ==> buf[k] == LineByte(b, h, id, |text|, text[..i], k)
      {
        Put(h + 2 + i, text[i]);
      }
      assert text[..|text|] == text;
      LineSits(b, buf[..], h, id, text);
      LaidAppended(b, buf[..], store, tail, open, head, taken, Line(id, text));
      head := head + 2 + |text|;
      store := store.(entries := store.entries + [Line(id, text)]);
    }

    /** From here the record drops every line. */
    method SetFull(mark: nat, ghost m: nat)
      requires Valid() && m < |store.entries| && store.entries[m].Mark? && !store.entries[m].full
      requires mark == open + SizeAll(store.entries[..m]) < head
      modifies this`store, buf
      ensures Valid() && store == old(store).(entries := old(store).entries[m := old(store).entries[m].(full := true)])
    {
      hide Laid, StoreOk, At, SizeAll;
      ghost var b: seq<Byte> := buf[..];
      LaidOpen(b, store, tail, open, head, taken);
      MarkPlace(b, store, tail, open, head, taken, m);
      buf[mark] := WithFull(buf[mark]);
      assert buf[..] == b[mark := b[mark] + 0x80];
      LaidFull(b, store, tail, open, head, taken, m);
      store := store.(entries := store.entries[m := store.entries[m].(full := true)]);
    }

    /** Holds one line in `key`'s record, opening it on the first. */
    method Append(key: nat, text: seq<Byte>, max: nat) returns (ok: bool)
      requires Valid() && key < 0x1_0000_0000 && max <= 0xFFFF
      modifies this`head, this`store, buf
      ensures Valid()
      ensures if armed then !ok && store == old(store) else (store, ok) == R.Append(old(store), buf.Length, key, text, max)
    {
      hide Laid, StoreOk, MarkOf, MarkOfId, SizeAll, At, Id, Text, FreeId, R.AppendLine;
      if armed {
        return false;
      }
      ghost var m := MarkOf(store.entries, key);
      var mark := FindMark(true, key);
      MarkPlace(buf[..], store, tail, open, head, taken, m);
      LaidOpen(buf[..], store, tail, open, head, taken);
      if mark == head {
        var id := PickId();
        if id == ID_COUNT || buf.Length - head < 6 {
          return false;
        }
        ghost var was := store.entries;
        PutMark(id, key);
        assert store.entries[..m] == was;
        assert was[..m] == was;
      }
      HoldLine(mark, m, text, max);
      return true;
    }

    /** The line behind the record's others, or from here on none of its lines. */
    method HoldLine(mark: nat, ghost m: nat, text: seq<Byte>, max: nat)
      requires Valid() && max <= 0xFFFF && m < |store.entries| && store.entries[m].Mark?
      requires mark == open + SizeAll(store.entries[..m])
      modifies this`head, this`store, buf
      ensures Valid() && store == R.AppendLine(old(store), buf.Length, m, text, max)
    {
      hide Laid, StoreOk, SizeAll, At, Id, Text;
      MarkPlace(buf[..], store, tail, open, head, taken, m);
      LaidOpen(buf[..], store, tail, open, head, taken);
      assert EntryOk(store.entries[m]);
      AppendLineOk(store, buf.Length, m, text, max);
      if buf[mark] >= 0x80 || |text| == 0 {
        return;
      }
      var id := Id(buf[mark]);
      var bytes := RecordBytes(id);
      if |text| > 0xFF || bytes + |text| > max || buf.Length - head < 2 + |text| {
        SetFull(mark, m);
        return;
      }
      PutLine(id, text);
    }

    // ---- Moving bytes ----

    method MoveDown(dst: nat, from: nat, end: nat)
      requires changing && dst <= from <= end <= buf.Length
      modifies buf
      ensures buf[..] == Moved(old(buf[..]), dst, from, end)
    {
      ghost var b := buf[..];
      var d, f := dst, from;
      while f != end
        invariant from <= f <= end && d - dst == f - from
        invariant forall k {:trigger buf[k]} :: 0 <= k < buf.Length ==> buf[k] == MovedByte(b, dst, from, f - from, k)
        decreases end - f
      {
        buf[d] := buf[f];
        d := d + 1;
        f := f + 1;
      }
      MovedIs(b, buf[..], dst, from, end);
    }

    method Reverse(lo: nat, hi: nat)
      requires changing && lo <= hi <= buf.Length
      modifies buf
      ensures buf[..] == Reversed(old(buf[..]), lo, hi)
    {
      ghost var b := buf[..];
      var l, h := lo, hi;
      while l + 1 < h
        invariant lo <= l && h <= hi && l - lo == hi - h && l <= h + 1
        invariant forall k {:trigger buf[k]} :: 0 <= k < buf.Length ==>
                    buf[k] == if lo <= k < l || h <= k < hi then b[lo + hi - 1 - k] else b[k]
        decreases h - l
      {
        h := h - 1;
        assert lo + hi - 1 - l == h && lo + hi - 1 - h == l;
        var c := buf[l];
        buf[l] := buf[h];
        buf[h] := c;
        l := l + 1;
      }
      ReversedIs(b, buf[..], lo, hi);
    }

    /** The bytes of [at, end) put in front of those of [from, at), by three reversals. */
    method Rotate(from: nat, at: nat, end: nat)
      requires changing && from <= at <= end <= buf.Length
      modifies buf
      ensures buf[..] == Rotated(old(buf[..]), from, at, end)
    {
      hide Reversed;
      ghost var b := buf[..];
      ghost var p, x, y, q := b[..from], b[from..at], b[at..end], b[end..];
      assert b == p + x + y + q;
      Rotates(p, x, y, q);
      Reverse(from, at);
      Reverse(at, end);
      Reverse(from, end);
    }

    // ---- Committing ----

    /** The record's entries brought to the front of the open area in their order, the other
        records' entries behind them in theirs. */
    method Gather(id: nat) returns (gathered: nat)
      requires changing && Valid()
      modifies buf
      ensures AllOk(Only(store.entries, id)) && AllOk(Without(store.entries, id))
      ensures gathered == open + SizeAll(Only(store.entries, id)) && gathered + SizeAll(Without(store.entries, id)) == head
      ensures At(buf[..], open, EncAll(Only(store.entries, id)))
      ensures At(buf[..], gathered, EncAll(Without(store.entries, id)))
      ensures Kept(old(buf[..]), buf[..], open, head)
    {
      hide Fit, At, EntryOk, StoreOk, Enc, EncRecords, EncAll, SizeAll, Only, Without, Laid, Gathered, Id, Rotated, Kept;
      ghost var es, b0 := store.entries, buf[..];
      LaidOpen(b0, store, tail, open, head, taken);
      GatherStart(b0, open, es, id);
      gathered := open;
      var at := open;
      ghost var i := 0;
      GatheredFit(b0, open, head, es, 0, id);
      KeptSame(b0, open, head);
      var size := Fit(buf[..], at, head);
      while size != 0
        invariant i <= |es| && at == open + SizeAll(es[..i]) <= head
        invariant Gathered(buf[..], open, head, es, i, id) && Kept(b0, buf[..], open, head)
        invariant gathered == open + SizeAll(Only(es[..i], id)) <= at
        invariant size == Fit(buf[..], at, head) == if i == |es| then 0 else Size(es[i])
        decreases |es| - i
      {
        ghost var b := buf[..];
        GatheredEntry(b, open, head, es, i, id);
        if Id(buf[at]) == id {
          var end := at + size;
          Rotate(gathered, at, end);
          GatherTaken(b, buf[..], open, head, es, i, id);
          KeptTrans(b0, b, buf[..], open, head);
          gathered := gathered + size;
        } else {
          GatherPassed(b, open, head, es, i, id);
        }
        at := at + size;
        i := i + 1;
        GatheredFit(buf[..], open, head, es, i, id);
        size := Fit(buf[..], at, head);
      }
      assert es[..|es|] == es;
      GatherDone(buf[..], open, head, es, id);
    }

    /** The gathered entries' headers dropped: the record's lines joined, past room for its length. */
    method Squeeze(gathered: nat, ghost g: seq<Entry>, ghost id: nat) returns (dst: nat)
      requires changing && Squeezed(buf[..], open, gathered, g, 0, id) && g != [] && g[0].Mark?
      modifies buf
      ensures dst == open + 2 + |Text(g, id)| <= gathered
      ensures At(buf[..], open + 2, Text(g, id))
      ensures Kept(old(buf[..]), buf[..], open, gathered)
    {
      hide Fit, At, Squeezed, Moved, SizeAll, Text, Kept, Squeezing;
      ghost var b0 := buf[..];
      dst := open + 2;
      var at := open;
      ghost var i: nat := 0;
      SqueezeFit(b0, open, gathered, g, 0, id);
      SqueezeStart(b0, open, gathered, g, id);
      var size := Fit(buf[..], at, gathered);
      while size != 0
        invariant Squeezing(b0, buf[..], open, gathered, g, i, id, at, dst) && gathered <= buf.Length
        invariant size == Fit(buf[..], at, gathered)
        decreases |g| - i
      {
        ghost var b := buf[..];
        SqueezeNow(b0, b, open, gathered, g, i, id, at, dst);
        if buf[at + 1] != 0 {
          MoveDown(dst, at + 2, at + size);
          SqueezeLineStep(b0, b, buf[..], open, gathered, g, i, id, at, dst);
          dst := dst + size - 2;
        } else {
          SqueezeMarkStep(b0, b, open, gathered, g, i, id, at, dst);
        }
        at := at + size;
        i := i + 1;
        size := Fit(buf[..], at, gathered);
      }
      SqueezeEnd(b0, buf[..], open, gathered, g, i, id, at, dst);
    }

    /** Steps past the records the reader has taken whole; with none left the open area moves to the start. */
    method Settle()
      requires changing && Laid(buf[..], store, tail, open, head, taken)
      modifies this`head, this`open, this`tail, this`taken, this`store, buf
      ensures Valid() && store == R.Settle(old(store))
    {
      hide At, Moved, StoreOk, RecordFits, LenAt, Laid;
      while tail != open
        invariant Laid(buf[..], store, tail, open, head, taken) && R.Settle(store) == R.Settle(old(store))
        decreases |store.committed|
      {
        LaidRecord(buf[..], store, tail, open, head, taken);
        if !RecordFits(buf[..], tail, open) {
          assert false;
        }
        var len := LenAt(buf[..], tail);
        assert len == |store.committed[0]|;
        if taken != len {
          SettleLaid(buf[..], store, tail, open, head, taken);
          return;
        }
        SettleLaid(buf[..], store, tail, open, head, taken);
        tail := tail + 2 + len;
        taken := 0;
        store := Store(tail, store.committed[1..], 0, store.entries);
      }
      SettleLaid(buf[..], store, tail, open, head, taken);
      if tail != 0 {
        ghost var b := buf[..];
        MoveDown(0, open, head);
        LaidMoved(b, buf[..], store, tail, open, head, taken);
        head := head - open;
        open := 0;
        tail := 0;
        store := store.(tail := 0);
      }
    }

    /** The record's entries dropped, the others closed up in their order. */
    method Drop(id: nat)
      requires changing && Valid()
      modifies this`head, this`store, buf
      ensures Valid() && store == old(store).(entries := Without(old(store).entries, id))
    {
      hide Fit, At, StoreOk, Laid, SizeAll, Without, Dropping, Moved, Id, Kept, Enc, EncAll, EntryOk;
      ghost var es, b0 := store.entries, buf[..];
      LaidOpen(b0, store, tail, open, head, taken);
      DropStart(b0, open, es, id);
      var dst, at := open, open;
      ghost var i := 0;
      DropFit(b0, open, head, es, 0, id);
      KeptSame(b0, open, head);
      var size := Fit(buf[..], at, head);
      while size != 0
        invariant unchanged(`head) && unchanged(`store) && head <= buf.Length
        invariant i <= |es| && at == open + SizeAll(es[..i]) <= head
        invariant dst == open + SizeAll(Without(es[..i], id)) <= at
        invariant Dropping(buf[..], open, head, es, i, id) && Kept(b0, buf[..], open, head)
        invariant size == Fit(buf[..], at, head) == if i == |es| then 0 else Size(es[i])
        decreases |es| - i
      {
        ghost var b := buf[..];
        DropEntry(b, open, head, es, i, id);
        if Id(buf[at]) != id {
          MoveDown(dst, at, at + size);
          DropKept(b, buf[..], open, head, es, i, id);
          KeptTrans(b0, b, buf[..], open, head);
          dst := dst + size;
        } else {
          DropSkipped(b, open, head, es, i, id);
        }
        at := at + size;
        i := i + 1;
        DropFit(buf[..], open, head, es, i, id);
        size := Fit(buf[..], at, head);
      }
      DropLaid(b0, buf[..], store, tail, open, head, taken, id);
      head := dst;
      store := store.(entries := Without(es, id));
    }

    method Abandon(key: nat)
      requires Valid() && !changing
      modifies this`head, this`open, this`tail, this`taken, this`store, this`changing, buf
      ensures Valid() && store == R.Abandon(old(store), key) && !changing
    {
      hide StoreOk, Laid, R.Settle, MarkOf, Without, SizeAll, At, Id;
      var mark := FindMark(true, key);
      MarkPlace(buf[..], store, tail, open, head, taken, MarkOf(store.entries, key));
      if mark == head {
        return;
      }
      changing := true;
      Drop(Id(buf[mark]));
      LaidOpen(buf[..], store, tail, open, head, taken);
      Settle();
      changing := false;
    }

    /** The other records' entries moved down behind the joined lines, and their length written in front. */
    method CloseUp(gathered: nat, end: nat, ghost b0: seq<Byte>, ghost id: nat)
      requires changing && Laid(b0, store, tail, open, head, taken) && StoreOk(store)
      requires Kept(b0, buf[..], open, head) && Joins(buf[..], open, gathered, head, store.entries, id)
      requires end == open + 2 + |Text(store.entries, id)| <= gathered <= head
      modifies this`head, this`open, this`store, buf
      ensures Laid(buf[..], store, tail, open, head, taken)
      ensures store == Closed(old(store), id)
    {
      hide StoreOk, Laid, Only, Without, Text, SizeAll, At, Kept, Moved, EncAll, EncRecords, Joins, R.Settle, Closed;
      ghost var b1, s := buf[..], store;
      KeptLen(b0, b1, open, head);
      LaidOpen(b0, store, tail, open, head, taken);
      var dst := end;
      var len := dst - open - 2;
      if len == 0 {
        dst := open;
      }
      MoveDown(dst, gathered, head);
      ghost var b2: seq<Byte> := buf[..];
      if len != 0 {
        ClosedText(b0, b1, s, tail, open, gathered, head, taken, id);
        var lo: Byte, hi: Byte := len % 256, len / 256;
        buf[open] := lo;
        buf[open + 1] := hi;
        assert buf[..] == b2[open := lo][open + 1 := hi];
      } else {
        ClosedEmpty(b0, b1, s, tail, open, gathered, head, taken, id);
      }
      head := head - (gathered - dst);
      if len != 0 {
        open := dst;
      }
      store := Closed(s, id);
    }

    /** The record closed: its lines become the last committed record, or nothing if it has none. */
    method Commit(key: nat) returns (found: bool)
      requires Valid() && !changing
      modifies this`head, this`open, this`tail, this`taken, this`store, this`changing, buf
      ensures Valid() && (store, found) == R.Commit(old(store), key) && !changing
    {
      hide StoreOk, Laid, R.Settle, MarkOf, Only, Without, Text, SizeAll, At, Id, Kept, Moved, EncAll, EncRecords, Squeezed;
      var mark := FindMark(true, key);
      MarkPlace(buf[..], store, tail, open, head, taken, MarkOf(store.entries, key));
      if mark == head {
        return false;
      }
      changing := true;
      var id := Id(buf[mark]);
      ghost var b0 := buf[..];
      ghost var es, g, o := store.entries, Only(store.entries, id), Without(store.entries, id);
      LaidOpen(b0, store, tail, open, head, taken);
      var gathered := Gather(id);
      ghost var b1 := buf[..];
      OnlyMarked(store, key, b1, open, gathered, id);
      var dst := Squeeze(gathered, g, id);
      AtKept(b1, buf[..], open, gathered, gathered, EncAll(o));
      KeptWider(b1, buf[..], open, gathered, open, head);
      KeptTrans(b0, b1, buf[..], open, head);
      CloseUp(gathered, dst, b0, id);
      found := true;
      Settle();
      changing := false;
    }

    // ---- Reading ----

    /** How much of the first committed record is left to take. */
    method Ready() returns (n: nat)
      requires Valid()
      ensures n == R.Ready(store)
    {
      hide StoreOk, At, RecordFits, LenAt;
      LaidFirst(buf[..], store, tail, open, head, taken);
      if !RecordFits(buf[..], tail, open) || taken >= LenAt(buf[..], tail) {
        return 0;
      }
      return LenAt(buf[..], tail) - taken;
    }

    /** Where it starts: what a reader is shown is the front of what is pending. */
    method Data() returns (at: nat)
      requires Valid()
      ensures R.Ready(store) != 0 ==>
              at + R.Ready(store) <= buf.Length && buf[at..at + R.Ready(store)] == Pending(store)[..R.Ready(store)]
    {
      hide RecordFits, LenAt, Wf;
      LaidFirst(buf[..], store, tail, open, head, taken);
      at := tail + 2 + taken;
      if store.committed != [] {
        ghost var r := store.committed[0];
        assert buf[..][tail + 2..tail + 2 + |r|][taken..] == r[taken..];
        assert buf[..][tail + 2..tail + 2 + |r|][taken..] == buf[at..at + R.Ready(store)];
        assert Flat(store.committed) == r + Flat(store.committed[1..]);
        assert Pending(store)[..R.Ready(store)] == r[taken..];
      }
    }

    method Take(n: nat)
      requires Valid() && n <= R.Ready(store) && !changing
      modifies this`head, this`open, this`tail, this`taken, this`store, this`changing, buf
      ensures Valid() && store == R.Take(old(store), n) && !changing
    {
      hide At, Wf;
      taken := taken + n;
      store := store.(taken := taken);
      changing := true;
      Settle();
      changing := false;
    }

    /** Empties the store, unless it is being changed. */
    method Clear()
      modifies this`head, this`open, this`tail, this`taken, this`store
      ensures changing ==>
              head == old(head) && open == old(open) && tail == old(tail) && taken == old(taken) && store == old(store)
      ensures !changing ==> Valid() && store == Store(0, [], 0, [])
    {
      hide Laid, StoreOk;
      if changing {
        return;
      }
      head, open, tail, taken := 0, 0, 0, 0;
      store := Store(0, [], 0, []);
      EmptyLaid(buf[..], store);
    }

    // ---- A panic's write ----

    /** The first committed record from the line after its reader's cut, then the rest whole. */
    method WriteCommitted() returns (out: seq<Byte>)
      requires Readable()
      ensures out == CommittedText(store)
    {
      hide At, RecordFits, LenAt, EncRecords, CutFrom, CommittedFrom, RestText, CommittedText;
      ghost var b, rs := buf[..], store.committed;
      var at := tail;
      ghost var k: nat := 0;
      out := [];
      CommittedStart(b, store, tail, open, head, taken);
      while RecordFits(buf[..], at, open)
        invariant k <= |rs| && tail <= at <= open <= buf.Length && (at == tail <==> k == 0)
        invariant CommittedFrom(b, at, open, rs, k)
        invariant out + RestText(store, k) == CommittedText(store)
        decreases |rs| - k
      {
        CommittedNext(b, at, open, rs, k);
        var len := LenAt(buf[..], at);
        var from, end := at + 2, at + 2 + len;
        CutNone(rs[k]);
        if at == tail && taken != 0 {
          CutBound(store);
          from := SkipCut(at + 2, len, rs[0]);
        }
        OutNext(b, store, k, out, at, from);
        out := out + buf[from..end];
        at := end;
        k := k + 1;
      }
      CommittedEnd(b, at, open, rs, k);
      RestEnd(store, out);
    }

    /** Past the line of a record that its reader was cut in. */
    method SkipCut(start: nat, len: nat, ghost r: seq<Byte>) returns (from: nat)
      requires start + len <= buf.Length && buf[start..start + len] == r && 0 < taken <= len
      ensures start <= from <= start + len && from - start == CutFrom(r, taken)
    {
      from := start + taken;
      assert buf[from - 1] == r[taken - 1];
      if buf[from - 1] != NEWLINE {
        var end := start + len;
        while from != end && buf[from] != NEWLINE
          invariant start + taken <= from <= end && CutScan(r, from - start) == CutScan(r, taken)
          decreases end - from
        {
          assert buf[from] == r[from - start];
          from := from + 1;
        }
        if from != end {
          assert buf[from] == r[from - start];
          from := from + 1;
        }
      }
    }

    /** The lines of record `id` from an entry on. */
    method WriteLines(start: nat, id: nat, ghost i: nat) returns (out: seq<Byte>)
      requires Readable() && i <= |store.entries| && start == open + SizeAll(store.entries[..i])
      ensures out == Text(store.entries[i..], id)
    {
      hide Fit, At, EntryOk, StoreOk, Enc, EncRecords, EncAll, SizeAll, Text, Id;
      ghost var es, b := store.entries, buf[..];
      out := [];
      var at := start;
      ghost var j := i;
      WalkStep(b, open, head, es, j);
      var size := Fit(buf[..], at, head);
      assert [] + Text(es[i..], id) == Text(es[i..], id);
      while size != 0
        invariant i <= j <= |es| && at == open + SizeAll(es[..j])
        invariant size == Fit(b, at, head) == if j == |es| then 0 else Size(es[j])
        invariant out + Text(es[j..], id) == Text(es[i..], id)
        decreases |es| - j
      {
        WalkStep(b, open, head, es, j);
        EntryAt(b, at, es[j]);
        TextRest(es, j, id);
        if buf[at + 1] != 0 && Id(buf[at]) == id {
          assert buf[at + 2..at + size] == es[j].text by {
            AtIs(b, at + 2, es[j].text);
          }
          assert out + (es[j].text + Text(es[j + 1..], id)) == (out + es[j].text) + Text(es[j + 1..], id);
          out := out + buf[at + 2..at + size];
        }
        at := at + size;
        j := j + 1;
        WalkStep(b, open, head, es, j);
        size := Fit(buf[..], at, head);
      }
      TextEnd(es, id);
    }

    /** Each open record's lines, records in the order they opened. */
    method WriteOpen() returns (out: seq<Byte>)
      requires Readable()
      ensures out == Joined(OpenRecords(store.entries))
    {
      hide Fit, At, EntryOk, StoreOk, Enc, EncRecords, EncAll, SizeAll, Text, Id, OpenIn, Joined;
      ghost var es, b := store.entries, buf[..];
      out := [];
      var at := open;
      ghost var i := 0;
      WalkStart(es);
      WalkStep(b, open, head, es, 0);
      var size := Fit(buf[..], at, head);
      assert es[0..] == es;
      while size != 0
        invariant i <= |es| && at == open + SizeAll(es[..i])
        invariant size == Fit(b, at, head) == if i == |es| then 0 else Size(es[i])
        invariant out + Joined(OpenIn(es[i..], es)) == Joined(OpenIn(es, es))
        decreases |es| - i
      {
        WalkStep(b, open, head, es, i);
        EntryAt(b, at, es[i]);
        OpenRest(es, i);
        if buf[at + 1] == 0 {
          ghost var rest := Joined(OpenIn(es[i + 1..], es));
          var lines := WriteLines(at + size, Id(buf[at]), i + 1);
          TextAfterMark(store, i);
          assert out + (lines + rest) == (out + lines) + rest;
          out := out + lines;
        }
        at := at + size;
        i := i + 1;
        WalkStep(b, open, head, es, i);
        size := Fit(buf[..], at, head);
      }
      OpenEnd(es);
      assert out + [] == out;
    }

    /** Writes what is held and changes nothing; nothing where the store was being changed. */
    method WriteSync() returns (out: seq<Byte>)
      requires changing || Readable()
      ensures out == if changing then [] else Written(store)
    {
      if changing {
        return [];
      }
      var committed := WriteCommitted();
      var lines := WriteOpen();
      return committed + lines;
    }
  }

  lemma EmptyLaid(b: seq<Byte>, s: Store)
    requires s.tail == 0 && s.committed == [] && s.taken == 0 && s.entries == []
    ensures Laid(b, s, 0, 0, 0, 0) && StoreOk(s)
  {
    assert b[0..0] == [];
    assert Wf(s.entries) by {
      assert forall id {:trigger Text(s.entries, id)} :: Text(s.entries, id) == [];
    }
  }

  lemma WalkStart(es: seq<Entry>)
    ensures SizeAll(es[..0]) == 0 && forall id {:trigger Text(es[..0], id)} :: Text(es[..0], id) == []
  {
  }

  lemma TextStep(es: seq<Entry>, i: nat, id: nat)
    requires i < |es|
    ensures Text(es[..i + 1], id) == Text(es[..i], id) + (if es[i].Line? && es[i].id == id then es[i].text else [])
  {
    assert es[..i + 1] == es[..i] + [es[i]];
    TextAppend(es[..i], [es[i]], id);
  }

  /** Byte `k` once the first `n` bytes from `from` are moved down to `dst`. */
  function MovedByte(b: seq<Byte>, dst: nat, from: nat, n: nat, k: nat): Byte
    requires dst <= from && from + n <= |b| && k < |b|
  {
    if dst <= k < dst + n then b[k + (from - dst)] else b[k]
  }

  lemma MovedIs(b: seq<Byte>, c: seq<Byte>, dst: nat, from: nat, end: nat)
    requires dst <= from <= end <= |b| == |c|
    requires forall k {:trigger c[k]} :: 0 <= k < |c| ==> c[k] == MovedByte(b, dst, from, end - from, k)
    ensures c == Moved(b, dst, from, end)
  {
    var m := Moved(b, dst, from, end);
    forall k | 0 <= k < |c|
      ensures c[k] == m[k]
    {
    }
  }

  lemma ReversedIs(b: seq<Byte>, c: seq<Byte>, lo: nat, hi: nat)
    requires lo <= hi <= |b| == |c|
    requires forall k {:trigger c[k]} :: 0 <= k < |c| ==> c[k] == if lo <= k < hi then b[lo + hi - 1 - k] else b[k]
    ensures c == Reversed(b, lo, hi)
  {
    var m := Reversed(b, lo, hi);
    forall k | 0 <= k < |c|
      ensures c[k] == m[k]
    {
      if lo <= k < hi {
        assert m[k] == Rev(b[lo..hi])[k - lo] == b[lo..hi][hi - 1 - k];
      }
    }
  }

  lemma LaidOpen(b: seq<Byte>, s: Store, tail: nat, open: nat, head: nat, taken: nat)
    requires Laid(b, s, tail, open, head, taken)
    ensures AllOk(s.entries) && open + SizeAll(s.entries) == head <= |b| && At(b, open, EncAll(s.entries))
    ensures head == HeadAt(s)
  {
  }

  // ---- The gathering loop ----

  /** After `i` entries: the record's own, then the others passed, then those not yet seen. */
  ghost predicate Gathered(b: seq<Byte>, open: nat, head: nat, es: seq<Entry>, i: nat, id: nat)
    requires i <= |es|
  {
    var g, o := Only(es[..i], id), Without(es[..i], id);
    && AllOk(es) && AllOk(g) && AllOk(o)
    && open + SizeAll(es) == head <= |b|
    && SizeAll(g) + SizeAll(o) == SizeAll(es[..i])
    && At(b, open, EncAll(g))
    && At(b, open + SizeAll(g), EncAll(o))
    && At(b, open + SizeAll(es[..i]), EncAll(es[i..]))
  }

  lemma GatherStart(b: seq<Byte>, open: nat, es: seq<Entry>, id: nat)
    requires AllOk(es) && open + SizeAll(es) <= |b| && At(b, open, EncAll(es))
    ensures Gathered(b, open, open + SizeAll(es), es, 0, id) && SizeAll(es[..0]) == 0 && SizeAll(Only(es[..0], id)) == 0
  {
    assert es[0..] == es && es[..0] == [];
  }

  lemma GatheredEntry(b: seq<Byte>, open: nat, head: nat, es: seq<Entry>, i: nat, id: nat)
    requires i < |es| && Gathered(b, open, head, es, i, id)
    ensures var at := open + SizeAll(es[..i]);
            && at + Size(es[i]) <= head <= |b| && Id(b[at]) == es[i].id
            && At(b, at, Enc(es[i])) && At(b, at + Size(es[i]), EncAll(es[i + 1..]))
            && SizeAll(es[..i + 1]) == SizeAll(es[..i]) + Size(es[i])
  {
    hide At, Enc, EncAll, SizeAll, Fit, Id, EntryOk, Size, Only, Without;
    var at := open + SizeAll(es[..i]);
    SizeStep(es, i);
    assert es == es[..i] + es[i..];
    SizeAppend(es[..i], es[i..]);
    FitNext(b, at, head, es[i..]);
    assert es[i..][1..] == es[i + 1..];
    EntryAt(b, at, es[i]);
  }

  lemma GatheredFit(b: seq<Byte>, open: nat, head: nat, es: seq<Entry>, i: nat, id: nat)
    requires i <= |es| && Gathered(b, open, head, es, i, id)
    ensures open + SizeAll(Only(es[..i], id)) <= open + SizeAll(es[..i]) <= head <= |b|
    ensures Fit(b, open + SizeAll(es[..i]), head) == if i == |es| then 0 else Size(es[i])
  {
    hide At, Enc, EncAll, SizeAll, Fit, EntryOk, Size, Only, Without;
    assert es == es[..i] + es[i..];
    SizeAppend(es[..i], es[i..]);
    FitNext(b, open + SizeAll(es[..i]), head, es[i..]);
  }

  lemma GatherTaken(b: seq<Byte>, b': seq<Byte>, open: nat, head: nat, es: seq<Entry>, i: nat, id: nat)
    requires i < |es| && es[i].id == id && Gathered(b, open, head, es, i, id)
    requires var from, at := open + SizeAll(Only(es[..i], id)), open + SizeAll(es[..i]);
             from <= at && at + Size(es[i]) <= |b| && b' == Rotated(b, from, at, at + Size(es[i]))
    ensures Gathered(b', open, head, es, i + 1, id) && Kept(b, b', open, head)
    ensures SizeAll(Only(es[..i + 1], id)) == SizeAll(Only(es[..i], id)) + Size(es[i])
  {
    hide At, Enc, EncAll, SizeAll, Id, EntryOk, Size, Only, Without;
    var e, g, o := es[i], Only(es[..i], id), Without(es[..i], id);
    var from, at := open + SizeAll(g), open + SizeAll(es[..i]);
    GatheredEntry(b, open, head, es, i, id);
    OnlyStep(es, i, id);
    AtIs(b, at, Enc(e));
    AtIs(b, from, EncAll(o));
    PartsAt(b', b[..from], Enc(e), EncAll(o), b[at + Size(e)..]);
    assert Kept(b, b', from, at + Size(e));
    AtKept(b, b', from, at + Size(e), open, EncAll(g));
    AtKept(b, b', from, at + Size(e), at + Size(e), EncAll(es[i + 1..]));
    KeptWider(b, b', from, at + Size(e), open, head);
    EncOne(g, e);
    AtSplit(b', open, EncAll(g), Enc(e));
    assert o + [] == o;
  }

  lemma AtIs(b: seq<Byte>, from: nat, x: seq<Byte>)
    requires At(b, from, x)
    ensures from + |x| <= |b| && b[from..from + |x|] == x
  {
  }

  lemma GatherPassed(b: seq<Byte>, open: nat, head: nat, es: seq<Entry>, i: nat, id: nat)
    requires i < |es| && es[i].id != id && Gathered(b, open, head, es, i, id)
    ensures Gathered(b, open, head, es, i + 1, id)
    ensures SizeAll(Only(es[..i + 1], id)) == SizeAll(Only(es[..i], id))
  {
    hide At, Enc, EncAll, SizeAll, Id, EntryOk, Size, Only, Without;
    var e, g, o := es[i], Only(es[..i], id), Without(es[..i], id);
    GatheredEntry(b, open, head, es, i, id);
    OnlyStep(es, i, id);
    EncOne(o, e);
    AtSplit(b, open + SizeAll(g), EncAll(o), Enc(e));
    assert g + [] == g;
  }

  lemma GatherDone(b: seq<Byte>, open: nat, head: nat, es: seq<Entry>, id: nat)
    requires Gathered(b, open, head, es, |es|, id)
    ensures AllOk(Only(es, id)) && AllOk(Without(es, id))
    ensures At(b, open, EncAll(Only(es, id))) && At(b, open + SizeAll(Only(es, id)), EncAll(Without(es, id)))
    ensures SizeAll(Only(es, id)) + SizeAll(Without(es, id)) == SizeAll(es)
  {
    hide At, EncAll, SizeAll, Only, Without, AllOk;
    assert es[..|es|] == es;
  }

  // ---- The squeezing loop ----

  /** After `i` of one record's entries: their lines joined, and the entries not yet seen. */
  ghost predicate Squeezed(b: seq<Byte>, open: nat, end: nat, g: seq<Entry>, i: nat, id: nat)
    requires i <= |g|
  {
    && AllOk(g) && (forall k :: 0 <= k < |g| ==> g[k].id == id)
    && open + SizeAll(g) == end <= |b|
    && (i > 0 ==> At(b, open + 2, Text(g[..i], id)))
    && At(b, open + SizeAll(g[..i]), EncAll(g[i..]))
  }

  lemma SqueezeEntry(b: seq<Byte>, open: nat, end: nat, g: seq<Entry>, i: nat, id: nat)
    requires i < |g| && Squeezed(b, open, end, g, i, id)
    ensures var at := open + SizeAll(g[..i]);
            && at + Size(g[i]) <= end <= |b| && (b[at + 1] != 0 <==> g[i].Line?)
            && (g[i].Line? ==> At(b, at + 2, g[i].text)) && At(b, at + Size(g[i]), EncAll(g[i + 1..]))
            && SizeAll(g[..i + 1]) == SizeAll(g[..i]) + Size(g[i])
  {
    hide At, Enc, EncAll, SizeAll, Fit, Text, EntryOk;
    var at := open + SizeAll(g[..i]);
    SizeStep(g, i);
    assert g == g[..i] + g[i..];
    SizeAppend(g[..i], g[i..]);
    FitNext(b, at, end, g[i..]);
    assert g[i..][1..] == g[i + 1..];
    EntryAt(b, at, g[i]);
  }

  lemma SqueezeFit(b: seq<Byte>, open: nat, end: nat, g: seq<Entry>, i: nat, id: nat)
    requires i <= |g| && Squeezed(b, open, end, g, i, id)
    ensures open + SizeAll(g[..i]) <= end <= |b|
    ensures Fit(b, open + SizeAll(g[..i]), end) == if i == |g| then 0 else Size(g[i])
  {
    hide At, Enc, EncAll, SizeAll, Fit, EntryOk, Size, Text;
    assert g == g[..i] + g[i..];
    SizeAppend(g[..i], g[i..]);
    FitNext(b, open + SizeAll(g[..i]), end, g[i..]);
  }

  lemma SqueezeLine(b: seq<Byte>, b': seq<Byte>, open: nat, end: nat, g: seq<Entry>, i: nat, id: nat)
    requires 0 < i < |g| && g[i].Line? && Squeezed(b, open, end, g, i, id)
    requires var dst, at := open + 2 + |Text(g[..i], id)|, open + SizeAll(g[..i]);
             dst <= at && at + Size(g[i]) <= |b| && b' == Moved(b, dst, at + 2, at + Size(g[i]))
    ensures Squeezed(b', open, end, g, i + 1, id) && Kept(b, b', open, end)
    ensures |Text(g[..i + 1], id)| == |Text(g[..i], id)| + Size(g[i]) - 2
  {
    hide At, EncAll, SizeAll, Text, EntryOk, Kept, Moved;
    var dst, at := open + 2 + |Text(g[..i], id)|, open + SizeAll(g[..i]);
    var n := Size(g[i]);
    SqueezeEntry(b, open, end, g, i, id);
    TextStep(g, i, id);
    MovedAt(b, dst, at + 2, at + n, g[i].text);
    MovedKept(b, dst, at + 2, at + n);
    AtKept(b, b', dst, dst + n - 2, open + 2, Text(g[..i], id));
    AtKept(b, b', dst, dst + n - 2, at + n, EncAll(g[i + 1..]));
    AtSplit(b', open + 2, Text(g[..i], id), g[i].text);
    KeptWider(b, b', dst, dst + n - 2, open, end);
  }

  lemma SqueezeMark(b: seq<Byte>, open: nat, end: nat, g: seq<Entry>, i: nat, id: nat)
    requires i < |g| && g[i].Mark? && Squeezed(b, open, end, g, i, id)
    ensures Squeezed(b, open, end, g, i + 1, id) && Text(g[..i + 1], id) == Text(g[..i], id)
  {
    hide EncAll, SizeAll, EntryOk;
    SqueezeEntry(b, open, end, g, i, id);
    TextStep(g, i, id);
    assert At(b, open + 2, Text(g[..i + 1], id)) by {
      if i == 0 {
        assert Text(g[..0], id) == [] && b[open + 2..open + 2] == [];
      }
    }
  }

  lemma SqueezeDone(b: seq<Byte>, open: nat, end: nat, g: seq<Entry>, id: nat)
    requires g != [] && Squeezed(b, open, end, g, |g|, id)
    ensures At(b, open + 2, Text(g, id)) && SizeAll(g[..|g|]) == SizeAll(g)
  {
    assert g[..|g|] == g;
  }

  /** The loop's state: `at` past `i` entries, `dst` past their lines. */
  ghost predicate Squeezing(b0: seq<Byte>, b: seq<Byte>, open: nat, end: nat, g: seq<Entry>, i: nat, id: nat,
          at: nat, dst: nat) {
    && i <= |g| && at == open + SizeAll(g[..i]) <= end
    && Squeezed(b, open, end, g, i, id) && Kept(b0, b, open, end)
    && dst == open + 2 + |Text(g[..i], id)| <= at + if i == 0 then 2 else 0
  }

  lemma SqueezeStart(b: seq<Byte>, open: nat, end: nat, g: seq<Entry>, id: nat)
    requires Squeezed(b, open, end, g, 0, id)
    ensures Squeezing(b, b, open, end, g, 0, id, open, open + 2) && end <= |b|
  {
    hide Squeezed;
    WalkStart(g);
    SqueezeFit(b, open, end, g, 0, id);
    KeptSame(b, open, end);
  }

  lemma SqueezeNow(b0: seq<Byte>, b: seq<Byte>, open: nat, end: nat, g: seq<Entry>, i: nat, id: nat, at: nat, dst: nat)
    requires Squeezing(b0, b, open, end, g, i, id, at, dst) && end <= |b| && Fit(b, at, end) != 0 && g != [] && g[0].Mark?
    ensures i < |g| && Fit(b, at, end) == Size(g[i]) && at + Size(g[i]) <= end && (b[at + 1] != 0 <==> g[i].Line?)
    ensures g[i].Line? ==> i > 0 && dst <= at
  {
    hide At, Squeezed, Fit, SizeAll, Text, Kept;
    SqueezeFit(b, open, end, g, i, id);
    SqueezeEntry(b, open, end, g, i, id);
  }

  lemma SqueezeLineStep(b0: seq<Byte>, b: seq<Byte>, b': seq<Byte>, open: nat, end: nat, g: seq<Entry>, i: nat,
          id: nat, at: nat, dst: nat)
    requires Squeezing(b0, b, open, end, g, i, id, at, dst) && 0 < i < |g| && g[i].Line?
    requires at + Size(g[i]) <= |b| && b' == Moved(b, dst, at + 2, at + Size(g[i]))
    ensures Squeezing(b0, b', open, end, g, i + 1, id, at + Size(g[i]), dst + Size(g[i]) - 2)
  {
    hide At, Squeezed, SizeAll, Text, Kept, Moved;
    SqueezeEntry(b, open, end, g, i, id);
    SqueezeLine(b, b', open, end, g, i, id);
    KeptTrans(b0, b, b', open, end);
  }

  lemma SqueezeMarkStep(b0: seq<Byte>, b: seq<Byte>, open: nat, end: nat, g: seq<Entry>, i: nat, id: nat, at: nat, dst: nat)
    requires Squeezing(b0, b, open, end, g, i, id, at, dst) && i < |g| && g[i].Mark?
    ensures Squeezing(b0, b, open, end, g, i + 1, id, at + Size(g[i]), dst)
  {
    hide At, Squeezed, SizeAll, Text, Kept;
    SqueezeEntry(b, open, end, g, i, id);
    SqueezeMark(b, open, end, g, i, id);
  }

  lemma SqueezeEnd(b0: seq<Byte>, b: seq<Byte>, open: nat, end: nat, g: seq<Entry>, i: nat, id: nat, at: nat, dst: nat)
    requires Squeezing(b0, b, open, end, g, i, id, at, dst) && end <= |b| && Fit(b, at, end) == 0 && g != []
    ensures dst == open + 2 + |Text(g, id)| <= end && At(b, open + 2, Text(g, id)) && Kept(b0, b, open, end)
  {
    hide At, Squeezed, SizeAll, Text, Kept, Fit;
    SqueezeFit(b, open, end, g, i, id);
    assert g[..|g|] == g;
    SqueezeDone(b, open, end, g, id);
  }

  // ---- The settling loop ----

  lemma LaidRecord(b: seq<Byte>, s: Store, tail: nat, open: nat, head: nat, taken: nat)
    requires Laid(b, s, tail, open, head, taken) && tail != open
    ensures s.committed != [] && tail + 2 + |s.committed[0]| <= open <= head <= |b|
    ensures RecordFits(b, tail, open) && LenAt(b, tail) == |s.committed[0]|
    ensures s.taken == |s.committed[0]| ==>
              var n := tail + 2 + |s.committed[0]|;
              Laid(b, Store(n, s.committed[1..], 0, s.entries), n, open, head, 0)
  {
    hide At, RecordFits, LenAt, Wf, EncAll, SizeAll;
    RecordsSize(s.committed);
    RecordNext(b, tail, open, s.committed);
    assert RecordsOk(s.committed[1..]);
  }

  lemma SettleLaid(b: seq<Byte>, s: Store, tail: nat, open: nat, head: nat, taken: nat)
    requires Laid(b, s, tail, open, head, taken)
    ensures tail == s.tail <= open <= head <= |b| && taken == s.taken && (tail == open <==> s.committed == [])
    ensures StoreOk(R.Settle(s))
    ensures s.committed == [] ==> R.Settle(s) == s.(tail := 0)
    ensures s.committed != [] && s.taken != |s.committed[0]| ==> R.Settle(s) == s
  {
    SettleOk(s);
  }

  lemma LaidMoved(b: seq<Byte>, b': seq<Byte>, s: Store, tail: nat, open: nat, head: nat, taken: nat)
    requires Laid(b, s, tail, open, head, taken) && tail == open && b' == Moved(b, 0, open, head)
    ensures open <= head && Laid(b', s.(tail := 0), 0, 0, head - open, taken)
  {
    hide Moved, Wf;
    MovedKept(b, 0, open, head);
    MovedAt(b, 0, open, head, EncAll(s.entries));
    assert s.committed == [];
  }

  // ---- The dropping loop ----

  /** After `i` entries: those of other records, and those not yet seen. */
  ghost predicate Dropping(b: seq<Byte>, open: nat, head: nat, es: seq<Entry>, i: nat, id: nat)
    requires i <= |es|
  {
    var o := Without(es[..i], id);
    && AllOk(es) && AllOk(o)
    && open + SizeAll(es) == head <= |b| && SizeAll(o) <= SizeAll(es[..i])
    && At(b, open, EncAll(o))
    && At(b, open + SizeAll(es[..i]), EncAll(es[i..]))
  }

  lemma DropStart(b: seq<Byte>, open: nat, es: seq<Entry>, id: nat)
    requires AllOk(es) && open + SizeAll(es) <= |b| && At(b, open, EncAll(es))
    ensures Dropping(b, open, open + SizeAll(es), es, 0, id) && SizeAll(es[..0]) == 0 == SizeAll(Without(es[..0], id))
  {
    assert es[0..] == es && es[..0] == [];
  }

  lemma DropFit(b: seq<Byte>, open: nat, head: nat, es: seq<Entry>, i: nat, id: nat)
    requires i <= |es| && Dropping(b, open, head, es, i, id)
    ensures open + SizeAll(Without(es[..i], id)) <= open + SizeAll(es[..i]) <= head <= |b|
    ensures Fit(b, open + SizeAll(es[..i]), head) == if i == |es| then 0 else Size(es[i])
  {
    hide At, Enc, EncAll, SizeAll, Fit, EntryOk, Size, Without;
    assert es == es[..i] + es[i..];
    SizeAppend(es[..i], es[i..]);
    FitNext(b, open + SizeAll(es[..i]), head, es[i..]);
  }

  lemma DropEntry(b: seq<Byte>, open: nat, head: nat, es: seq<Entry>, i: nat, id: nat)
    requires i < |es| && Dropping(b, open, head, es, i, id)
    ensures var at := open + SizeAll(es[..i]);
            && at + Size(es[i]) <= head <= |b| && Id(b[at]) == es[i].id
            && At(b, at, Enc(es[i])) && At(b, at + Size(es[i]), EncAll(es[i + 1..]))
            && SizeAll(es[..i + 1]) == SizeAll(es[..i]) + Size(es[i])
  {
    hide At, Enc, EncAll, SizeAll, Fit, Id, EntryOk, Size, Without;
    var at := open + SizeAll(es[..i]);
    SizeStep(es, i);
    assert es == es[..i] + es[i..];
    SizeAppend(es[..i], es[i..]);
    FitNext(b, at, head, es[i..]);
    assert es[i..][1..] == es[i + 1..];
    EntryAt(b, at, es[i]);
  }

  lemma DropKept(b: seq<Byte>, b': seq<Byte>, open: nat, head: nat, es: seq<Entry>, i: nat, id: nat)
    requires i < |es| && es[i].id != id && Dropping(b, open, head, es, i, id)
    requires var dst, at := open + SizeAll(Without(es[..i], id)), open + SizeAll(es[..i]);
             dst <= at && at + Size(es[i]) <= |b| && b' == Moved(b, dst, at, at + Size(es[i]))
    ensures Dropping(b', open, head, es, i + 1, id) && Kept(b, b', open, head)
    ensures SizeAll(Without(es[..i + 1], id)) == SizeAll(Without(es[..i], id)) + Size(es[i])
  {
    hide At, Enc, EncAll, SizeAll, Id, EntryOk, Size, Without, Moved, Kept;
    var e, o := es[i], Without(es[..i], id);
    var dst, at := open + SizeAll(o), open + SizeAll(es[..i]);
    DropEntry(b, open, head, es, i, id);
    OnlyStep(es, i, id);
    EncOne(o, e);
    MovedAt(b, dst, at, at + Size(e), Enc(e));
    MovedKept(b, dst, at, at + Size(e));
    AtKept(b, b', dst, dst + Size(e), open, EncAll(o));
    AtKept(b, b', dst, dst + Size(e), at + Size(e), EncAll(es[i + 1..]));
    AtSplit(b', open, EncAll(o), Enc(e));
    KeptWider(b, b', dst, dst + Size(e), open, head);
    KeptLen(b, b', open, head);
  }

  lemma KeptLen(b: seq<Byte>, b': seq<Byte>, lo: nat, hi: nat)
    requires Kept(b, b', lo, hi)
    ensures |b'| == |b|
  {
  }

  lemma DropSkipped(b: seq<Byte>, open: nat, head: nat, es: seq<Entry>, i: nat, id: nat)
    requires i < |es| && es[i].id == id && Dropping(b, open, head, es, i, id)
    ensures Dropping(b, open, head, es, i + 1, id)
    ensures SizeAll(Without(es[..i + 1], id)) == SizeAll(Without(es[..i], id))
  {
    hide At, Enc, EncAll, SizeAll, Id, EntryOk, Without;
    DropEntry(b, open, head, es, i, id);
    OnlyStep(es, i, id);
    assert Without(es[..i], id) + [] == Without(es[..i], id);
  }

  lemma DropLaid(b: seq<Byte>, b': seq<Byte>, s: Store, tail: nat, open: nat, head: nat, taken: nat, id: nat)
    requires Laid(b, s, tail, open, head, taken) && StoreOk(s) && Kept(b, b', open, head)
    requires Dropping(b', open, head, s.entries, |s.entries|, id)
    ensures var s' := s.(entries := Without(s.entries, id));
            && Laid(b', s', tail, open, open + SizeAll(s'.entries), taken) && StoreOk(s')
            && SizeAll(s'.entries) == SizeAll(Without(s.entries[..|s.entries|], id))
  {
    hide At, Wf, SizeAll, EncAll, Without;
    assert s.entries[..|s.entries|] == s.entries;
    WithoutWf(s.entries, id);
    RecordsSize(s.committed);
    AtKept(b, b', open, head, tail, EncRecords(s.committed));
  }

  // ---- Finding and closing a record ----

  lemma MarkPlace(b: seq<Byte>, s: Store, tail: nat, open: nat, head: nat, taken: nat, m: nat)
    requires Laid(b, s, tail, open, head, taken) && m <= |s.entries|
    ensures var at := open + SizeAll(s.entries[..m]);
            && at <= head && (at == head <==> m == |s.entries|)
            && (m < |s.entries| ==> at < |b| && Id(b[at]) == s.entries[m].id && At(b, at, Enc(s.entries[m])))
            && (m < |s.entries| && s.entries[m].Mark? ==> (b[at] >= 0x80 <==> s.entries[m].full))
  {
    hide At, Wf, EncAll, SizeAll, Enc, Id;
    WalkStep(b, open, head, s.entries, m);
    if m < |s.entries| {
      EntryAt(b, open + SizeAll(s.entries[..m]), s.entries[m]);
    } else {
      assert s.entries[..m] == s.entries;
    }
  }

  /** The store with record `id` closed, before it settles. */
  function Closed(s: Store, id: nat): Store {
    s.(committed := if Text(s.entries, id) == [] then s.committed else s.committed + [Text(s.entries, id)],
       entries := Without(s.entries, id))
  }

  /** The lines joined past room for their length, and the other records' entries. */
  ghost predicate Joins(b: seq<Byte>, open: nat, gathered: nat, head: nat, es: seq<Entry>, id: nat) {
    && AllOk(Without(es, id)) && gathered + SizeAll(Without(es, id)) == head <= |b|
    && At(b, open + 2, Text(es, id)) && At(b, gathered, EncAll(Without(es, id)))
  }

  lemma ClosedEmpty(b: seq<Byte>, b': seq<Byte>, s: Store, tail: nat, open: nat, gathered: nat, head: nat, taken: nat, id: nat)
    requires Laid(b, s, tail, open, head, taken) && StoreOk(s) && Kept(b, b', open, head)
    requires Joins(b', open, gathered, head, s.entries, id) && Text(s.entries, id) == [] && open <= gathered <= head
    ensures Laid(Moved(b', open, gathered, head), Closed(s, id), tail, open, head - (gathered - open), taken)
  {
    hide At, Wf, SizeAll, EncAll, Without, Moved, Kept, Text;
    var o := Without(s.entries, id);
    var b2 := Moved(b', open, gathered, head);
    WithoutWf(s.entries, id);
    RecordsSize(s.committed);
    AtKept(b, b', open, head, tail, EncRecords(s.committed));
    MovedAt(b', open, gathered, head, EncAll(o));
    MovedKept(b', open, gathered, head);
    KeptLen(b', b2, open, open + (head - gathered));
    AtKept(b', b2, open, open + (head - gathered), tail, EncRecords(s.committed));
  }

  /** A record's length stored where it starts, low byte first. */
  function Lengthed(b: seq<Byte>, open: nat, len: nat): seq<Byte>
    requires open + 2 <= |b| && len <= 0xFFFF
  {
    b[open := len % 256][open + 1 := len / 256]
  }

  lemma ClosedText(b: seq<Byte>, b': seq<Byte>, s: Store, tail: nat, open: nat, gathered: nat, head: nat, taken: nat, id: nat)
    requires Laid(b, s, tail, open, head, taken) && StoreOk(s) && Kept(b, b', open, head) && |b| == |b'|
    requires Joins(b', open, gathered, head, s.entries, id) && Text(s.entries, id) != []
    requires open + 2 + |Text(s.entries, id)| <= gathered <= head
    ensures var len := |Text(s.entries, id)|;
            var dst := open + 2 + len;
            && len <= 0xFFFF && head <= |b'|
            && Laid(Lengthed(Moved(b', dst, gathered, head), open, len), Closed(s, id), tail, dst,
                head - (gathered - dst), taken)
  {
    hide At, Wf, SizeAll, EncAll, Without, Moved, Kept, Text, EncRecords;
    var text, o := Text(s.entries, id), Without(s.entries, id);
    var dst := open + 2 + |text|;
    var b2 := Moved(b', dst, gathered, head);
    WithoutWf(s.entries, id);
    TextFits(s.entries, id);
    RecordsSize(s.committed);
    MovedAt(b', dst, gathered, head, EncAll(o));
    MovedKept(b', dst, gathered, head);
    KeptLen(b', b2, dst, dst + (head - gathered));
    AtKept(b, b', open, head, tail, EncRecords(s.committed));
    AtKept(b', b2, dst, dst + (head - gathered), tail, EncRecords(s.committed));
    AtKept(b', b2, dst, dst + (head - gathered), open + 2, text);
    HeaderPut(b2, tail, open, s.committed, text, EncAll(o));
    RecordsSize(s.committed + [text]);
    SizeRecordsAppend(s.committed, text);
  }

  lemma TextFits(es: seq<Entry>, id: nat)
    requires Wf(es)
    ensures |Text(es, id)| <= 0xFFFF
  {
  }

  lemma {:induction false} SizeRecordsAppend(rs: seq<seq<Byte>>, r: seq<Byte>)
    ensures SizeRecords(rs + [r]) == SizeRecords(rs) + 2 + |r|
  {
    if rs == [] {
      assert [] + [r] == [r];
    } else {
      assert (rs + [r])[1..] == rs[1..] + [r];
      SizeRecordsAppend(rs[1..], r);
    }
  }

  /** A length written in front of a record's bytes puts it behind the records before it. */
  lemma HeaderPut(b: seq<Byte>, tail: nat, open: nat, rs: seq<seq<Byte>>, r: seq<Byte>, rest: seq<Byte>)
    requires RecordsOk(rs) && RecordOk(r) && tail + |EncRecords(rs)| == open && open + 2 <= |b|
    requires At(b, tail, EncRecords(rs)) && At(b, open + 2, r) && At(b, open + 2 + |r|, rest)
    ensures var b' := b[open := |r| % 256][open + 1 := |r| / 256];
            && |b'| == |b| && RecordsOk(rs + [r])
            && At(b', tail, EncRecords(rs + [r])) && At(b', open + 2 + |r|, rest)
  {
    hide At, EncRecords;
    var h: seq<Byte> := [|r| % 256, |r| / 256];
    var b' := b[open := |r| % 256][open + 1 := |r| / 256];
    assert At(b', open, h) && Kept(b, b', open, open + 2) by {
      HeaderSits(b, open, |r| % 256, |r| / 256);
    }
    AtKept(b, b', open, open + 2, tail, EncRecords(rs));
    AtKept(b, b', open, open + 2, open + 2, r);
    AtKept(b, b', open, open + 2, open + 2 + |r|, rest);
    AtSplit(b', open, h, r);
    EncRecordsAppend(rs, [r]);
    EncRecordsOne(r);
    AtSplit(b', tail, EncRecords(rs), h + r);
  }

  lemma HeaderSits(b: seq<Byte>, open: nat, x: Byte, y: Byte)
    requires open + 2 <= |b|
    ensures var b' := b[open := x][open + 1 := y]; At(b', open, [x, y]) && Kept(b, b', open, open + 2)
  {
  }

  lemma EncRecordsOne(r: seq<Byte>)
    requires RecordOk(r)
    ensures EncRecords([r]) == [|r| % 256, |r| / 256] + r
  {
    assert [r][1..] == [];
    assert EncRecord(r) + [] == EncRecord(r);
  }

  /** A record's entries start with its marker. */
  lemma {:induction false} OnlyFirst(es: seq<Entry>, ids: set<nat>, keys: set<nat>, id: nat)
    requires Scans(es, ids, keys) && id !in ids && Only(es, id) != []
    ensures Only(es, id)[0].Mark?
  {
    if es[0].id != id {
      assert Only(es, id) == Only(es[1..], id);
      match es[0]
      case Mark(i, _, k) => OnlyFirst(es[1..], ids + {i}, keys + {k}, id);
      case Line(_, _) => OnlyFirst(es[1..], ids, keys, id);
    }
  }

  lemma {:induction false} OnlyHas(es: seq<Entry>, id: nat, m: nat)
    requires m < |es| && es[m].id == id
    ensures Only(es, id) != []
  {
    if m > 0 {
      OnlyHas(es[1..], id, m - 1);
    }
  }

  lemma {:induction false} OnlyIds(es: seq<Entry>, id: nat)
    ensures forall k :: 0 <= k < |Only(es, id)| ==> Only(es, id)[k].id == id
  {
    if es != [] {
      OnlyIds(es[1..], id);
    }
  }

  lemma OnlyMarked(s: Store, key: nat, b: seq<Byte>, open: nat, gathered: nat, id: nat)
    requires StoreOk(s) && MarkOf(s.entries, key) < |s.entries| && id == s.entries[MarkOf(s.entries, key)].id
    requires AllOk(Only(s.entries, id)) && open + SizeAll(Only(s.entries, id)) == gathered <= |b|
            && At(b, open, EncAll(Only(s.entries, id)))
    ensures Squeezed(b, open, gathered, Only(s.entries, id), 0, id)
    ensures Only(s.entries, id) != [] && Only(s.entries, id)[0].Mark?
    ensures Text(Only(s.entries, id), id) == Text(s.entries, id)
  {
    hide Only, EncAll, Text, MarkOf, At;
    var g := Only(s.entries, id);
    OnlyHas(s.entries, id, MarkOf(s.entries, key));
    OnlyFirst(s.entries, {}, {}, id);
    OnlyIds(s.entries, id);
    TextOnly(s.entries, id);
    assert g[0..] == g && g[..0] == [];
  }

  // ---- Appending ----

  /** Byte `i` of a key, low first. */
  function KeyByte(key: nat, i: nat): Byte
    requires i < 4
  {
    if i == 0 then key % 256 else if i == 1 then key / 256 % 256 else if i == 2 then key / 65536 % 256 else key / 16777216 % 256
  }

  lemma MarkStored(b: seq<Byte>, h: nat, id: nat, key: nat)
    requires h + 6 <= |b| && id < ID_COUNT && key < 0x1_0000_0000 && b[h] == id && b[h + 1] == 0
    requires forall j :: 0 <= j < 4 ==> b[h + 2 + j] == KeyByte(key, j)
    ensures At(b, h, Enc(Mark(id, false, key)))
  {
    assert b[h + 2 + 0] == KeyByte(key, 0) && b[h + 2 + 1] == KeyByte(key, 1);
    assert b[h + 2 + 2] == KeyByte(key, 2) && b[h + 2 + 3] == KeyByte(key, 3);
    assert b[h..h + 6] == Enc(Mark(id, false, key));
  }

  /** Only what lies below the head is read. */
  lemma LaidAhead(b: seq<Byte>, b': seq<Byte>, s: Store, tail: nat, open: nat, head: nat, taken: nat)
    requires Laid(b, s, tail, open, head, taken) && |b'| == |b| && b'[..head] == b[..head]
    ensures Laid(b', s, tail, open, head, taken)
  {
    hide At, Wf, EncAll, SizeAll, EncRecords;
    RecordsSize(s.committed);
    AtBelow(b, b', head, tail, EncRecords(s.committed));
    AtBelow(b, b', head, open, EncAll(s.entries));
  }

  lemma AtBelow(b: seq<Byte>, b': seq<Byte>, head: nat, from: nat, x: seq<Byte>)
    requires At(b, from, x) && from + |x| <= head <= |b| == |b'| && b'[..head] == b[..head]
    ensures At(b', from, x)
  {
    assert b[from..from + |x|] == b[..head][from..from + |x|] && b'[from..from + |x|] == b'[..head][from..from + |x|];
  }

  lemma LaidAppended(b: seq<Byte>, b': seq<Byte>, s: Store, tail: nat, open: nat, head: nat, taken: nat, e: Entry)
    requires Laid(b, s, tail, open, head, taken) && StoreOk(s.(entries := s.entries + [e]))
    requires EntryOk(e) && head + Size(e) <= |b| && Kept(b, b', head, head + Size(e)) && At(b', head, Enc(e))
    ensures Laid(b', s.(entries := s.entries + [e]), tail, open, head + Size(e), taken)
  {
    hide At, Wf, EncAll, SizeAll, Enc, EntryOk, Size, EncRecords;
    RecordsSize(s.committed);
    EncOne(s.entries, e);
    AtKept(b, b', head, head + Size(e), tail, EncRecords(s.committed));
    AtKept(b, b', head, head + Size(e), open, EncAll(s.entries));
    AtSplit(b', open, EncAll(s.entries), Enc(e));
  }

  /** HELD_FULL set in an id byte. */
  function WithFull(x: Byte): Byte { if x < 0x80 then x + 0x80 else x }

  function LineByte(b: seq<Byte>, h: nat, id: Byte, n: Byte, text: seq<Byte>, k: nat): Byte
    requires k < |b|
  {
    if k == h then id else if k == h + 1 then n else if h + 2 <= k < h + 2 + |text| then text[k - h - 2] else b[k]
  }

  lemma LineSits(b: seq<Byte>, b': seq<Byte>, h: nat, id: nat, text: seq<Byte>)
    requires EntryOk(Line(id, text)) && h + 2 + |text| <= |b| == |b'|
    requires forall k {:trigger b'[k]} :: 0 <= k < |b'| ==> b'[k] == LineByte(b, h, id, |text|, text, k)
    ensures At(b', h, Enc(Line(id, text))) && Kept(b, b', h, h + 2 + |text|)
  {
    var e, end := Enc(Line(id, text)), h + 2 + |text|;
    forall k | 0 <= k < |e|
      ensures b'[h..end][k] == e[k]
    {
      assert b'[h..end][k] == b'[h + k];
    }
    assert b'[h..end] == e && b'[..h] == b[..h];
    forall k | end <= k < |b|
      ensures b'[k] == b[k]
    {
    }
    assert b'[end..] == b[end..];
  }

  lemma SplitMark(es: seq<Entry>, m: nat, e: Entry)
    requires m < |es| && AllOk(es) && EntryOk(e)
    ensures es == es[..m] + es[m..] && es[m..] == [es[m]] + es[m + 1..] && es[m := e] == es[..m] + ([e] + es[m + 1..])
    ensures AllOk(es[..m]) && AllOk([e] + es[m + 1..]) && AllOk([es[m]] + es[m + 1..])
  {
    hide EntryOk;
  }

  lemma LaidFull(b: seq<Byte>, s: Store, tail: nat, open: nat, head: nat, taken: nat, m: nat)
    requires Laid(b, s, tail, open, head, taken) && StoreOk(s)
    requires m < |s.entries| && s.entries[m].Mark? && !s.entries[m].full
    requires open + SizeAll(s.entries[..m]) < |b| && b[open + SizeAll(s.entries[..m])] < 0x80
    ensures var at := open + SizeAll(s.entries[..m]);
            var s' := s.(entries := s.entries[m := s.entries[m].(full := true)]);
            Laid(b[at := b[at] + 0x80], s', tail, open, head, taken) && StoreOk(s')
  {
    hide At, Wf, EncAll, SizeAll, Enc, EncRecords;
    var es, at := s.entries, open + SizeAll(s.entries[..m]);
    var e' := es[m].(full := true);
    var b', s' := b[at := b[at] + 0x80], s.(entries := es[m := e']);
    AppendLineFull(s, m);
    WalkStep(b, open, head, es, m);
    RecordsSize(s.committed);
    MarkSits(b, at, es[m]);
    SplitMark(es, m, e');
    EncAppend(es[..m], [es[m]] + es[m + 1..]);
    EncAppend(es[..m], [e'] + es[m + 1..]);
    SizeAppend(es[..m], [e'] + es[m + 1..]);
    SizeAppend(es[..m], es[m..]);
    HeadEnc(es[m], es[m + 1..]);
    HeadEnc(e', es[m + 1..]);
    AtSplit(b, open, EncAll(es[..m]), EncAll(es[m..]));
    AtSplit(b, at, Enc(es[m]), EncAll(es[m + 1..]));
    AtKept(b, b', at, at + 6, tail, EncRecords(s.committed));
    AtKept(b, b', at, at + 6, open, EncAll(es[..m]));
    AtKept(b, b', at, at + 6, at + 6, EncAll(es[m + 1..]));
    AtSplit(b', at, Enc(e'), EncAll(es[m + 1..]));
    AtSplit(b', open, EncAll(es[..m]), EncAll([e'] + es[m + 1..]));
  }

  lemma AppendLineFull(s: Store, m: nat)
    requires StoreOk(s) && m < |s.entries| && s.entries[m].Mark?
    ensures StoreOk(s.(entries := s.entries[m := s.entries[m].(full := true)]))
  {
    ScansFull(s.entries, {}, {}, m);
    var es' := s.entries[m := s.entries[m].(full := true)];
    forall i
      ensures |Text(es', i)| <= 0xFFFF
    {
      TextFull(s.entries, m, i);
      assert |Text(s.entries, i)| <= 0xFFFF;
    }
  }

  lemma HeadEnc(e: Entry, es: seq<Entry>)
    requires EntryOk(e) && AllOk(es)
    ensures AllOk([e] + es) && EncAll([e] + es) == Enc(e) + EncAll(es) && SizeAll([e] + es) == Size(e) + SizeAll(es)
  {
    assert ([e] + es)[1..] == es;
  }

  lemma MarkSits(b: seq<Byte>, at: nat, e: Entry)
    requires EntryOk(e) && e.Mark? && !e.full && At(b, at, Enc(e)) && b[at] < 0x80
    ensures var b' := b[at := b[at] + 0x80]; At(b', at, Enc(e.(full := true))) && Kept(b, b', at, at + 6)
  {
    var b' := b[at := b[at] + 0x80];
    var x, y := Enc(e), Enc(e.(full := true));
    AtIndex(b, at, x, 0);
    assert y == x[0 := x[0] + 0x80];
    assert b'[at..at + 6] == b[at..at + 6][0 := b[at] + 0x80];
  }

  // ---- Reading ----

  lemma LaidFirst(b: seq<Byte>, s: Store, tail: nat, open: nat, head: nat, taken: nat)
    requires Laid(b, s, tail, open, head, taken)
    ensures tail <= open <= head <= |b| && (RecordFits(b, tail, open) <==> s.committed != [])
    ensures s.committed != [] ==> tail + 2 <= |b| && LenAt(b, tail) == |s.committed[0]| && At(b, tail + 2, s.committed[0])
  {
    hide At, Wf, EncAll, SizeAll;
    RecordsSize(s.committed);
    RecordNext(b, tail, open, s.committed);
  }

  ghost function CommittedText(s: Store): seq<Byte>
    requires Loose(s)
  {
    if s.committed == [] then [] else s.committed[0][CutFrom(s.committed[0], s.taken)..] + Flat(s.committed[1..])
  }

  /** What is left to write once `k` committed records are out. */
  ghost function RestText(s: Store, k: nat): seq<Byte>
    requires Loose(s) && k <= |s.committed|
  {
    if k == 0 then CommittedText(s) else Flat(s.committed[k..])
  }

  lemma CutNone(r: seq<Byte>)
    ensures CutFrom(r, 0) == 0
  {
  }

  lemma CutBound(s: Store)
    requires Loose(s) && s.committed != []
    ensures s.taken <= |s.committed[0]| && CutFrom(s.committed[0], s.taken) <= |s.committed[0]|
  {
  }

  lemma OutNext(b: seq<Byte>, s: Store, k: nat, out: seq<Byte>, at: nat, from: nat)
    requires Loose(s) && k < |s.committed| && out + RestText(s, k) == CommittedText(s)
    requires at + 2 + |s.committed[k]| <= |b| && b[at + 2..at + 2 + |s.committed[k]|] == s.committed[k]
    requires from == at + 2 + if k == 0 then CutFrom(s.committed[0], s.taken) else 0
    ensures from <= at + 2 + |s.committed[k]|
    ensures (out + b[from..at + 2 + |s.committed[k]|]) + RestText(s, k + 1) == CommittedText(s)
  {
    hide Loose, CutFrom, CommittedText;
    CutBound(s);
    var piece := b[from..at + 2 + |s.committed[k]|];
    Tail(b, at + 2, from, at + 2 + |s.committed[k]|);
    RestNext(s, k, piece);
    assert (out + piece) + RestText(s, k + 1) == out + (piece + RestText(s, k + 1));
  }

  lemma Tail(b: seq<Byte>, lo: nat, from: nat, hi: nat)
    requires lo <= from <= hi <= |b|
    ensures b[from..hi] == b[lo..hi][from - lo..]
  {
  }

  lemma RestNext(s: Store, k: nat, piece: seq<Byte>)
    requires Loose(s) && k < |s.committed|
    requires piece == s.committed[k][if k == 0 then CutFrom(s.committed[0], s.taken) else 0..]
    ensures RestText(s, k) == piece + RestText(s, k + 1)
  {
    hide Wf;
    assert s.committed[k..][1..] == s.committed[k + 1..];
  }

  lemma RestEnd(s: Store, out: seq<Byte>)
    requires Loose(s) && out + RestText(s, |s.committed|) == CommittedText(s)
    ensures out == CommittedText(s)
  {
    assert out + [] == out;
  }

  /** The records from the `k`th on are laid out from `at`. */
  ghost predicate CommittedFrom(b: seq<Byte>, at: nat, open: nat, rs: seq<seq<Byte>>, k: nat)
    requires k <= |rs|
  {
    RecordsOk(rs) && at + SizeRecords(rs[k..]) == open <= |b| && At(b, at, EncRecords(rs[k..]))
  }

  lemma CommittedStart(b: seq<Byte>, s: Store, tail: nat, open: nat, head: nat, taken: nat)
    requires Laid(b, s, tail, open, head, taken) && Loose(s)
    ensures tail <= open <= |b| && CommittedFrom(b, tail, open, s.committed, 0)
    ensures [] + RestText(s, 0) == CommittedText(s) && taken == s.taken
  {
    assert s.committed[0..] == s.committed;
  }

  lemma CommittedNext(b: seq<Byte>, at: nat, open: nat, rs: seq<seq<Byte>>, k: nat)
    requires k <= |rs| && CommittedFrom(b, at, open, rs, k) && RecordFits(b, at, open)
    ensures k < |rs| && at + 2 + |rs[k]| <= open && LenAt(b, at) == |rs[k]| > 0 && b[at + 2..at + 2 + |rs[k]|] == rs[k]
    ensures CommittedFrom(b, at + 2 + |rs[k]|, open, rs, k + 1)
  {
    RecordNext(b, at, open, rs[k..]);
    assert k < |rs| ==> rs[k..][1..] == rs[k + 1..];
    assert RecordOk(rs[k]);
  }

  lemma CommittedEnd(b: seq<Byte>, at: nat, open: nat, rs: seq<seq<Byte>>, k: nat)
    requires k <= |rs| && CommittedFrom(b, at, open, rs, k) && !RecordFits(b, at, open)
    ensures k == |rs|
  {
    RecordNext(b, at, open, rs[k..]);
  }

  lemma TextRest(es: seq<Entry>, j: nat, id: nat)
    requires j < |es|
    ensures Text(es[j..], id) == (if es[j].Line? && es[j].id == id then es[j].text else []) + Text(es[j + 1..], id)
  {
    assert es[j..][1..] == es[j + 1..];
  }

  lemma TextEnd(es: seq<Entry>, id: nat)
    ensures Text(es[|es|..], id) == []
  {
  }

  lemma OpenRest(es: seq<Entry>, i: nat)
    requires i < |es|
    ensures Joined(OpenIn(es[i..], es)) ==
            (if es[i].Mark? then Text(es, es[i].id) else []) + Joined(OpenIn(es[i + 1..], es))
  {
    var rest := OpenIn(es[i + 1..], es);
    assert es[i..][1..] == es[i + 1..];
    match es[i]
    case Mark(id, _, key) =>
      assert OpenIn(es[i..], es) == [(key, Text(es, id))] + rest && ([(key, Text(es, id))] + rest)[1..] == rest;
    case Line(_, _) =>
      assert OpenIn(es[i..], es) == rest;
  }

  lemma OpenEnd(es: seq<Entry>)
    ensures Joined(OpenIn(es[|es|..], es)) == []
  {
  }

  /** A record has no line ahead of its marker. */
  lemma TextAfterMark(s: Store, i: nat)
    requires Loose(s) && i < |s.entries| && s.entries[i].Mark?
    ensures Text(s.entries[i + 1..], s.entries[i].id) == Text(s.entries, s.entries[i].id)
  {
    ScansAfter(s.entries, {}, {}, i);
  }

  lemma {:induction false} ScansAfter(es: seq<Entry>, ids: set<nat>, keys: set<nat>, i: nat)
    requires Scans(es, ids, keys) && i < |es| && es[i].Mark?
    ensures es[i].id !in ids && Text(es[i + 1..], es[i].id) == Text(es, es[i].id)
  {
    if i > 0 {
      assert es[1..][i..] == es[i + 1..];
      match es[0]
      case Mark(a, _, k) => ScansAfter(es[1..], ids + {a}, keys + {k}, i - 1);
      case Line(_, _) => ScansAfter(es[1..], ids, keys, i - 1);
    }
  }
}
