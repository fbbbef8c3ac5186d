/** The held store as a plain ledger: each open record with its own lines, no ids and no interleaving.
    Every operation on the store is that operation on the ledger, refusals included. */
module HeldLedger {
  import opened HeldRecords
  import opened HeldTheory
  import Sets

  /** An open record: its key, the lines it holds, and whether it has dropped one. */
  datatype Rec = Rec(key: nat, lines: seq<seq<Byte>>, full: bool)

  /** The committed records from `tail`, the first taken up to `taken`, and the open ones. */
  datatype Ledger = Ledger(tail: nat, committed: seq<seq<Byte>>, taken: nat, open: seq<Rec>)

  function Join(ls: seq<seq<Byte>>): seq<Byte> { if ls == [] then [] else ls[0] + Join(ls[1..]) }

  /** What a record takes up in the store: a marker, and a header a line. */
  function LineSizes(ls: seq<seq<Byte>>): nat { if ls == [] then 0 else 2 + |ls[0]| + LineSizes(ls[1..]) }

  function RecSizes(rs: seq<Rec>): nat { if rs == [] then 0 else 6 + LineSizes(rs[0].lines) + RecSizes(rs[1..]) }

  function Head(l: Ledger): nat { l.tail + SizeRecords(l.committed) + RecSizes(l.open) }

  function Find(rs: seq<Rec>, key: nat): (i: nat)
    ensures i <= |rs| && (i < |rs| ==> rs[i].key == key) && forall j :: 0 <= j < i ==> rs[j].key != key
  {
    if rs == [] || rs[0].key == key then 0 else 1 + Find(rs[1..], key)
  }

  function Removed(rs: seq<Rec>, key: nat): seq<Rec> {
    if rs == [] then [] else (if rs[0].key == key then [] else [rs[0]]) + Removed(rs[1..], key)
  }

  // ---- The ledger's operations ----

  /** A line at the end of record `i`; one that does not fit is dropped, and every later one with it. */
  function AddLine(l: Ledger, size: nat, i: nat, text: seq<Byte>, max: nat): Ledger
    requires i < |l.open|
  {
    var r := l.open[i];
    if r.full || text == [] then l
    else if |text| > 0xFF || |Join(r.lines)| + |text| > max || Head(l) + 2 + |text| > size then
      l.(open := l.open[i := r.(full := true)])
    else l.(open := l.open[i := r.(lines := r.lines + [text])])
  }

  /** Whether a record can be opened: fewer than 128 are, and its marker fits. */
  predicate CanOpen(l: Ledger, size: nat) { |l.open| < ID_COUNT && Head(l) + 6 <= size }

  function Added(l: Ledger, size: nat, key: nat, text: seq<Byte>, max: nat): Ledger {
    var i := Find(l.open, key);
    if i < |l.open| then AddLine(l, size, i, text, max)
    else if !CanOpen(l, size) then l
    else AddLine(l.(open := l.open + [Rec(key, [], false)]), size, i, text, max)
  }

  /** The records the reader has taken whole dropped. */
  function Settled(l: Ledger): Ledger {
    var s := Settle(Store(l.tail, l.committed, l.taken, []));
    Ledger(s.tail, s.committed, s.taken, l.open)
  }

  function Published(l: Ledger, key: nat): Ledger {
    var i := Find(l.open, key);
    if i == |l.open| then l
    else
      var text := Join(l.open[i].lines);
      Settled(l.(committed := if text == [] then l.committed else l.committed + [text], open := Removed(l.open, key)))
  }

  function Forgotten(l: Ledger, key: nat): Ledger {
    if Find(l.open, key) == |l.open| then l else Settled(l.(open := Removed(l.open, key)))
  }

  function Read(l: Ledger, n: nat): Ledger { Settled(l.(taken := l.taken + n)) }

  // ---- The records among the entries ----

  function Lines(es: seq<Entry>, id: nat): seq<seq<Byte>> {
    if es == [] then [] else (if es[0].Line? && es[0].id == id then [es[0].text] else []) + Lines(es[1..], id)
  }

  /** The record entry `e` opens, if it does, with its lines among `es`. */
  function RecOf(e: Entry, es: seq<Entry>): seq<Rec> {
    match e
    case Mark(id, full, key) => [Rec(key, Lines(es, id), full)]
    case Line(_, _) => []
  }

  function RecsIn(marks: seq<Entry>, es: seq<Entry>): seq<Rec> {
    if marks == [] then [] else RecOf(marks[0], es) + RecsIn(marks[1..], es)
  }

  function Recs(es: seq<Entry>): seq<Rec> { RecsIn(es, es) }

  function Abs(s: Store): Ledger { Ledger(s.tail, s.committed, s.taken, Recs(s.entries)) }

  /** A record's text is its lines joined. */
  lemma {:induction false} JoinLines(es: seq<Entry>, id: nat)
    ensures Join(Lines(es, id)) == Text(es, id)
  {
    if es != [] {
      JoinLines(es[1..], id);
      if es[0].Line? && es[0].id == id {
        assert Lines(es, id)[1..] == Lines(es[1..], id);
      } else {
        assert Lines(es, id) == Lines(es[1..], id);
      }
    }
  }

  lemma {:induction false} LinesAppend(a: seq<Entry>, b: seq<Entry>, id: nat)
    ensures Lines(a + b, id) == Lines(a, id) + Lines(b, id)
  {
    if a == [] {
      assert a + b == b;
    } else {
      assert (a + b)[1..] == a[1..] + b;
      LinesAppend(a[1..], b, id);
    }
  }

  lemma {:induction false} LinesFull(es: seq<Entry>, m: nat, id: nat)
    requires m < |es| && es[m].Mark?
    ensures Lines(es[m := es[m].(full := true)], id) == Lines(es, id)
  {
    var es' := es[m := es[m].(full := true)];
    if m == 0 {
      assert es'[1..] == es[1..];
    } else {
      assert es'[1..] == es[1..][m - 1 := es[m].(full := true)];
      LinesFull(es[1..], m - 1, id);
    }
  }

  lemma {:induction false} LinesWithout(es: seq<Entry>, id: nat, other: nat)
    requires other != id
    ensures Lines(Without(es, id), other) == Lines(es, other)
  {
    if es != [] {
      LinesWithout(es[1..], id, other);
      if es[0].id != id {
        assert Without(es, id) == [es[0]] + Without(es[1..], id);
      } else {
        assert Without(es, id) == Without(es[1..], id);
      }
    }
  }

  lemma {:induction false} RecsInAppend(a: seq<Entry>, b: seq<Entry>, es: seq<Entry>)
    ensures RecsIn(a + b, es) == RecsIn(a, es) + RecsIn(b, es)
  {
    hide RecOf;
    if a == [] {
      assert a + b == b;
    } else {
      assert (a + b)[1..] == a[1..] + b && (a + b)[0] == a[0];
      RecsInAppend(a[1..], b, es);
      var r := RecOf(a[0], es);
      assert r + (RecsIn(a[1..], es) + RecsIn(b, es)) == (r + RecsIn(a[1..], es)) + RecsIn(b, es);
    }
  }

  lemma {:induction false} RecsInSame(marks: seq<Entry>, es: seq<Entry>, es': seq<Entry>)
    requires forall i :: 0 <= i < |marks| && marks[i].Mark? ==> Lines(es', marks[i].id) == Lines(es, marks[i].id)
    ensures RecsIn(marks, es') == RecsIn(marks, es)
  {
    if marks != [] {
      RecsInSame(marks[1..], es, es');
    }
  }

  /** How many markers there are. */
  function Marks(es: seq<Entry>): nat { if es == [] then 0 else (if es[0].Mark? then 1 else 0) + Marks(es[1..]) }

  lemma {:induction false} RecsCount(marks: seq<Entry>, es: seq<Entry>)
    ensures |RecsIn(marks, es)| == Marks(marks)
  {
    if marks != [] {
      RecsCount(marks[1..], es);
    }
  }

  /** The marker at `m` is the record after those of the markers before it. */
  lemma RecAt(es: seq<Entry>, all: seq<Entry>, m: nat)
    requires m < |es| && es[m].Mark?
    ensures var i := Marks(es[..m]);
            i < |RecsIn(es, all)| && RecsIn(es, all)[i] == Rec(es[m].key, Lines(all, es[m].id), es[m].full)
    ensures RecsIn(es, all) == RecsIn(es[..m], all) + [RecsIn(es, all)[Marks(es[..m])]] + RecsIn(es[m + 1..], all)
  {
    assert es == es[..m] + ([es[m]] + es[m + 1..]);
    RecsInAppend(es[..m], [es[m]] + es[m + 1..], all);
    RecsInAppend([es[m]], es[m + 1..], all);
    RecsCount(es[..m], all);
    assert RecsIn([es[m]], all) == [Rec(es[m].key, Lines(all, es[m].id), es[m].full)];
  }

  lemma {:induction false} FindNone(marks: seq<Entry>, es: seq<Entry>, key: nat)
    requires MarkOf(marks, key) == |marks|
    ensures forall i :: 0 <= i < |RecsIn(marks, es)| ==> RecsIn(marks, es)[i].key != key
  {
    if marks != [] {
      FindNone(marks[1..], es, key);
    }
  }

  lemma {:induction false} MarkBefore(es: seq<Entry>, m: nat, key: nat)
    requires m <= |es| && forall j :: 0 <= j < m ==> !(es[j].Mark? && es[j].key == key)
    ensures MarkOf(es[..m], key) == m
  {
  }

  /** The record of a key is where its marker says, or nowhere. */
  lemma FindIs(es: seq<Entry>, all: seq<Entry>, key: nat)
    ensures var m := MarkOf(es, key);
            Find(RecsIn(es, all), key) == if m < |es| then Marks(es[..m]) else |RecsIn(es, all)|
  {
    var m := MarkOf(es, key);
    if m < |es| {
      RecAt(es, all, m);
      MarkBefore(es, m, key);
      FindNone(es[..m], all, key);
      RecsCount(es[..m], all);
    } else {
      FindNone(es, all, key);
    }
  }

  // ---- Each edit of the entries ----

  /** No other marker has the id of the one at `m`. */
  lemma OtherIds(es: seq<Entry>, m: nat)
    requires Scans(es, {}, {}) && m < |es| && es[m].Mark?
    ensures forall j :: 0 <= j < |es| && j != m && es[j].Mark? ==> es[j].id != es[m].id
  {
    forall j | 0 <= j < |es| && j != m && es[j].Mark?
      ensures es[j].id != es[m].id
    {
      ScansDistinct(es, {}, {}, j);
      ScansDistinct(es, {}, {}, m);
    }
  }

  /** Where only the record marked at `m` reads otherwise, only it is otherwise. */
  lemma OneRec(es: seq<Entry>, es': seq<Entry>, all: seq<Entry>, all': seq<Entry>, m: nat)
    requires m < |es| == |es'| && es[m].Mark? && es'[m].Mark? && es'[..m] == es[..m] && es'[m + 1..] == es[m + 1..]
    requires forall j :: 0 <= j < |es| && j != m && es[j].Mark? ==> Lines(all', es[j].id) == Lines(all, es[j].id)
    ensures var i, rs := Marks(es[..m]), RecsIn(es, all);
            i < |rs| && RecsIn(es', all') == rs[i := Rec(es'[m].key, Lines(all', es'[m].id), es'[m].full)]
            && rs[i] == Rec(es[m].key, Lines(all, es[m].id), es[m].full)
  {
    hide RecsIn, Lines, Marks;
    RecAt(es, all, m);
    RecAt(es', all', m);
    RecsInSame(es[..m], all, all');
    RecsInSame(es[m + 1..], all, all');
    RecsCount(es[..m], all);
  }

  /** A line of the record marked at `m` is that record's last. */
  lemma LineRecs(es: seq<Entry>, m: nat, text: seq<Byte>)
    requires Scans(es, {}, {}) && m < |es| && es[m].Mark?
    ensures var i, rs := Marks(es[..m]), Recs(es);
            i < |rs| && Recs(es + [Line(es[m].id, text)]) == rs[i := rs[i].(lines := rs[i].lines + [text])]
  {
    hide Lines, Marks, RecsIn, Scans;
    var id := es[m].id;
    var line := [Line(id, text)];
    OtherIds(es, m);
    forall other
      ensures Lines(es + line, other) == Lines(es, other) + if other == id then [text] else []
    {
      LinesAppend(es, line, other);
      OneLine(id, text, other);
    }
    RecsInAppend(es, line, es + line);
    NoRec(id, text, es + line);
    OneRec(es, es, es, es + line, m);
  }

  lemma OneLine(id: nat, text: seq<Byte>, other: nat)
    ensures Lines([Line(id, text)], other) == if other == id then [text] else []
  {
  }

  lemma NoRec(id: nat, text: seq<Byte>, es: seq<Entry>)
    ensures RecsIn([Line(id, text)], es) == []
  {
  }

  lemma FullRecs(es: seq<Entry>, m: nat)
    requires m < |es| && es[m].Mark?
    ensures var i, rs := Marks(es[..m]), Recs(es);
            i < |rs| && Recs(es[m := es[m].(full := true)]) == rs[i := rs[i].(full := true)]
  {
    hide Lines, Marks, RecsIn;
    var es' := es[m := es[m].(full := true)];
    forall other
      ensures Lines(es', other) == Lines(es, other)
    {
      LinesFull(es, m, other);
    }
    OneRec(es, es', es, es', m);
  }

  lemma {:induction false} Unopened(es: seq<Entry>, ids: set<nat>, keys: set<nat>, id: nat)
    requires Scans(es, ids, keys) && id !in ids && MarkOfId(es, id) == |es|
    ensures Lines(es, id) == []
  {
    if es != [] {
      match es[0]
      case Mark(i, _, k) => Unopened(es[1..], ids + {i}, keys + {k}, id);
      case Line(_, _) => Unopened(es[1..], ids, keys, id);
    }
  }

  lemma MarkRecs(es: seq<Entry>, id: nat, full: bool, key: nat)
    requires Scans(es, {}, {}) && MarkOfId(es, id) == |es|
    ensures Recs(es + [Mark(id, full, key)]) == Recs(es) + [Rec(key, [], full)]
  {
    var mark := [Mark(id, full, key)];
    var es' := es + mark;
    forall other
      ensures Lines(es', other) == Lines(es, other)
    {
      LinesAppend(es, mark, other);
    }
    Unopened(es, {}, {}, id);
    RecsInAppend(es, mark, es');
    RecsInSame(es, es, es');
    assert RecsIn(mark, es') == [Rec(key, [], full)];
  }

  lemma {:induction false} WithoutRecs(marks: seq<Entry>, es: seq<Entry>, id: nat, key: nat)
    requires forall i :: 0 <= i < |marks| && marks[i].Mark? ==> (marks[i].id == id <==> marks[i].key == key)
    ensures RecsIn(Without(marks, id), Without(es, id)) == Removed(RecsIn(marks, es), key)
  {
    if marks != [] {
      WithoutRecs(marks[1..], es, id, key);
      var rest, tail := Without(marks[1..], id), RecsIn(marks[1..], es);
      if marks[0].id == id {
        assert Without(marks, id) == rest;
      } else {
        LinesWithout(es, id, marks[0].id);
        assert Without(marks, id) == [marks[0]] + rest && ([marks[0]] + rest)[1..] == rest;
      }
      match marks[0]
      case Mark(i, full, k) =>
        assert RecsIn(marks, es) == [Rec(k, Lines(es, i), full)] + tail && RecsIn(marks, es)[1..] == tail;
      case Line(_, _) =>
        assert RecsIn(marks, es) == tail;
        if marks[0].id != id {
          assert RecsIn(Without(marks, id), Without(es, id)) == RecsIn(rest, Without(es, id));
        }
    }
  }

  // ---- Room ----

  lemma {:induction false} RecSizesSet(rs: seq<Rec>, i: nat, r: Rec)
    requires i < |rs|
    ensures RecSizes(rs[i := r]) + LineSizes(rs[i].lines) == RecSizes(rs) + LineSizes(r.lines)
  {
    if i == 0 {
      assert rs[0 := r][1..] == rs[1..];
    } else {
      assert rs[i := r][1..] == rs[1..][i - 1 := r];
      RecSizesSet(rs[1..], i - 1, r);
    }
  }

  lemma {:induction false} RecSizesAppend(rs: seq<Rec>, r: Rec)
    ensures RecSizes(rs + [r]) == RecSizes(rs) + 6 + LineSizes(r.lines)
  {
    if rs != [] {
      assert (rs + [r])[1..] == rs[1..] + [r];
      RecSizesAppend(rs[1..], r);
    } else {
      assert [r][1..] == [];
    }
  }

  lemma {:induction false} LineSizesAppend(ls: seq<seq<Byte>>, text: seq<Byte>)
    ensures LineSizes(ls + [text]) == LineSizes(ls) + 2 + |text|
  {
    if ls != [] {
      assert (ls + [text])[1..] == ls[1..] + [text];
      LineSizesAppend(ls[1..], text);
    } else {
      assert [text][1..] == [];
    }
  }

  /** What comes before the last entry scans, a last marker's id is new, and a last line's is not. */
  lemma {:induction false} ScansLast(es: seq<Entry>, e: Entry, ids: set<nat>, keys: set<nat>)
    requires Scans(es + [e], ids, keys)
    ensures Scans(es, ids, keys)
    ensures e.Mark? ==> e.id !in ids && MarkOfId(es, e.id) == |es|
    ensures e.Line? ==> e.id in ids || MarkOfId(es, e.id) < |es|
  {
    if es == [] {
      assert ([] + [e])[0] == e;
    } else {
      assert (es + [e])[1..] == es[1..] + [e] && (es + [e])[0] == es[0];
      match es[0]
      case Mark(i, _, k) => ScansLast(es[1..], e, ids + {i}, keys + {k});
      case Line(_, _) => ScansLast(es[1..], e, ids, keys);
    }
  }

  /** The entries take up what the records do. */
  lemma {:induction false} SizesAgree(es: seq<Entry>)
    requires Scans(es, {}, {})
    ensures SizeAll(es) == RecSizes(Recs(es))
    decreases |es|
  {
    if es != [] {
      var n := |es| - 1;
      var rest, e := es[..n], es[n];
      assert es == rest + [e];
      ScansLast(rest, e, {}, {});
      SizesAgree(rest);
      SizeAppend(rest, [e]);
      assert SizeAll([e]) == Size(e) by { assert [e][1..] == []; }
      match e
      case Mark(id, full, key) =>
        MarkRecs(rest, id, full, key);
        RecSizesAppend(Recs(rest), Rec(key, [], full));
      case Line(id, text) =>
        var m := MarkOfId(rest, id);
        LineRecs(rest, m, text);
        var i, rs := Marks(rest[..m]), Recs(rest);
        RecSizesSet(rs, i, rs[i].(lines := rs[i].lines + [text]));
        LineSizesAppend(rs[i].lines, text);
    }
  }

  ghost function Ids(es: seq<Entry>): set<int> {
    if es == [] then {} else (if es[0].Mark? then {es[0].id} else {}) + Ids(es[1..])
  }

  lemma {:induction false} IdsCount(es: seq<Entry>, ids: set<nat>, keys: set<nat>)
    requires Scans(es, ids, keys)
    ensures |Ids(es)| == Marks(es) && (forall i :: i in Ids(es) ==> 0 <= i < ID_COUNT) && forall i :: i in ids ==> i !in Ids(es)
  {
    if es != [] {
      match es[0]
      case Mark(i, _, k) =>
        IdsCount(es[1..], ids + {i}, keys + {k});
        assert i in ids + {i} && Ids(es) == {i} + Ids(es[1..]);
      case Line(_, _) =>
        IdsCount(es[1..], ids, keys);
        assert Ids(es) == Ids(es[1..]);
    }
  }

  lemma {:induction false} IdsAre(es: seq<Entry>, id: nat)
    ensures id in Ids(es) <==> MarkOfId(es, id) < |es|
  {
    if es != [] {
      IdsAre(es[1..], id);
    }
  }

  /** An id is free exactly while fewer than all are open. */
  lemma IdFree(es: seq<Entry>)
    requires Scans(es, {}, {})
    ensures FreeId(es, 0) < ID_COUNT <==> |Recs(es)| < ID_COUNT
  {
    hide Scans, FreeId, RecsIn, Marks, MarkOfId, Ids, Sets.Below;
    IdsCount(es, {}, {});
    RecsCount(es, es);
    if FreeId(es, 0) < ID_COUNT {
      OneFree(Ids(es), es, FreeId(es, 0));
    } else {
      NoneFree(Ids(es), es);
    }
  }

  lemma OneFree(ids: set<int>, es: seq<Entry>, id: nat)
    requires ids == Ids(es) && id < ID_COUNT && MarkOfId(es, id) == |es| && forall i :: i in ids ==> 0 <= i < ID_COUNT
    ensures |ids| < ID_COUNT
  {
    hide Sets.Below;
    IdsAre(es, id);
    var all := Sets.Below(ID_COUNT);
    assert ids <= all - {id};
    Sets.SubsetSize(ids, all - {id});
  }

  lemma NoneFree(ids: set<int>, es: seq<Entry>)
    requires ids == Ids(es) && forall i :: 0 <= i < ID_COUNT ==> MarkOfId(es, i) < |es|
    ensures |ids| >= ID_COUNT
  {
    hide Sets.Below;
    var all := Sets.Below(ID_COUNT);
    forall i: nat | i < ID_COUNT
      ensures i in ids
    {
      IdsAre(es, i);
    }
    Sets.SubsetSize(all, ids);
  }

  // ---- The store's operations are the ledger's ----

  lemma HeadIs(s: Store)
    requires StoreOk(s)
    ensures HeadAt(s) == Head(Abs(s))
  {
    SizesAgree(s.entries);
  }

  lemma AddLineIs(s: Store, size: nat, m: nat, text: seq<Byte>, max: nat)
    requires StoreOk(s) && m < |s.entries| && s.entries[m].Mark?
    ensures var i := Marks(s.entries[..m]);
            i < |Recs(s.entries)| && Abs(AppendLine(s, size, m, text, max)) == AddLine(Abs(s), size, i, text, max)
  {
    hide RecsIn, Marks, Lines, Text, SizeAll, Scans;
    HeadIs(s);
    RecAt(s.entries, s.entries, m);
    JoinLines(s.entries, s.entries[m].id);
    LineRecs(s.entries, m, text);
    FullRecs(s.entries, m);
  }

  /** An append is the ledger's, and says so: it is refused exactly when the record cannot be opened. */
  lemma AppendIs(s: Store, size: nat, key: nat, text: seq<Byte>, max: nat)
    requires StoreOk(s) && key < 0x1_0000_0000
    ensures var (t, ok) := Append(s, size, key, text, max);
            && Abs(t) == Added(Abs(s), size, key, text, max)
            && (ok <==> Find(Recs(s.entries), key) < |Recs(s.entries)| || CanOpen(Abs(s), size))
  {
    hide RecsIn, Marks, AppendLine, AddLine, FreeId, MarkOf, Scans;
    var es := s.entries;
    var m := MarkOf(es, key);
    FindIs(es, es, key);
    if m < |es| {
      AddLineIs(s, size, m, text, max);
    } else {
      HeadIs(s);
      IdFree(es);
      var id := FreeId(es, 0);
      if id < ID_COUNT {
        MarkedOk(s, id, key);
        MarkRecs(es, id, false, key);
        RecsCount(es, es);
        AddLineIs(s.(entries := es + [Mark(id, false, key)]), size, m, text, max);
        assert (es + [Mark(id, false, key)])[..m] == es;
      }
    }
  }

  lemma {:induction false} SettleIs(s: Store)
    ensures Settle(s).entries == s.entries
    ensures Settle(s.(entries := [])) == Settle(s).(entries := [])
    decreases |s.committed|
  {
    if s.committed != [] && s.taken == |s.committed[0]| {
      SettleIs(Store(s.tail + 2 + |s.committed[0]|, s.committed[1..], 0, s.entries));
    }
  }

  lemma SettledIs(s: Store)
    ensures Abs(Settle(s)) == Settled(Abs(s))
  {
    SettleIs(s);
  }

  lemma CommitIs(s: Store, key: nat)
    requires StoreOk(s)
    ensures Abs(Commit(s, key).0) == Published(Abs(s), key)
    ensures Commit(s, key).1 <==> Find(Recs(s.entries), key) < |Recs(s.entries)|
  {
    hide RecsIn, Marks, Settle, Scans, Without, Removed;
    var es := s.entries;
    var m := MarkOf(es, key);
    FindIs(es, es, key);
    if m < |es| {
      var id := es[m].id;
      RecAt(es, es, m);
      JoinLines(es, id);
      MarksPair(es, m);
      WithoutRecs(es, es, id, key);
      var text := Text(es, id);
      SettledIs(s.(committed := if text == [] then s.committed else s.committed + [text], entries := Without(es, id)));
    }
  }

  lemma AbandonIs(s: Store, key: nat)
    requires StoreOk(s)
    ensures Abs(Abandon(s, key)) == Forgotten(Abs(s), key)
  {
    hide RecsIn, Marks, Settle, Scans, Without, Removed;
    var es := s.entries;
    var m := MarkOf(es, key);
    FindIs(es, es, key);
    if m < |es| {
      RecAt(es, es, m);
      MarksPair(es, m);
      WithoutRecs(es, es, es[m].id, key);
      SettledIs(s.(entries := Without(es, es[m].id)));
    }
  }

  lemma TakeIs(s: Store, n: nat)
    ensures Abs(Take(s, n)) == Read(Abs(s), n)
  {
    SettledIs(s.(taken := s.taken + n));
  }

  /** The open records' texts are the ledger's lines, joined. */
  lemma {:induction false} OpenIs(marks: seq<Entry>, es: seq<Entry>)
    ensures |OpenIn(marks, es)| == |RecsIn(marks, es)|
    ensures forall i :: 0 <= i < |RecsIn(marks, es)| ==>
              OpenIn(marks, es)[i] == (RecsIn(marks, es)[i].key, Join(RecsIn(marks, es)[i].lines))
  {
    if marks != [] {
      OpenIs(marks[1..], es);
      if marks[0].Mark? {
        JoinLines(es, marks[0].id);
      }
    }
  }
}
