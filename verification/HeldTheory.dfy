/** What the held store's operations do to the records, whichever way their entries interleave. */
module HeldTheory {
  import opened HeldRecords

  // ---- Scans ----

  lemma {:induction false} ScansOk(es: seq<Entry>, ids: set<nat>, keys: set<nat>)
    requires Scans(es, ids, keys)
    ensures AllOk(es)
  {
    if es != [] {
      match es[0]
      case Mark(id, _, key) => ScansOk(es[1..], ids + {id}, keys + {key});
      case Line(id, _) => ScansOk(es[1..], ids, keys);
    }
  }

  lemma {:induction false} ScansMark(es: seq<Entry>, ids: set<nat>, keys: set<nat>, id: nat, key: nat)
    requires Scans(es, ids, keys) && id < ID_COUNT && key < 0x1_0000_0000
    requires id !in ids && key !in keys && MarkOfId(es, id) == |es| && MarkOf(es, key) == |es|
    ensures Scans(es + [Mark(id, false, key)], ids, keys)
  {
    if es != [] {
      assert (es + [Mark(id, false, key)])[1..] == es[1..] + [Mark(id, false, key)];
      match es[0]
      case Mark(i, _, k) => ScansMark(es[1..], ids + {i}, keys + {k}, id, key);
      case Line(_, _) => ScansMark(es[1..], ids, keys, id, key);
    }
  }

  lemma {:induction false} ScansLine(es: seq<Entry>, ids: set<nat>, keys: set<nat>, id: nat, text: seq<Byte>)
    requires Scans(es, ids, keys) && EntryOk(Line(id, text)) && (id in ids || MarkOfId(es, id) < |es|)
    ensures Scans(es + [Line(id, text)], ids, keys)
  {
    if es != [] {
      assert (es + [Line(id, text)])[1..] == es[1..] + [Line(id, text)];
      match es[0]
      case Mark(i, _, k) => ScansLine(es[1..], ids + {i}, keys + {k}, id, text);
      case Line(_, _) => ScansLine(es[1..], ids, keys, id, text);
    }
  }

  lemma {:induction false} ScansFull(es: seq<Entry>, ids: set<nat>, keys: set<nat>, m: nat)
    requires Scans(es, ids, keys) && m < |es| && es[m].Mark?
    ensures Scans(es[m := es[m].(full := true)], ids, keys)
  {
    var es' := es[m := es[m].(full := true)];
    if m == 0 {
      assert es'[1..] == es[1..];
    } else {
      assert es'[1..] == es[1..][m - 1 := es[m].(full := true)];
      match es[0]
      case Mark(i, _, k) => ScansFull(es[1..], ids + {i}, keys + {k}, m - 1);
      case Line(_, _) => ScansFull(es[1..], ids, keys, m - 1);
    }
  }

  lemma {:induction false} ScansWithout(es: seq<Entry>, ids: set<nat>, keys: set<nat>, id: nat, ids': set<nat>, keys': set<nat>)
    requires Scans(es, ids, keys) && ids - {id} <= ids' <= ids && keys' <= keys
    ensures Scans(Without(es, id), ids', keys')
  {
    if es != [] {
      var rest := Without(es[1..], id);
      if es[0].id != id {
        assert Without(es, id) == [es[0]] + rest && ([es[0]] + rest)[1..] == rest;
      } else {
        assert Without(es, id) == rest;
      }
      match es[0]
      case Mark(i, _, k) =>
        if i == id {
          ScansWithout(es[1..], ids + {i}, keys + {k}, id, ids', keys');
        } else {
          ScansWithout(es[1..], ids + {i}, keys + {k}, id, ids' + {i}, keys' + {k});
        }
      case Line(_, _) =>
        ScansWithout(es[1..], ids, keys, id, ids', keys');
    }
  }

  /** Two markers of one record, or of one key, cannot both be there. */
  lemma {:induction false} ScansDistinct(es: seq<Entry>, ids: set<nat>, keys: set<nat>, i: nat)
    requires Scans(es, ids, keys) && i < |es| && es[i].Mark?
    ensures es[i].id !in ids && es[i].key !in keys
    ensures MarkOfId(es, es[i].id) == i && MarkOf(es, es[i].key) == i
  {
    if i > 0 {
      match es[0]
      case Mark(a, _, k) => ScansDistinct(es[1..], ids + {a}, keys + {k}, i - 1);
      case Line(_, _) => ScansDistinct(es[1..], ids, keys, i - 1);
    }
  }

  // ---- Texts ----

  lemma {:induction false} TextAppend(a: seq<Entry>, b: seq<Entry>, id: nat)
    ensures Text(a + b, id) == Text(a, id) + Text(b, id)
  {
    if a == [] {
      assert a + b == b;
    } else {
      assert (a + b)[1..] == a[1..] + b && (a + b)[0] == a[0];
      TextAppend(a[1..], b, id);
      var h := if a[0].Line? && a[0].id == id then a[0].text else [];
      Regroup(h, Text(a[1..], id), Text(b, id));
    }
  }

  lemma Regroup(x: seq<Byte>, y: seq<Byte>, z: seq<Byte>)
    ensures x + (y + z) == (x + y) + z
  {
  }

  lemma {:induction false} TextFull(es: seq<Entry>, m: nat, id: nat)
    requires m < |es| && es[m].Mark?
    ensures Text(es[m := es[m].(full := true)], id) == Text(es, id)
  {
    if m == 0 {
      assert es[0 := es[0].(full := true)][1..] == es[1..];
    } else {
      assert es[m := es[m].(full := true)][1..] == es[1..][m - 1 := es[m].(full := true)];
      TextFull(es[1..], m - 1, id);
    }
  }

  /** Taking one record's entries out leaves every other record's text as it was. */
  lemma {:induction false} TextWithout(es: seq<Entry>, id: nat, other: nat)
    ensures Text(Without(es, id), other) == if other == id then [] else Text(es, other)
  {
    if es != [] {
      TextWithout(es[1..], id, other);
      if es[0].id != id {
        assert ([es[0]] + Without(es[1..], id))[1..] == Without(es[1..], id);
      } else {
        assert Without(es, id) == Without(es[1..], id);
      }
    }
  }

  // ---- Every operation keeps the store well formed ----

  lemma AppendLineOk(s: Store, size: nat, m: nat, text: seq<Byte>, max: nat)
    requires StoreOk(s) && m < |s.entries| && s.entries[m].Mark? && max <= 0xFFFF
    ensures StoreOk(AppendLine(s, size, m, text, max))
  {
    var es, id := s.entries, s.entries[m].id;
    var es' := AppendLine(s, size, m, text, max).entries;
    ScansOk(es, {}, {});
    ScansDistinct(es, {}, {}, m);
    ScansFull(es, {}, {}, m);
    if |text| > 0 && |text| <= 255 {
      ScansLine(es, {}, {}, id, text);
    }
    forall i
      ensures |Text(es', i)| <= 0xFFFF
    {
      TextAppend(es, [Line(id, text)], i);
      TextFull(es, m, i);
      assert |Text(es, i)| <= 0xFFFF;
    }
  }

  lemma AppendOk(s: Store, size: nat, key: nat, text: seq<Byte>, max: nat)
    requires StoreOk(s) && key < 0x1_0000_0000 && max <= 0xFFFF
    ensures StoreOk(Append(s, size, key, text, max).0)
  {
    hide AppendLine;
    var m := MarkOf(s.entries, key);
    if m < |s.entries| {
      AppendLineOk(s, size, m, text, max);
    } else {
      var id := FreeId(s.entries, 0);
      if id < ID_COUNT {
        var t := s.(entries := s.entries + [Mark(id, false, key)]);
        MarkedOk(s, id, key);
        AppendLineOk(t, size, m, text, max);
      }
    }
  }

  lemma WithoutWf(es: seq<Entry>, id: nat)
    requires Wf(es)
    ensures Wf(Without(es, id))
  {
    ScansWithout(es, {}, {}, id, {}, {});
    forall i
      ensures |Text(Without(es, id), i)| <= 0xFFFF
    {
      TextWithout(es, id, i);
      assert |Text(es, i)| <= 0xFFFF;
    }
  }

  /** With no record half taken and none empty, settling is a matter of the tail alone. */
  lemma SettleOk(s: Store)
    requires RecordsOk(s.committed) && Wf(s.entries)
    requires if s.committed == [] then s.taken == 0 else s.taken <= |s.committed[0]|
    ensures StoreOk(Settle(s)) && Settle(s).entries == s.entries
    ensures Settle(s).committed ==
            (if s.committed != [] && s.taken == |s.committed[0]| then s.committed[1..] else s.committed)
  {
    if s.committed != [] && s.taken == |s.committed[0]| {
      var t := Store(s.tail + 2 + |s.committed[0]|, s.committed[1..], 0, s.entries);
      if t.committed != [] {
        assert t.committed[0] == s.committed[1];
      }
    }
  }

  lemma CommitOk(s: Store, key: nat)
    requires StoreOk(s)
    ensures StoreOk(Commit(s, key).0)
  {
    var m := MarkOf(s.entries, key);
    if m < |s.entries| {
      var id := s.entries[m].id;
      WithoutWf(s.entries, id);
      var text := Text(s.entries, id);
      assert |text| <= 0xFFFF;
      SettleOk(s.(committed := if text == [] then s.committed else s.committed + [text], entries := Without(s.entries, id)));
    }
  }

  lemma AbandonOk(s: Store, key: nat)
    requires StoreOk(s)
    ensures StoreOk(Abandon(s, key))
  {
    var m := MarkOf(s.entries, key);
    if m < |s.entries| {
      WithoutWf(s.entries, s.entries[m].id);
      SettleOk(s.(entries := Without(s.entries, s.entries[m].id)));
    }
  }

  lemma TakeOk(s: Store, n: nat)
    requires StoreOk(s) && n <= Ready(s)
    ensures StoreOk(Take(s, n))
  {
    SettleOk(s.(taken := s.taken + n));
  }

  // ---- What a commit publishes ----

  /** The open records in the order they opened, each with its key and its lines joined. */
  ghost function OpenIn(marks: seq<Entry>, es: seq<Entry>): seq<(nat, seq<Byte>)> {
    if marks == [] then []
    else (match marks[0]
          case Mark(id, _, key) => [(key, Text(es, id))]
          case Line(_, _) => []) + OpenIn(marks[1..], es)
  }

  ghost function OpenRecords(es: seq<Entry>): seq<(nat, seq<Byte>)> { OpenIn(es, es) }

  ghost function Dropped(rs: seq<(nat, seq<Byte>)>, key: nat): seq<(nat, seq<Byte>)> {
    if rs == [] then [] else (if rs[0].0 == key then [] else [rs[0]]) + Dropped(rs[1..], key)
  }

  lemma {:induction false} OpenInWithout(marks: seq<Entry>, es: seq<Entry>, id: nat, key: nat)
    requires forall i :: 0 <= i < |marks| && marks[i].Mark? ==> (marks[i].id == id <==> marks[i].key == key)
    ensures OpenIn(Without(marks, id), Without(es, id)) == Dropped(OpenIn(marks, es), key)
  {
    if marks != [] {
      OpenInWithout(marks[1..], es, id, key);
      var rest := Without(marks[1..], id);
      TextWithout(es, id, marks[0].id);
      if marks[0].id == id {
        assert Without(marks, id) == rest;
      } else {
        assert Without(marks, id) == [marks[0]] + rest && ([marks[0]] + rest)[1..] == rest;
      }
      var tail := OpenIn(marks[1..], es);
      match marks[0]
      case Mark(i, _, k) =>
        assert OpenIn(marks, es) == [(k, Text(es, i))] + tail && ([(k, Text(es, i))] + tail)[1..] == tail;
      case Line(_, _) =>
        assert OpenIn(marks, es) == tail;
        if marks[0].id != id {
          assert OpenIn(Without(marks, id), Without(es, id)) == OpenIn(rest, Without(es, id));
        }
    }
  }

  lemma {:induction false} OpenInHas(marks: seq<Entry>, es: seq<Entry>, m: nat)
    requires m < |marks| && marks[m].Mark?
    ensures (marks[m].key, Text(es, marks[m].id)) in OpenIn(marks, es)
  {
    if m > 0 {
      OpenInHas(marks[1..], es, m - 1);
    }
  }

  lemma {:induction false} OpenInKeys(marks: seq<Entry>, es: seq<Entry>, key: nat)
    requires MarkOf(marks, key) == |marks|
    ensures forall i :: 0 <= i < |OpenIn(marks, es)| ==> OpenIn(marks, es)[i].0 != key
  {
    if marks != [] {
      OpenInKeys(marks[1..], es, key);
    }
  }

  lemma MarksPair(es: seq<Entry>, m: nat)
    requires Wf(es) && m < |es| && es[m].Mark?
    ensures forall i :: 0 <= i < |es| && es[i].Mark? ==> (es[i].id == es[m].id <==> es[i].key == es[m].key)
  {
    ScansDistinct(es, {}, {}, m);
    forall i | 0 <= i < |es| && es[i].Mark?
      ensures es[i].id == es[m].id <==> es[i].key == es[m].key
    {
      ScansDistinct(es, {}, {}, i);
    }
  }

  /** A commit publishes exactly the lines held in its record, in order, behind everything committed
      before, and leaves every other open record and their order as they were. */
  lemma CommitExact(s: Store, key: nat, text: seq<Byte>)
    requires StoreOk(s) && (key, text) in OpenRecords(s.entries)
    ensures Commit(s, key).1
    ensures Commit(s, key).0.committed == s.committed + (if text == [] then [] else [text])
    ensures Commit(s, key).0.taken == s.taken
    ensures OpenRecords(Commit(s, key).0.entries) == Dropped(OpenRecords(s.entries), key)
  {
    var m := MarkOf(s.entries, key);
    if m == |s.entries| {
      OpenInKeys(s.entries, s.entries, key);
      assert false;
    }
    var id := s.entries[m].id;
    MarksPair(s.entries, m);
    OpenInOnly(s.entries, s.entries, key, id, text);
    OpenInWithout(s.entries, s.entries, id, key);
    WithoutWf(s.entries, id);
    SettleOk(s.(committed := if text == [] then s.committed else s.committed + [text], entries := Without(s.entries, id)));
  }

  lemma {:induction false} OpenInOnly(marks: seq<Entry>, es: seq<Entry>, key: nat, id: nat, text: seq<Byte>)
    requires (key, text) in OpenIn(marks, es)
    requires forall i :: 0 <= i < |marks| && marks[i].Mark? ==> (marks[i].id == id <==> marks[i].key == key)
    ensures text == Text(es, id)
  {
    if marks[0].Line? || (marks[0].key, Text(es, marks[0].id)) != (key, text) {
      OpenInOnly(marks[1..], es, key, id, text);
    }
  }

  lemma CommitNone(s: Store, key: nat)
    requires StoreOk(s) && forall text :: (key, text) !in OpenRecords(s.entries)
    ensures Commit(s, key) == (s, false) && Abandon(s, key) == s
  {
    var m := MarkOf(s.entries, key);
    if m < |s.entries| {
      OpenInHas(s.entries, s.entries, m);
      assert false;
    }
  }

  /** Abandoning a record removes its lines and nothing else. */
  lemma AbandonExact(s: Store, key: nat)
    requires StoreOk(s)
    ensures Abandon(s, key).committed == s.committed && Abandon(s, key).taken == s.taken
    ensures OpenRecords(Abandon(s, key).entries) == Dropped(OpenRecords(s.entries), key)
  {
    var m := MarkOf(s.entries, key);
    if m < |s.entries| {
      MarksPair(s.entries, m);
      OpenInWithout(s.entries, s.entries, s.entries[m].id, key);
      WithoutWf(s.entries, s.entries[m].id);
      SettleOk(s.(entries := Without(s.entries, s.entries[m].id)));
    } else {
      OpenInKeys(s.entries, s.entries, key);
      DroppedNone(OpenRecords(s.entries), key);
    }
  }

  lemma {:induction false} DroppedNone(rs: seq<(nat, seq<Byte>)>, key: nat)
    requires forall i :: 0 <= i < |rs| ==> rs[i].0 != key
    ensures Dropped(rs, key) == rs
  {
    if rs != [] {
      DroppedNone(rs[1..], key);
    }
  }

  // ---- What an append adds ----

  /** `text` on the end of `key`'s record, and no other record touched. */
  ghost function Added(rs: seq<(nat, seq<Byte>)>, key: nat, text: seq<Byte>): seq<(nat, seq<Byte>)> {
    if rs == [] then []
    else [(rs[0].0, rs[0].1 + (if rs[0].0 == key then text else []))] + Added(rs[1..], key, text)
  }

  lemma {:induction false} OpenInLine(marks: seq<Entry>, es: seq<Entry>, id: nat, key: nat, text: seq<Byte>)
    requires forall i :: 0 <= i < |marks| && marks[i].Mark? ==> (marks[i].id == id <==> marks[i].key == key)
    ensures OpenIn(marks, es + [Line(id, text)]) == Added(OpenIn(marks, es), key, text)
  {
    if marks != [] {
      OpenInLine(marks[1..], es, id, key, text);
      var tail := OpenIn(marks[1..], es);
      match marks[0]
      case Mark(i, _, k) =>
        TextAppend(es, [Line(id, text)], i);
        assert Text([Line(id, text)], i) == if i == id then text else [];
        assert OpenIn(marks, es) == [(k, Text(es, i))] + tail && ([(k, Text(es, i))] + tail)[1..] == tail;
      case Line(_, _) =>
        assert OpenIn(marks, es) == tail;
    }
  }

  lemma {:induction false} OpenInAppend(a: seq<Entry>, b: seq<Entry>, es: seq<Entry>)
    ensures OpenIn(a + b, es) == OpenIn(a, es) + OpenIn(b, es)
  {
    if a == [] {
      assert a + b == b;
    } else {
      assert (a + b)[1..] == a[1..] + b;
      OpenInAppend(a[1..], b, es);
    }
  }

  lemma {:induction false} OpenInFull(marks: seq<Entry>, es: seq<Entry>, m: nat)
    requires m < |marks| && marks[m].Mark?
    ensures OpenIn(marks[m := marks[m].(full := true)], es) == OpenIn(marks, es)
  {
    var marks' := marks[m := marks[m].(full := true)];
    if m == 0 {
      assert marks'[1..] == marks[1..];
    } else {
      assert marks'[1..] == marks[1..][m - 1 := marks[m].(full := true)];
      OpenInFull(marks[1..], es, m - 1);
    }
  }

  /** Two stores whose records read alike list the same open records. */
  lemma {:induction false} OpenInSame(marks: seq<Entry>, es: seq<Entry>, es': seq<Entry>)
    requires forall id {:trigger Text(es, id)} :: Text(es', id) == Text(es, id)
    ensures OpenIn(marks, es') == OpenIn(marks, es)
  {
    if marks != [] {
      OpenInSame(marks[1..], es, es');
      if marks[0].Mark? {
        assert Text(es', marks[0].id) == Text(es, marks[0].id);
      }
    }
  }

  /** Whether the line goes in: the record dropped none before, and it fits the line, the record and the store. */
  predicate Accepts(s: Store, size: nat, m: nat, text: seq<Byte>, max: nat)
    requires m < |s.entries| && s.entries[m].Mark?
  {
    && !s.entries[m].full && 1 <= |text| <= 0xFF
    && |Text(s.entries, s.entries[m].id)| + |text| <= max && HeadAt(s) + 2 + |text| <= size
  }

  lemma AppendLineExact(s: Store, size: nat, m: nat, text: seq<Byte>, max: nat)
    requires StoreOk(s) && m < |s.entries| && s.entries[m].Mark?
    ensures AppendLine(s, size, m, text, max) == s.(entries := AppendLine(s, size, m, text, max).entries)
    ensures OpenRecords(AppendLine(s, size, m, text, max).entries) ==
            if Accepts(s, size, m, text, max) then Added(OpenRecords(s.entries), s.entries[m].key, text)
            else OpenRecords(s.entries)
  {
    var es := s.entries;
    if Accepts(s, size, m, text, max) {
      MarksPair(es, m);
      OpenInLine(es, es, es[m].id, es[m].key, text);
      var es' := es + [Line(es[m].id, text)];
      OpenInAppend(es, [Line(es[m].id, text)], es');
    } else {
      var es' := es[m := es[m].(full := true)];
      forall id {:trigger Text(es, id)}
        ensures Text(es', id) == Text(es, id)
      {
        TextFull(es, m, id);
      }
      OpenInSame(es', es, es');
      OpenInFull(es, es, m);
    }
  }

  lemma OpenMark(es: seq<Entry>, id: nat, key: nat)
    requires Wf(es) && MarkOfId(es, id) == |es|
    ensures OpenRecords(es + [Mark(id, false, key)]) == OpenRecords(es) + [(key, [])]
  {
    var es' := es + [Mark(id, false, key)];
    forall i {:trigger Text(es, i)}
      ensures Text(es', i) == Text(es, i)
    {
      TextAppend(es, [Mark(id, false, key)], i);
    }
    OpenInSame(es', es, es');
    OpenInAppend(es, [Mark(id, false, key)], es);
    ScansUnopened(es, {}, {}, id);
    assert OpenIn([Mark(id, false, key)], es) == [(key, [])];
  }

  lemma {:induction false} ScansUnopened(es: seq<Entry>, ids: set<nat>, keys: set<nat>, id: nat)
    requires Scans(es, ids, keys) && id !in ids && MarkOfId(es, id) == |es|
    ensures Text(es, id) == []
  {
    if es != [] {
      match es[0]
      case Mark(i, _, k) => ScansUnopened(es[1..], ids + {i}, keys + {k}, id);
      case Line(_, _) => ScansUnopened(es[1..], ids, keys, id);
    }
  }

  /** Appending opens the record last if its key held none, puts the whole line at the end of its
      record or nowhere, and disturbs no other record; it is refused only where it changes nothing. */
  lemma AppendExact(s: Store, size: nat, key: nat, text: seq<Byte>, max: nat)
    requires StoreOk(s) && key < 0x1_0000_0000
    ensures var (s', ok) := Append(s, size, key, text, max);
            var m := MarkOf(s.entries, key);
            var id := FreeId(s.entries, 0);
            var t := if m < |s.entries| then s else s.(entries := s.entries + [Mark(id, false, key)]);
            && s' == s.(entries := s'.entries)
            && ok == (m < |s.entries| || (id < ID_COUNT && HeadAt(s) + 6 <= size))
            && (!ok ==> s' == s)
            && (ok ==> OpenRecords(t.entries) == OpenRecords(s.entries) + (if m < |s.entries| then [] else [(key, [])]))
            && (ok ==> OpenRecords(s'.entries) ==
                       if Accepts(t, size, m, text, max) then Added(OpenRecords(t.entries), key, text)
                       else OpenRecords(t.entries))
  {
    hide AppendLine, Accepts, Added;
    var m := MarkOf(s.entries, key);
    if m < |s.entries| {
      AppendLineExact(s, size, m, text, max);
    } else {
      var id := FreeId(s.entries, 0);
      if id < ID_COUNT {
        var t := s.(entries := s.entries + [Mark(id, false, key)]);
        OpenMark(s.entries, id, key);
        MarkedOk(s, id, key);
        AppendLineExact(t, size, m, text, max);
      }
    }
  }

  lemma MarkedOk(s: Store, id: nat, key: nat)
    requires StoreOk(s) && key < 0x1_0000_0000 && id < ID_COUNT
    requires MarkOf(s.entries, key) == |s.entries| && MarkOfId(s.entries, id) == |s.entries|
    ensures StoreOk(s.(entries := s.entries + [Mark(id, false, key)]))
  {
    ScansMark(s.entries, {}, {}, id, key);
    forall i
      ensures |Text(s.entries + [Mark(id, false, key)], i)| <= 0xFFFF
    {
      TextAppend(s.entries, [Mark(id, false, key)], i);
      assert |Text(s.entries, i)| <= 0xFFFF;
    }
  }

  // ---- The reader's stream ----

  ghost function Flat(rs: seq<seq<Byte>>): seq<Byte> { if rs == [] then [] else rs[0] + Flat(rs[1..]) }

  lemma {:induction false} FlatAppend(a: seq<seq<Byte>>, b: seq<seq<Byte>>)
    ensures Flat(a + b) == Flat(a) + Flat(b)
  {
    if a == [] {
      assert a + b == b;
    } else {
      assert (a + b)[1..] == a[1..] + b;
      FlatAppend(a[1..], b);
    }
  }

  /** The committed bytes the reader has not taken. */
  ghost function Pending(s: Store): seq<Byte>
    requires StoreOk(s)
  {
    Flat(s.committed)[s.taken..]
  }

  /** Taking advances the reader over exactly the bytes it was shown, across record ends. */
  lemma TakeStream(s: Store, n: nat)
    requires StoreOk(s) && n <= Ready(s)
    ensures StoreOk(Take(s, n)) && Take(s, n).entries == s.entries
    ensures n <= |Pending(s)| && Pending(Take(s, n)) == Pending(s)[n..]
  {
    TakeOk(s, n);
    SettleOk(s.(taken := s.taken + n));
    if s.committed != [] {
      assert Flat(s.committed) == s.committed[0] + Flat(s.committed[1..]);
    }
  }

  lemma CommitStream(s: Store, key: nat, text: seq<Byte>)
    requires StoreOk(s) && (key, text) in OpenRecords(s.entries)
    ensures StoreOk(Commit(s, key).0) && Pending(Commit(s, key).0) == Pending(s) + text
  {
    CommitOk(s, key);
    CommitExact(s, key, text);
    FlatAppend(s.committed, [text]);
    assert Flat([text]) == text;
  }
}
