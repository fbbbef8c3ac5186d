/** Kernel records held for a published console's driver, as values: the committed records a reader
    takes in order, and the open records' entries, interleaved as they were appended. */
module HeldRecords {
  type Byte = x: int | 0 <= x < 256

  /** One entry of the open area: a record's opening marker, or one line of it. */
  datatype Entry = Mark(id: nat, full: bool, key: nat) | Line(id: nat, text: seq<Byte>)

  const ID_COUNT: nat := 128

  predicate EntryOk(e: Entry) {
    e.id < ID_COUNT && match e
                       case Mark(_, _, key) => key < 0x1_0000_0000
                       case Line(_, text) => 1 <= |text| <= 255
  }

  // ---- Bytes ----

  /** A marker is its id, HELD_FULL in the id's top bit, a zero, and its key's four bytes; a line is
      its id, its length, and its bytes. */
  function Enc(e: Entry): (b: seq<Byte>)
    requires EntryOk(e)
    ensures |b| == Size(e)
  {
    match e
    case Mark(id, full, key) =>
      [id + (if full then 0x80 else 0), 0, key % 256, key / 256 % 256, key / 65536 % 256, key / 16777216 % 256]
    case Line(id, text) => [id, |text|] + text
  }

  function Size(e: Entry): (n: nat)
    ensures n >= 2
  {
    match e
    case Mark(_, _, _) => 6
    case Line(_, text) => 2 + |text|
  }

  ghost predicate AllOk(es: seq<Entry>) { forall i :: 0 <= i < |es| ==> EntryOk(es[i]) }

  function SizeAll(es: seq<Entry>): nat { if es == [] then 0 else Size(es[0]) + SizeAll(es[1..]) }

  ghost function EncAll(es: seq<Entry>): (b: seq<Byte>)
    requires AllOk(es)
    ensures |b| == SizeAll(es)
  {
    if es == [] then [] else Enc(es[0]) + EncAll(es[1..])
  }

  predicate RecordOk(r: seq<Byte>) { 1 <= |r| <= 0xFFFF }

  /** A committed record is its length, low byte first, and its bytes. */
  function EncRecord(r: seq<Byte>): (b: seq<Byte>)
    requires RecordOk(r)
    ensures |b| == 2 + |r|
  {
    [|r| % 256, |r| / 256] + r
  }

  ghost predicate RecordsOk(rs: seq<seq<Byte>>) { forall i :: 0 <= i < |rs| ==> RecordOk(rs[i]) }

  ghost function EncRecords(rs: seq<seq<Byte>>): seq<Byte>
    requires RecordsOk(rs)
  {
    if rs == [] then [] else EncRecord(rs[0]) + EncRecords(rs[1..])
  }

  lemma {:induction false} SizeAppend(a: seq<Entry>, b: seq<Entry>)
    ensures SizeAll(a + b) == SizeAll(a) + SizeAll(b)
  {
    if a == [] {
      assert a + b == b;
    } else {
      assert (a + b)[1..] == a[1..] + b;
      SizeAppend(a[1..], b);
    }
  }

  lemma {:induction false} EncAppend(a: seq<Entry>, b: seq<Entry>)
    requires AllOk(a) && AllOk(b)
    ensures AllOk(a + b) && EncAll(a + b) == EncAll(a) + EncAll(b)
  {
    hide Enc;
    if a == [] {
      assert a + b == b;
    } else {
      assert (a + b)[1..] == a[1..] + b;
      EncAppend(a[1..], b);
    }
  }

  lemma {:induction false} EncRecordsAppend(a: seq<seq<Byte>>, b: seq<seq<Byte>>)
    requires RecordsOk(a) && RecordsOk(b)
    ensures RecordsOk(a + b) && EncRecords(a + b) == EncRecords(a) + EncRecords(b)
  {
    hide EncRecord, RecordOk;
    if a == [] {
      assert a + b == b;
    } else {
      assert (a + b)[1..] == a[1..] + b && (a + b)[0] == a[0];
      EncRecordsAppend(a[1..], b);
      var r := EncRecord(a[0]);
      assert r + (EncRecords(a[1..]) + EncRecords(b)) == (r + EncRecords(a[1..])) + EncRecords(b);
    }
  }

  // ---- Records among the entries ----

  /** The lines of record `id`, joined in append order. */
  function Text(es: seq<Entry>, id: nat): seq<Byte> {
    if es == [] then []
    else (if es[0].Line? && es[0].id == id then es[0].text else []) + Text(es[1..], id)
  }

  function Only(es: seq<Entry>, id: nat): seq<Entry> {
    if es == [] then [] else (if es[0].id == id then [es[0]] else []) + Only(es[1..], id)
  }

  function Without(es: seq<Entry>, id: nat): seq<Entry> {
    if es == [] then [] else (if es[0].id != id then [es[0]] else []) + Without(es[1..], id)
  }

  /** The first marker under `key`, or the number of entries. */
  function MarkOf(es: seq<Entry>, key: nat): (i: nat)
    ensures i <= |es|
    ensures i < |es| ==> es[i].Mark? && es[i].key == key
    ensures forall j :: 0 <= j < i ==> !(es[j].Mark? && es[j].key == key)
  {
    if es == [] || (es[0].Mark? && es[0].key == key) then 0 else 1 + MarkOf(es[1..], key)
  }

  /** The first marker of record `id`, or the number of entries. */
  function MarkOfId(es: seq<Entry>, id: nat): (i: nat)
    ensures i <= |es|
    ensures i < |es| ==> es[i].Mark? && es[i].id == id
    ensures forall j :: 0 <= j < i ==> !(es[j].Mark? && es[j].id == id)
  {
    if es == [] || (es[0].Mark? && es[0].id == id) then 0 else 1 + MarkOfId(es[1..], id)
  }

  /** The least id from `id` on with no record open under it, or ID_COUNT. */
  function FreeId(es: seq<Entry>, id: nat): (r: nat)
    requires id <= ID_COUNT
    ensures id <= r <= ID_COUNT
    ensures r < ID_COUNT ==> MarkOfId(es, r) == |es|
    ensures forall i :: id <= i < r ==> MarkOfId(es, i) < |es|
    decreases ID_COUNT - id
  {
    if id == ID_COUNT || MarkOfId(es, id) == |es| then id else FreeId(es, id + 1)
  }

  /** Read in order, each marker opens a record of its own under a key of its own, and each line falls
      in a record already open; `ids` and `keys` are those open before. */
  ghost predicate Scans(es: seq<Entry>, ids: set<nat>, keys: set<nat>) {
    es == [] || (EntryOk(es[0]) &&
                 match es[0]
                 case Mark(id, _, key) => id !in ids && key !in keys && Scans(es[1..], ids + {id}, keys + {key})
                 case Line(id, _) => id in ids && Scans(es[1..], ids, keys))
  }

  ghost predicate Wf(es: seq<Entry>) { Scans(es, {}, {}) && forall id {:trigger Text(es, id)} :: |Text(es, id)| <= 0xFFFF }

  // ---- The store ----

  /** `tail` is where the first committed record starts and `taken` how much of it was taken. */
  datatype Store = Store(tail: nat, committed: seq<seq<Byte>>, taken: nat, entries: seq<Entry>)

  function SizeRecords(rs: seq<seq<Byte>>): nat { if rs == [] then 0 else 2 + |rs[0]| + SizeRecords(rs[1..]) }

  function OpenAt(s: Store): nat { s.tail + SizeRecords(s.committed) }

  function HeadAt(s: Store): nat { OpenAt(s) + SizeAll(s.entries) }

  ghost predicate StoreOk(s: Store) {
    && RecordsOk(s.committed) && Wf(s.entries)
    && (if s.committed == [] then s.taken == 0 && s.tail == 0 else s.taken < |s.committed[0]|)
  }

  /** Holds one line in `key`'s record, opening it on the first. A line that does not fit, and every
      later line of that record, is dropped. */
  function Append(s: Store, size: nat, key: nat, text: seq<Byte>, max: nat): (Store, bool) {
    var m := MarkOf(s.entries, key);
    if m < |s.entries| then (AppendLine(s, size, m, text, max), true)
    else
      var id := FreeId(s.entries, 0);
      if id == ID_COUNT || HeadAt(s) + 6 > size then (s, false)
      else (AppendLine(s.(entries := s.entries + [Mark(id, false, key)]), size, m, text, max), true)
  }

  function AppendLine(s: Store, size: nat, m: nat, text: seq<Byte>, max: nat): Store
    requires m < |s.entries| && s.entries[m].Mark?
  {
    var mark := s.entries[m];
    if mark.full || text == [] then s
    else if |text| > 0xFF || |Text(s.entries, mark.id)| + |text| > max || HeadAt(s) + 2 + |text| > size then
      s.(entries := s.entries[m := mark.(full := true)])
    else s.(entries := s.entries + [Line(mark.id, text)])
  }

  /** Drops the records the reader has taken whole; with none left the open area starts the store. */
  function Settle(s: Store): Store
    decreases |s.committed|
  {
    if s.committed == [] then s.(tail := 0)
    else if s.taken != |s.committed[0]| then s
    else Settle(Store(s.tail + 2 + |s.committed[0]|, s.committed[1..], 0, s.entries))
  }

  function Commit(s: Store, key: nat): (Store, bool) {
    var m := MarkOf(s.entries, key);
    if m == |s.entries| then (s, false)
    else
      var id := s.entries[m].id;
      var text := Text(s.entries, id);
      (Settle(s.(committed := if text == [] then s.committed else s.committed + [text],
                 entries := Without(s.entries, id))), true)
  }

  function Abandon(s: Store, key: nat): Store {
    var m := MarkOf(s.entries, key);
    if m == |s.entries| then s else Settle(s.(entries := Without(s.entries, s.entries[m].id)))
  }

  function Ready(s: Store): nat
    requires s.committed != [] ==> s.taken <= |s.committed[0]|
  {
    if s.committed == [] then 0 else |s.committed[0]| - s.taken
  }

  function Take(s: Store, n: nat): Store { Settle(s.(taken := s.taken + n)) }
}
