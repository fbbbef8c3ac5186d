/** Reading the held store's bytes back: which entry or record starts where. */
module HeldBytes {
  import opened HeldRecords

  /** `x` sits at `from`. */
  ghost predicate At(b: seq<Byte>, from: nat, x: seq<Byte>) { from + |x| <= |b| && b[from..from + |x|] == x }

  lemma AtSplit(b: seq<Byte>, from: nat, x: seq<Byte>, y: seq<Byte>)
    ensures At(b, from, x + y) <==> At(b, from, x) && At(b, from + |x|, y)
  {
    var n := |x| + |y|;
    if from + n <= |b| {
      var w := b[from..from + n];
      assert w[..|x|] == b[from..from + |x|] && w[|x|..] == b[from + |x|..from + |x| + |y|];
      if w == x + y {
        assert w[..|x|] == x && w[|x|..] == y;
      }
      assert w == w[..|x|] + w[|x|..];
    }
  }

  lemma AtIndex(b: seq<Byte>, from: nat, x: seq<Byte>, k: nat)
    requires At(b, from, x) && k < |x|
    ensures b[from + k] == x[k]
  {
    assert b[from..from + |x|][k] == x[k];
  }

  /** Nothing outside [lo, hi) has changed. */
  ghost predicate Kept(b: seq<Byte>, b': seq<Byte>, lo: nat, hi: nat) {
    |b'| == |b| && lo <= hi <= |b| && b'[..lo] == b[..lo] && b'[hi..] == b[hi..]
  }

  lemma KeptSame(b: seq<Byte>, lo: nat, hi: nat)
    requires lo <= hi <= |b|
    ensures Kept(b, b, lo, hi)
  {
  }

  lemma KeptTrans(a: seq<Byte>, b: seq<Byte>, c: seq<Byte>, lo: nat, hi: nat)
    requires Kept(a, b, lo, hi) && Kept(b, c, lo, hi)
    ensures Kept(a, c, lo, hi)
  {
  }

  lemma KeptWider(a: seq<Byte>, b: seq<Byte>, lo: nat, hi: nat, lo': nat, hi': nat)
    requires Kept(a, b, lo, hi) && lo' <= lo && hi <= hi' <= |a|
    ensures Kept(a, b, lo', hi')
  {
    assert b[..lo'] == b[..lo][..lo'] && a[..lo'] == a[..lo][..lo'];
    assert b[hi'..] == b[hi..][hi' - hi..] && a[hi'..] == a[hi..][hi' - hi..];
  }

  /** What sits outside a changed stretch still sits there. */
  lemma AtKept(b: seq<Byte>, b': seq<Byte>, lo: nat, hi: nat, from: nat, x: seq<Byte>)
    requires Kept(b, b', lo, hi) && At(b, from, x) && (from + |x| <= lo || hi <= from)
    ensures At(b', from, x)
  {
    if from + |x| <= lo {
      assert b'[from..from + |x|] == b'[..lo][from..from + |x|];
      assert b[from..from + |x|] == b[..lo][from..from + |x|];
    } else {
      forall i | from <= i < from + |x|
        ensures b'[i] == b[i]
      {
        assert b'[i] == b'[hi..][i - hi] && b[i] == b[hi..][i - hi];
      }
      assert b'[from..from + |x|] == b[from..from + |x|];
    }
  }

  // ---- Entries ----

  function Id(x: Byte): nat { x % 0x80 }

  /** How many bytes of [at, end) an entry read at `at` takes, none if they are too few for it. */
  function Fit(b: seq<Byte>, at: nat, end: nat): nat
    requires end <= |b|
  {
    if at >= end || end - at < 2 then 0
    else
      var size := if b[at + 1] == 0 then 6 else 2 + b[at + 1] as int;
      if size > end - at then 0 else size
  }

  function KeyAt(b: seq<Byte>, at: nat): nat
    requires at + 6 <= |b|
  {
    b[at + 2] as int + 256 * b[at + 3] as int + 65536 * b[at + 4] as int + 16777216 * b[at + 5] as int
  }

  lemma KeyBytes(key: nat)
    requires key < 0x1_0000_0000
    ensures key % 256 + 256 * (key / 256 % 256) + 65536 * (key / 65536 % 256) + 16777216 * (key / 16777216 % 256) == key
  {
    assert key / 65536 == key / 256 / 256 && key / 16777216 == key / 65536 / 256;
    assert key / 16777216 < 256;
  }

  lemma MarkBytes(id: nat, full: bool, key: nat)
    requires EntryOk(Mark(id, full, key))
    ensures var b := Enc(Mark(id, full, key));
            && Id(b[0]) == id && (b[0] >= 0x80 <==> full) && b[1] == 0
            && b[2] as int + 256 * b[3] as int + 65536 * b[4] as int + 16777216 * b[5] as int == key
  {
    KeyBytes(key);
  }

  lemma LineBytes(id: nat, text: seq<Byte>)
    requires EntryOk(Line(id, text))
    ensures var b := Enc(Line(id, text)); Id(b[0]) == id && b[1] == |text| && b[1] != 0 && b[2..] == text
  {
  }

  /** What the bytes at `at` say, when `e` is what was written there. */
  lemma EntryAt(b: seq<Byte>, at: nat, e: Entry)
    requires EntryOk(e) && At(b, at, Enc(e))
    ensures at + Size(e) <= |b| && Id(b[at]) == e.id
    ensures e.Mark? <==> b[at + 1] == 0
    ensures e.Mark? ==> KeyAt(b, at) == e.key && (b[at] >= 0x80 <==> e.full)
    ensures e.Line? ==> b[at + 1] == |e.text| && At(b, at + 2, e.text)
  {
    hide Enc, Id;
    AtIndex(b, at, Enc(e), 0);
    AtIndex(b, at, Enc(e), 1);
    match e
    case Mark(id, full, key) =>
      MarkBytes(id, full, key);
      AtIndex(b, at, Enc(e), 2);
      AtIndex(b, at, Enc(e), 3);
      AtIndex(b, at, Enc(e), 4);
      AtIndex(b, at, Enc(e), 5);
    case Line(id, text) =>
      LineBytes(id, text);
      var w := Enc(e);
      assert w == w[..2] + w[2..];
      AtSplit(b, at, w[..2], w[2..]);
  }

  /** Walking the entries of a stretch finds the next one, or the end. */
  lemma FitNext(b: seq<Byte>, at: nat, end: nat, es: seq<Entry>)
    requires AllOk(es) && at + SizeAll(es) == end <= |b| && At(b, at, EncAll(es))
    ensures Fit(b, at, end) == if es == [] then 0 else Size(es[0])
    ensures es != [] ==> At(b, at, Enc(es[0])) && At(b, at + Size(es[0]), EncAll(es[1..]))
    ensures es != [] ==> at + Size(es[0]) + SizeAll(es[1..]) == end
  {
    hide Enc, At;
    if es != [] {
      AtSplit(b, at, Enc(es[0]), EncAll(es[1..]));
      EntryAt(b, at, es[0]);
    }
  }

  // ---- Records ----

  function LenAt(b: seq<Byte>, at: nat): nat
    requires at + 2 <= |b|
  {
    b[at] as int + 256 * b[at + 1] as int
  }

  predicate RecordFits(b: seq<Byte>, at: nat, end: nat)
    requires end <= |b|
  {
    at < end && end - at >= 2 && LenAt(b, at) <= end - at - 2
  }

  /** The length the records of a stretch start with, and what follows it. */
  lemma RecordNext(b: seq<Byte>, at: nat, end: nat, rs: seq<seq<Byte>>)
    requires RecordsOk(rs) && at + SizeRecords(rs) == end <= |b| && At(b, at, EncRecords(rs))
    ensures RecordFits(b, at, end) <==> rs != []
    ensures rs != [] ==> LenAt(b, at) == |rs[0]| && At(b, at + 2, rs[0]) && At(b, at + 2 + |rs[0]|, EncRecords(rs[1..]))
    ensures rs != [] ==> at + 2 + |rs[0]| + SizeRecords(rs[1..]) == end
  {
    hide At;
    if rs != [] {
      var r := EncRecord(rs[0]);
      AtSplit(b, at, r, EncRecords(rs[1..]));
      AtIndex(b, at, r, 0);
      AtIndex(b, at, r, 1);
      AtSplit(b, at, r[..2], r[2..]);
      assert r == r[..2] + r[2..] && r[2..] == rs[0];
    }
  }

  lemma {:induction false} RecordsSize(rs: seq<seq<Byte>>)
    requires RecordsOk(rs)
    ensures |EncRecords(rs)| == SizeRecords(rs)
  {
    if rs != [] {
      RecordsSize(rs[1..]);
    }
  }

  // ---- Layout ----

  /** A store as an operation may leave it until it settles: its first record may be taken whole. */
  ghost predicate Loose(s: Store) {
    RecordsOk(s.committed) && Wf(s.entries) && if s.committed == [] then s.taken == 0 else s.taken <= |s.committed[0]|
  }

  /** The bytes of a store: the committed records from `tail`, the open entries from `open` to `head`. */
  ghost predicate Laid(b: seq<Byte>, s: Store, tail: nat, open: nat, head: nat, taken: nat) {
    && Loose(s) && AllOk(s.entries)
    && tail == s.tail && taken == s.taken && open == OpenAt(s) && head == HeadAt(s) <= |b|
    && At(b, tail, EncRecords(s.committed)) && At(b, open, EncAll(s.entries))
  }

  lemma {:induction false} SizeStep(es: seq<Entry>, i: nat)
    requires i < |es|
    ensures SizeAll(es[..i + 1]) == SizeAll(es[..i]) + Size(es[i])
  {
    assert es[..i + 1] == es[..i] + [es[i]];
    SizeAppend(es[..i], [es[i]]);
    assert SizeAll([es[i]]) == Size(es[i]) + SizeAll([es[i]][1..]);
  }

  /** Walking a stretch of entries entry by entry. */
  lemma WalkStep(b: seq<Byte>, from: nat, end: nat, es: seq<Entry>, i: nat)
    requires AllOk(es) && i <= |es| && from + SizeAll(es) == end <= |b| && At(b, from, EncAll(es))
    ensures AllOk(es[i..]) && At(b, from + SizeAll(es[..i]), EncAll(es[i..]))
    ensures from + SizeAll(es[..i]) + SizeAll(es[i..]) == end
    ensures Fit(b, from + SizeAll(es[..i]), end) == if i == |es| then 0 else Size(es[i])
    ensures i < |es| ==> At(b, from + SizeAll(es[..i]), Enc(es[i])) && SizeAll(es[..i + 1]) == SizeAll(es[..i]) + Size(es[i])
  {
    hide At, Fit, EntryOk, Enc, EncAll, SizeAll, Size;
    assert es == es[..i] + es[i..];
    EncAppend(es[..i], es[i..]);
    SizeAppend(es[..i], es[i..]);
    AtSplit(b, from, EncAll(es[..i]), EncAll(es[i..]));
    FitNext(b, from + SizeAll(es[..i]), end, es[i..]);
    if i < |es| {
      SizeStep(es, i);
    }
  }

  // ---- Reversal ----

  function Rev(s: seq<Byte>): (r: seq<Byte>)
    ensures |r| == |s|
    ensures forall k :: 0 <= k < |s| ==> r[k] == s[|s| - 1 - k]
  {
    if s == [] then [] else Rev(s[1..]) + [s[0]]
  }

  /** The bytes with those of [lo, hi) reversed. */
  function Reversed(b: seq<Byte>, lo: nat, hi: nat): seq<Byte>
    requires lo <= hi <= |b|
  {
    b[..lo] + Rev(b[lo..hi]) + b[hi..]
  }

  /** The bytes of [from, to) copied down to `dst`. */
  function Moved(b: seq<Byte>, dst: nat, from: nat, to: nat): (r: seq<Byte>)
    requires dst <= from <= to <= |b|
    ensures |r| == |b|
  {
    b[..dst] + b[from..to] + b[dst + (to - from)..]
  }

  /** The bytes of [at, end) in front of those of [from, at). */
  function Rotated(b: seq<Byte>, from: nat, at: nat, end: nat): seq<Byte>
    requires from <= at <= end <= |b|
  {
    b[..from] + b[at..end] + b[from..at] + b[end..]
  }

  lemma ReversedPart(p: seq<Byte>, x: seq<Byte>, q: seq<Byte>)
    ensures Reversed(p + x + q, |p|, |p| + |x|) == p + Rev(x) + q
  {
    hide Rev;
    Slices(p, x, q);
  }

  lemma Slices(p: seq<Byte>, x: seq<Byte>, q: seq<Byte>)
    ensures (p + x + q)[..|p|] == p && (p + x + q)[|p|..|p| + |x|] == x && (p + x + q)[|p| + |x|..] == q
  {
  }

  /** Reversing two neighbours and then the whole puts the second in front of the first. */
  lemma Rotates(p: seq<Byte>, x: seq<Byte>, y: seq<Byte>, q: seq<Byte>)
    ensures var at := |p| + |x|;
            var end := at + |y|;
            Reversed(Reversed(Reversed(p + x + y + q, |p|, at), at, end), |p|, end) == p + y + x + q
  {
    hide Reversed, Rev;
    assert p + x + y + q == p + x + (y + q);
    ReversedPart(p, x, y + q);
    assert p + Rev(x) + (y + q) == (p + Rev(x)) + y + q;
    ReversedPart(p + Rev(x), y, q);
    assert (p + Rev(x)) + Rev(y) + q == p + (Rev(x) + Rev(y)) + q;
    ReversedPart(p, Rev(x) + Rev(y), q);
    RevJoin(x, y);
    assert p + (y + x) + q == p + y + x + q;
  }

  lemma RevJoin(x: seq<Byte>, y: seq<Byte>)
    ensures Rev(Rev(x) + Rev(y)) == y + x
  {
    var r := Rev(Rev(x) + Rev(y));
    forall k | 0 <= k < |r|
      ensures r[k] == (y + x)[k]
    {
    }
  }

  lemma MovedKept(b: seq<Byte>, dst: nat, from: nat, to: nat)
    requires dst <= from <= to <= |b|
    ensures Kept(b, Moved(b, dst, from, to), dst, dst + (to - from))
  {
  }

  lemma MovedAt(b: seq<Byte>, dst: nat, from: nat, to: nat, x: seq<Byte>)
    requires dst <= from <= to <= |b| && At(b, from, x) && |x| == to - from
    ensures At(Moved(b, dst, from, to), dst, x)
  {
    assert b[from..to] == x;
    var m := Moved(b, dst, from, to);
    assert m[dst..dst + |x|] == x;
  }

  lemma PartsAt(b: seq<Byte>, p: seq<Byte>, x: seq<Byte>, y: seq<Byte>, q: seq<Byte>)
    requires b == p + x + y + q
    ensures At(b, |p|, x) && At(b, |p| + |x|, y) && b[..|p|] == p && b[|p| + |x| + |y|..] == q
  {
  }

  // ---- Gathering one record's entries ----

  lemma {:induction false} OnlyAppend(a: seq<Entry>, b: seq<Entry>, id: nat)
    ensures Only(a + b, id) == Only(a, id) + Only(b, id) && Without(a + b, id) == Without(a, id) + Without(b, id)
  {
    if a == [] {
      assert a + b == b;
    } else {
      assert (a + b)[1..] == a[1..] + b;
      OnlyAppend(a[1..], b, id);
    }
  }

  lemma OnlyStep(es: seq<Entry>, i: nat, id: nat)
    requires i < |es|
    ensures Only(es[..i + 1], id) == Only(es[..i], id) + (if es[i].id == id then [es[i]] else [])
    ensures Without(es[..i + 1], id) == Without(es[..i], id) + (if es[i].id != id then [es[i]] else [])
  {
    assert es[..i + 1] == es[..i] + [es[i]];
    OnlyAppend(es[..i], [es[i]], id);
    assert Only([es[i]], id) == if es[i].id == id then [es[i]] else [];
  }

  lemma {:induction false} TextOnly(es: seq<Entry>, id: nat)
    ensures Text(Only(es, id), id) == Text(es, id)
  {
    if es != [] {
      TextOnly(es[1..], id);
      if es[0].id == id {
        assert ([es[0]] + Only(es[1..], id))[1..] == Only(es[1..], id);
      } else {
        assert Only(es, id) == Only(es[1..], id);
      }
    }
  }

  lemma EncOne(es: seq<Entry>, e: Entry)
    requires AllOk(es) && EntryOk(e)
    ensures AllOk(es + [e]) && EncAll(es + [e]) == EncAll(es) + Enc(e) && SizeAll(es + [e]) == SizeAll(es) + Size(e)
  {
    hide Enc, EntryOk;
    EncAppend(es, [e]);
    assert EncAll([e]) == Enc(e) + EncAll([e][1..]) == Enc(e);
  }
}
