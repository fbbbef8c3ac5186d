/** Whole runs of the held store against the ledger, and what a panic writes out. */
module HeldRun {
  import opened HeldRecords
  import opened HeldTheory
  import L = HeldLedger

  datatype Op = AppendOp(key: nat, text: seq<Byte>) | CommitOp(key: nat) | AbandonOp(key: nat) | TakeOp(n: nat)

  /** The store's bytes, and the bound on a record, which fits a committed record's 16-bit length. */
  datatype Limits = Limits(size: nat, max: nat)

  /** A store, and what its reader has taken from it. */
  datatype Run = Run(store: Store, out: seq<Byte>)

  const EMPTY: Run := Run(Store(0, [], 0, []), [])

  ghost predicate RunOk(c: Limits, r: Run) { StoreOk(r.store) && c.max <= 0xFFFF }

  /** A reader takes no more than it is shown, and an append's key is 32 bits. */
  ghost predicate Allowed(c: Limits, r: Run, op: Op)
    requires RunOk(c, r)
  {
    match op
    case AppendOp(key, _) => key < 0x1_0000_0000
    case TakeOp(n) => n <= Ready(r.store)
    case CommitOp(_) => true
    case AbandonOp(_) => true
  }

  ghost function Step(c: Limits, r: Run, op: Op): Run
    requires RunOk(c, r) && Allowed(c, r, op)
  {
    match op
    case AppendOp(key, text) => r.(store := Append(r.store, c.size, key, text, c.max).0)
    case CommitOp(key) => r.(store := Commit(r.store, key).0)
    case AbandonOp(key) => r.(store := Abandon(r.store, key))
    case TakeOp(n) =>
      TakeStream(r.store, n);
      Run(Take(r.store, n), r.out + Pending(r.store)[..n])
  }

  /** The same operation on the ledger, which decides for itself what is refused. */
  function LedgerStep(c: Limits, l: L.Ledger, op: Op): L.Ledger {
    match op
    case AppendOp(key, text) => L.Added(l, c.size, key, text, c.max)
    case CommitOp(key) => L.Published(l, key)
    case AbandonOp(key) => L.Forgotten(l, key)
    case TakeOp(n) => L.Read(l, n)
  }

  /** Every operation does to the ledger exactly what its name says, refusals included, however the
      records interleave in the store. */
  lemma StepRefines(c: Limits, r: Run, op: Op)
    requires RunOk(c, r) && Allowed(c, r, op)
    ensures RunOk(c, Step(c, r, op)) && L.Abs(Step(c, r, op).store) == LedgerStep(c, L.Abs(r.store), op)
  {
    hide Append, Commit, Abandon, Take, StoreOk, L.Abs, L.Added, L.Published, L.Forgotten, L.Read;
    match op
    case AppendOp(key, text) =>
      AppendOk(r.store, c.size, key, text, c.max);
      L.AppendIs(r.store, c.size, key, text, c.max);
    case CommitOp(key) =>
      CommitOk(r.store, key);
      L.CommitIs(r.store, key);
    case AbandonOp(key) =>
      AbandonOk(r.store, key);
      L.AbandonIs(r.store, key);
    case TakeOp(n) =>
      TakeStream(r.store, n);
      L.TakeIs(r.store, n);
  }

  // ---- Runs ----

  ghost predicate AllowedAll(c: Limits, r: Run, ops: seq<Op>)
    requires RunOk(c, r)
    decreases |ops|
  {
    ops != [] ==> Allowed(c, r, ops[0]) && (StepRefines(c, r, ops[0]); AllowedAll(c, Step(c, r, ops[0]), ops[1..]))
  }

  ghost function Steps(c: Limits, r: Run, ops: seq<Op>): Run
    requires RunOk(c, r) && AllowedAll(c, r, ops)
    decreases |ops|
  {
    if ops == [] then r else StepRefines(c, r, ops[0]); Steps(c, Step(c, r, ops[0]), ops[1..])
  }

  function LedgerSteps(c: Limits, l: L.Ledger, ops: seq<Op>): L.Ledger
    decreases |ops|
  {
    if ops == [] then l else LedgerSteps(c, LedgerStep(c, l, ops[0]), ops[1..])
  }

  /** Every run of the store is the same run of the ledger. */
  lemma {:induction false} EveryRun(c: Limits, r: Run, ops: seq<Op>)
    requires RunOk(c, r) && AllowedAll(c, r, ops)
    ensures RunOk(c, Steps(c, r, ops))
    ensures L.Abs(Steps(c, r, ops).store) == LedgerSteps(c, L.Abs(r.store), ops)
    decreases |ops|
  {
    hide Step, LedgerStep, RunOk, Allowed, L.Abs;
    if ops != [] {
      StepRefines(c, r, ops[0]);
      EveryRun(c, Step(c, r, ops[0]), ops[1..]);
    }
  }

  // ---- What becomes of the lines appended ----

  /** A record that was committed, and every line appended to it. */
  datatype Past = Past(rec: L.Rec, asked: seq<seq<Byte>>)

  /** A run's account: the lines appended to each open record, held or dropped, and the records
      committed so far. An empty line is none. */
  datatype Log = Log(run: Run, asked: map<nat, seq<seq<Byte>>>, past: seq<Past>)

  function Open(r: Run): seq<L.Rec> { L.Recs(r.store.entries) }

  function Asking(text: seq<Byte>): seq<seq<Byte>> { if text == [] then [] else [text] }

  ghost function Logged(c: Limits, g: Log, op: Op): Log
    requires RunOk(c, g.run) && Allowed(c, g.run, op)
  {
    var t, open := Step(c, g.run, op), Open(g.run);
    match op
    case AppendOp(key, text) =>
      var i := L.Find(open, key);
      if i < |open| then
        Log(t, g.asked[key := (if key in g.asked then g.asked[key] else []) + Asking(text)], g.past)
      else if L.CanOpen(L.Abs(g.run.store), c.size) then Log(t, g.asked[key := Asking(text)], g.past)
      else Log(t, g.asked, g.past)
    case CommitOp(key) =>
      var i := L.Find(open, key);
      if i == |open| then Log(t, g.asked, g.past)
      else Log(t, g.asked - {key}, g.past + [Past(open[i], if key in g.asked then g.asked[key] else [])])
    case AbandonOp(key) => Log(t, g.asked - {key}, g.past)
    case TakeOp(_) => Log(t, g.asked, g.past)
  }

  /** A record holds the first of its lines, and all of them unless it is marked full. */
  ghost predicate Holds(rec: L.Rec, asked: seq<seq<Byte>>) {
    rec.lines <= asked && (!rec.full ==> rec.lines == asked)
  }

  ghost predicate OpenHold(open: seq<L.Rec>, asked: map<nat, seq<seq<Byte>>>) {
    && (forall i :: 0 <= i < |open| ==> open[i].key in asked && Holds(open[i], asked[open[i].key]))
    && Apart(open)
  }

  ghost predicate Apart(rs: seq<L.Rec>) { forall i, j :: 0 <= i < j < |rs| ==> rs[i].key != rs[j].key }

  ghost function AllText(past: seq<Past>): seq<Byte> {
    if past == [] then [] else AllText(past[..|past| - 1]) + L.Join(past[|past| - 1].rec.lines)
  }

  ghost predicate LogOk(c: Limits, g: Log) {
    && RunOk(c, g.run) && OpenHold(Open(g.run), g.asked)
    && (forall i :: 0 <= i < |g.past| ==> Holds(g.past[i].rec, g.past[i].asked))
    && g.run.out + Pending(g.run.store) == AllText(g.past)
  }

  /** A line more for record `i` of the ledger, held or not. */
  lemma LineHolds(l: L.Ledger, size: nat, i: nat, text: seq<Byte>, max: nat, asked: map<nat, seq<seq<Byte>>>)
    requires i < |l.open| && OpenHold(l.open, asked)
    ensures var key := l.open[i].key;
            OpenHold(L.AddLine(l, size, i, text, max).open, asked[key := asked[key] + Asking(text)])
  {
    hide L.Head, L.Join;
    var open, asked' := L.AddLine(l, size, i, text, max).open, asked[l.open[i].key := asked[l.open[i].key] + Asking(text)];
    forall j | 0 <= j < |open|
      ensures open[j].key in asked' && Holds(open[j], asked'[open[j].key])
    {
      if j != i {
        assert open[j] == l.open[j];
      }
    }
  }

  lemma AppendHolds(c: Limits, g: Log, key: nat, text: seq<Byte>)
    requires LogOk(c, g) && key < 0x1_0000_0000
    ensures LogOk(c, Logged(c, g, AppendOp(key, text)))
  {
    hide Append, StoreOk, L.Recs, L.Added, L.AddLine, L.CanOpen, OpenHold, Pending, AllText;
    var s := g.run.store;
    var l := L.Abs(s);
    var i := L.Find(l.open, key);
    AppendOk(s, c.size, key, text, c.max);
    L.AppendIs(s, c.size, key, text, c.max);
    AppendExact(s, c.size, key, text, c.max);
    SameCommitted(s, Append(s, c.size, key, text, c.max).0);
    if i < |l.open| {
      HoldsKey(l.open, g.asked, i);
      LineHolds(l, c.size, i, text, c.max, g.asked);
      AddedOld(l, c.size, key, text, c.max);
    } else if L.CanOpen(l, c.size) {
      var grown := l.(open := l.open + [L.Rec(key, [], false)]);
      NewHolds(l.open, g.asked, key);
      LineHolds(grown, c.size, i, text, c.max, g.asked[key := []]);
      AddedNew(l, c.size, key, text, c.max);
      assert [] + Asking(text) == Asking(text);
      assert g.asked[key := []][key := Asking(text)] == g.asked[key := Asking(text)];
    } else {
      AddedNone(l, c.size, key, text, c.max);
    }
  }

  lemma SameCommitted(s: Store, t: Store)
    requires StoreOk(s) && StoreOk(t) && t == s.(entries := t.entries)
    ensures Pending(t) == Pending(s)
  {
  }

  lemma HoldsKey(open: seq<L.Rec>, asked: map<nat, seq<seq<Byte>>>, i: nat)
    requires OpenHold(open, asked) && i < |open|
    ensures open[i].key in asked
  {
  }

  lemma NewHolds(open: seq<L.Rec>, asked: map<nat, seq<seq<Byte>>>, key: nat)
    requires OpenHold(open, asked) && L.Find(open, key) == |open|
    ensures OpenHold(open + [L.Rec(key, [], false)], asked[key := []])
  {
  }

  lemma AddedOld(l: L.Ledger, size: nat, key: nat, text: seq<Byte>, max: nat)
    requires L.Find(l.open, key) < |l.open|
    ensures L.Added(l, size, key, text, max) == L.AddLine(l, size, L.Find(l.open, key), text, max)
  {
  }

  lemma AddedNew(l: L.Ledger, size: nat, key: nat, text: seq<Byte>, max: nat)
    requires L.Find(l.open, key) == |l.open| && L.CanOpen(l, size)
    ensures L.Added(l, size, key, text, max) ==
            L.AddLine(l.(open := l.open + [L.Rec(key, [], false)]), size, |l.open|, text, max)
  {
  }

  lemma AddedNone(l: L.Ledger, size: nat, key: nat, text: seq<Byte>, max: nat)
    requires L.Find(l.open, key) == |l.open| && !L.CanOpen(l, size)
    ensures L.Added(l, size, key, text, max) == l
  {
  }

  lemma {:induction false} RemovedIn(rs: seq<L.Rec>, key: nat)
    ensures forall r :: r in L.Removed(rs, key) <==> r in rs && r.key != key
  {
    if rs != [] {
      RemovedIn(rs[1..], key);
    }
  }

  lemma {:induction false} RemovedApart(rs: seq<L.Rec>, key: nat)
    requires Apart(rs)
    ensures Apart(L.Removed(rs, key))
  {
    if rs != [] {
      RemovedApart(rs[1..], key);
      RemovedIn(rs[1..], key);
      var q := L.Removed(rs[1..], key);
      forall i | 0 <= i < |q|
        ensures q[i].key != rs[0].key
      {
        assert q[i] in q;
        var j :| 0 <= j < |rs[1..]| && rs[1..][j] == q[i];
        assert rs[j + 1] == q[i];
      }
      ApartCons(rs[0], q);
    }
  }

  lemma ApartCons(r: L.Rec, q: seq<L.Rec>)
    requires Apart(q) && forall i :: 0 <= i < |q| ==> q[i].key != r.key
    ensures Apart([r] + q) && Apart([] + q)
  {
    assert [] + q == q;
  }

  lemma RemovedHolds(open: seq<L.Rec>, asked: map<nat, seq<seq<Byte>>>, key: nat)
    requires OpenHold(open, asked)
    ensures OpenHold(L.Removed(open, key), asked - {key})
  {
    RemovedIn(open, key);
    RemovedApart(open, key);
    var q := L.Removed(open, key);
    forall i | 0 <= i < |q|
      ensures q[i].key in asked - {key} && Holds(q[i], (asked - {key})[q[i].key])
    {
      assert q[i] in q;
    }
  }

  lemma {:induction false} RemovedNone(open: seq<L.Rec>, asked: map<nat, seq<seq<Byte>>>, key: nat)
    requires OpenHold(open, asked) && L.Find(open, key) == |open|
    ensures OpenHold(open, asked - {key})
  {
  }

  lemma CommitHolds(c: Limits, g: Log, key: nat)
    requires LogOk(c, g)
    ensures LogOk(c, Logged(c, g, CommitOp(key)))
  {
    hide Commit, StoreOk, L.Recs, L.Settled, OpenHold, Pending, L.Removed, L.Join, OpenRecords;
    var s := g.run.store;
    var open := L.Recs(s.entries);
    var i := L.Find(open, key);
    CommitOk(s, key);
    L.CommitIs(s, key);
    if i < |open| {
      HoldsKey(open, g.asked, i);
      HoldsOne(open, g.asked, i);
      RemovedHolds(open, g.asked, key);
      SettledOpen(L.Abs(s), key);
      OpenText(s.entries, i);
      CommitStream(s, key, L.Join(open[i].lines));
      var p := Past(open[i], g.asked[key]);
      assert (g.past + [p])[..|g.past|] == g.past;
      assert g.run.out + (Pending(s) + L.Join(open[i].lines)) == g.run.out + Pending(s) + L.Join(open[i].lines);
    } else {
      CommitSame(s, key);
    }
  }

  lemma CommitSame(s: Store, key: nat)
    requires StoreOk(s) && !Commit(s, key).1
    ensures Commit(s, key).0 == s
  {
  }

  lemma HoldsOne(open: seq<L.Rec>, asked: map<nat, seq<seq<Byte>>>, i: nat)
    requires OpenHold(open, asked) && i < |open|
    ensures open[i].key in asked && Holds(open[i], asked[open[i].key])
  {
  }

  lemma SettledOpen(l: L.Ledger, key: nat)
    requires L.Find(l.open, key) < |l.open|
    ensures L.Published(l, key).open == L.Removed(l.open, key) && L.Forgotten(l, key).open == L.Removed(l.open, key)
  {
  }

  lemma OpenText(es: seq<Entry>, i: nat)
    requires i < |L.Recs(es)|
    ensures (L.Recs(es)[i].key, L.Join(L.Recs(es)[i].lines)) in OpenRecords(es)
  {
    L.OpenIs(es, es);
  }

  lemma AbandonHolds(c: Limits, g: Log, key: nat)
    requires LogOk(c, g)
    ensures LogOk(c, Logged(c, g, AbandonOp(key)))
  {
    hide Abandon, StoreOk, L.Recs, OpenHold, L.Removed, OpenRecords;
    var s := g.run.store;
    var open := L.Recs(s.entries);
    AbandonOk(s, key);
    L.AbandonIs(s, key);
    AbandonExact(s, key);
    if L.Find(open, key) < |open| {
      SettledOpen(L.Abs(s), key);
      RemovedHolds(open, g.asked, key);
    } else {
      RemovedNone(open, g.asked, key);
    }
  }

  lemma TakeHolds(c: Limits, g: Log, n: nat)
    requires LogOk(c, g) && n <= Ready(g.run.store)
    ensures LogOk(c, Logged(c, g, TakeOp(n)))
  {
    hide Take, StoreOk, L.Recs, OpenHold, Pending;
    var s := g.run.store;
    TakeStream(s, n);
    assert Pending(s) == Pending(s)[..n] + Pending(s)[n..];
    assert g.run.out + Pending(s)[..n] + Pending(s)[n..] == g.run.out + (Pending(s)[..n] + Pending(s)[n..]);
  }

  lemma LoggedOk(c: Limits, g: Log, op: Op)
    requires LogOk(c, g) && Allowed(c, g.run, op)
    ensures LogOk(c, Logged(c, g, op))
  {
    hide LogOk, Logged;
    match op
    case AppendOp(key, text) => AppendHolds(c, g, key, text);
    case CommitOp(key) => CommitHolds(c, g, key);
    case AbandonOp(key) => AbandonHolds(c, g, key);
    case TakeOp(n) => TakeHolds(c, g, n);
  }

  ghost function LogAll(c: Limits, g: Log, ops: seq<Op>): (h: Log)
    requires RunOk(c, g.run) && AllowedAll(c, g.run, ops)
    ensures h.run == Steps(c, g.run, ops)
    decreases |ops|
  {
    if ops == [] then g else StepRefines(c, g.run, ops[0]); LogAll(c, Logged(c, g, ops[0]), ops[1..])
  }

  /** In every run from empty, each record, open or committed, is the join of the first of the lines
      appended to it, and of all of them unless one was dropped; and what the reader has taken and is
      still to take is the committed records' text in commit order. */
  lemma EveryRecord(c: Limits, ops: seq<Op>)
    requires RunOk(c, EMPTY) && AllowedAll(c, EMPTY, ops)
    ensures var g := LogAll(c, Log(EMPTY, map[], []), ops);
            && g.run == Steps(c, EMPTY, ops) && OpenHold(Open(g.run), g.asked)
            && (forall i :: 0 <= i < |g.past| ==> Holds(g.past[i].rec, g.past[i].asked))
            && StoreOk(g.run.store) && g.run.out + Pending(g.run.store) == AllText(g.past)
  {
    hide LogAll, AllowedAll, Steps;
    LogRun(c, Log(EMPTY, map[], []), ops);
  }

  lemma {:induction false} LogRun(c: Limits, g: Log, ops: seq<Op>)
    requires LogOk(c, g) && AllowedAll(c, g.run, ops)
    ensures LogOk(c, LogAll(c, g, ops))
    decreases |ops|
  {
    hide LogOk, Logged, Step, Allowed;
    LogRunOk(c, g);
    if ops != [] {
      StepRefines(c, g.run, ops[0]);
      LoggedOk(c, g, ops[0]);
      LoggedRun(c, g, ops[0]);
      LogRun(c, Logged(c, g, ops[0]), ops[1..]);
    }
  }

  lemma LogRunOk(c: Limits, g: Log)
    requires LogOk(c, g)
    ensures RunOk(c, g.run)
  {
  }

  lemma LoggedRun(c: Limits, g: Log, op: Op)
    requires RunOk(c, g.run) && Allowed(c, g.run, op)
    ensures Logged(c, g, op).run == Step(c, g.run, op)
  {
  }

  // ---- What a panic writes ----

  const NEWLINE: Byte := 10

  /** Where a panic starts in a record its reader was cut in: past the line the cut fell in. */
  function CutFrom(r: seq<Byte>, from: nat): (k: nat)
    requires from <= |r|
    ensures from <= k <= |r|
    ensures 0 < k < |r| ==> r[k - 1] == NEWLINE
    ensures forall j :: 0 <= j && from <= j + 1 < k ==> r[j] != NEWLINE
  {
    if from == 0 || r[from - 1] == NEWLINE then from else CutScan(r, from)
  }

  function CutScan(r: seq<Byte>, from: nat): (k: nat)
    requires from <= |r|
    ensures from <= k <= |r|
    ensures k < |r| ==> k > from && r[k - 1] == NEWLINE
    ensures forall j :: from <= j < k - 1 ==> r[j] != NEWLINE
    decreases |r| - from
  {
    if from == |r| then from else if r[from] == NEWLINE then from + 1 else CutScan(r, from + 1)
  }

  /** A reader is within the first record, or at its end and not yet past it. */
  ghost predicate Within(s: Store) { s.committed != [] ==> s.taken <= |s.committed[0]| }

  /** Committed records, the first from the line after its reader's cut, then the open ones as they opened. */
  ghost function Written(s: Store): seq<Byte>
    requires Within(s)
  {
    (if s.committed == [] then []
     else s.committed[0][CutFrom(s.committed[0], s.taken)..] + Flat(s.committed[1..])) + Joined(OpenRecords(s.entries))
  }

  ghost function Joined(rs: seq<(nat, seq<Byte>)>): seq<Byte> { if rs == [] then [] else rs[0].1 + Joined(rs[1..]) }

  /** The store once every open record is committed, in the order they opened. */
  ghost function CommitAll(s: Store): (t: Store)
    requires StoreOk(s)
    ensures StoreOk(t)
    decreases |OpenRecords(s.entries)|
  {
    var rs := OpenRecords(s.entries);
    if rs == [] then s
    else
      CommitOk(s, rs[0].0);
      CommitShrinks(s);
      CommitAll(Commit(s, rs[0].0).0)
  }

  lemma {:induction false} OpenInFresh(es: seq<Entry>, ids: set<nat>, keys: set<nat>, all: seq<Entry>)
    requires Scans(es, ids, keys)
    ensures forall i :: 0 <= i < |OpenIn(es, all)| ==> OpenIn(es, all)[i].0 !in keys
    ensures forall i, j :: 0 <= i < j < |OpenIn(es, all)| ==> OpenIn(es, all)[i].0 != OpenIn(es, all)[j].0
  {
    if es != [] {
      match es[0]
      case Mark(id, _, k) =>
        OpenInFresh(es[1..], ids + {id}, keys + {k}, all);
        var tail := OpenIn(es[1..], all);
        assert OpenIn(es, all) == [(k, Text(all, id))] + tail;
        assert forall i :: 0 <= i < |tail| ==> tail[i].0 !in keys + {k};
      case Line(_, _) =>
        OpenInFresh(es[1..], ids, keys, all);
        assert OpenIn(es, all) == OpenIn(es[1..], all);
    }
  }

  lemma CommitShrinks(s: Store)
    requires StoreOk(s) && OpenRecords(s.entries) != []
    ensures var rs := OpenRecords(s.entries);
            OpenRecords(Commit(s, rs[0].0).0.entries) == rs[1..]
  {
    hide Commit;
    var rs := OpenRecords(s.entries);
    assert (rs[0].0, rs[0].1) in rs;
    CommitExact(s, rs[0].0, rs[0].1);
    OpenInFresh(s.entries, {}, {}, s.entries);
    DroppedNone(rs[1..], rs[0].0);
  }

  /** With no record half taken, a panic writes exactly what the reader would have been given had
      every open record been committed first, in the order they opened. */
  lemma {:induction false} PanicWritesAll(s: Store)
    requires StoreOk(s) && s.taken == 0
    ensures Written(s) == Pending(CommitAll(s))
    decreases |OpenRecords(s.entries)|
  {
    hide Commit, StoreOk;
    WrittenPending(s);
    var rs := OpenRecords(s.entries);
    if rs != [] {
      var (key, text) := rs[0];
      var t := Commit(s, key).0;
      assert (key, text) in rs;
      CommitExact(s, key, text);
      CommitOk(s, key);
      CommitShrinks(s);
      CommitStream(s, key, text);
      PanicWritesAll(t);
      WrittenPending(t);
      assert Pending(s) + (text + Joined(rs[1..])) == (Pending(s) + text) + Joined(rs[1..]);
    }
  }

  lemma WrittenPending(s: Store)
    requires StoreOk(s) && s.taken == 0
    ensures Written(s) == Pending(s) + Joined(OpenRecords(s.entries))
  {
    if s.committed != [] {
      assert s.committed[0][0..] == s.committed[0];
    }
  }
}
