/** The shared history of readings under a sequence lock (examples/composition/sample.h): one writer
    that may die at any store and be restarted, and a reader, one access at a time. The sequence
    and the count of readings are unbounded. */
module SampleHistory {
  const LEN: nat := 14

  /** Where the writer is: the sequence made odd, the count loaded, the value stored, the count stored. */
  datatype Writer =
    | Idle
    | Opened(begin: nat, v: nat)
    | Loaded(begin: nat, n: nat, v: nat)
    | Stored(begin: nat, n: nat, v: nat)
    | Counted(begin: nat)

  datatype Reader = Start | GotSeq(s1: nat) | GotNext(s1: nat, n: nat) | GotValue(s1: nat, n: nat, v: nat)

  /** The region, the two parties, and every reading counted so far. */
  datatype Sys = Sys(seqno: nat, next: nat, value: seq<nat>, writer: Writer, reader: Reader, log: seq<nat>)

  datatype Act = Begin(v: nat) | Write | Die | Read

  function Slot(n: nat): nat { n % LEN }

  predicate Can(s: Sys, a: Act) {
    |s.value| == LEN && match a
                        case Begin(_) => s.writer == Idle
                        case Write => s.writer != Idle
                        case Die => true
                        case Read => true
  }

  /** A writer that finds the sequence odd steps past its predecessor's. */
  function First(seqno: nat): nat { if seqno % 2 != 0 then seqno + 2 else seqno + 1 }

  function Step(s: Sys, a: Act): Sys
    requires Can(s, a)
  {
    match a
    case Begin(v) => s.(seqno := First(s.seqno), writer := Opened(First(s.seqno), v))
    case Write =>
      (match s.writer
       case Opened(begin, v) => s.(writer := Loaded(begin, s.next, v))
       case Loaded(begin, n, v) => s.(value := s.value[Slot(n) := v], writer := Stored(begin, n, v))
       case Stored(begin, n, v) => s.(next := n + 1, log := s.log + [v], writer := Counted(begin))
       case Counted(begin) => s.(seqno := begin + 1, writer := Idle))
    case Die => s.(writer := Idle)
    case Read =>
      (match s.reader
       case Start => if s.seqno % 2 != 0 then s else s.(reader := GotSeq(s.seqno))
       case GotSeq(s1) => s.(reader := GotNext(s1, s.next))
       case GotNext(s1, n) => s.(reader := GotValue(s1, n, if n == 0 then 0 else s.value[Slot(n - 1)]))
       case GotValue(_, _, _) => s.(reader := Start))
  }

  /** The read ends here with what it copied: the sequence is as it was. */
  predicate Answers(s: Sys) { s.reader.GotValue? && s.seqno == s.reader.s1 }

  /** A sequence that has not moved since an even load means no store at all since. */
  ghost predicate Inv(s: Sys) {
    && |s.value| == LEN && s.next == |s.log|
    && (s.log != [] ==> s.value[Slot(s.next - 1)] == s.log[s.next - 1])
    && (s.writer != Idle ==> s.seqno == s.writer.begin && s.seqno % 2 == 1)
    && (s.writer.Loaded? || s.writer.Stored? ==> s.writer.n == s.next)
    && (s.writer.Stored? ==> s.value[Slot(s.next)] == s.writer.v)
    && (!s.reader.Start? ==> s.reader.s1 % 2 == 0 && s.reader.s1 <= s.seqno)
    && (s.reader.GotNext? || s.reader.GotValue? ==> s.seqno == s.reader.s1 ==> s.reader.n == s.next)
    && (s.reader.GotValue? && s.reader.n > 0 ==> s.seqno == s.reader.s1 ==> s.reader.v == s.log[s.next - 1])
  }

  lemma SlotsDiffer(n: nat)
    requires n > 0
    ensures Slot(n) != Slot(n - 1) && Slot(n) < LEN
  {
  }

  lemma StepInv(s: Sys, a: Act)
    requires Inv(s) && Can(s, a)
    ensures Inv(Step(s, a))
  {
    if s.next > 0 {
      SlotsDiffer(s.next);
    }
    SlotsDiffer(s.next + 1);
  }

  ghost predicate IsRun(ss: seq<Sys>, acts: seq<Act>) {
    && |ss| == |acts| + 1 && |ss[0].value| == LEN && ss[0] == Sys(0, 0, ss[0].value, Idle, Start, [])
    && forall i {:trigger acts[i]} :: 0 <= i < |acts| ==> Can(ss[i], acts[i]) && ss[i + 1] == Step(ss[i], acts[i])
  }

  lemma {:induction false} RunInv(ss: seq<Sys>, acts: seq<Act>, k: nat)
    requires IsRun(ss, acts) && k < |ss|
    ensures Inv(ss[k])
  {
    if k > 0 {
      RunInv(ss, acts, k - 1);
      StepInv(ss[k - 1], acts[k - 1]);
      assert ss[k - 1 + 1] == Step(ss[k - 1], acts[k - 1]);
    }
  }

  /** In every run, however its writers die and restart, a read that ends answers with the latest
      reading at that moment, and with none exactly when none was counted. */
  lemma ReadsLatest(ss: seq<Sys>, acts: seq<Act>, k: nat)
    requires IsRun(ss, acts) && k < |ss| && Answers(ss[k])
    ensures ss[k].reader.n == |ss[k].log|
    ensures ss[k].log != [] ==> ss[k].reader.v == ss[k].log[|ss[k].log| - 1]
  {
    RunInv(ss, acts, k);
  }

  /** An append with nothing between its stores ends with its reading counted and the sequence even and
      moved, whatever a writer before it left. */
  lemma AppendEnds(s: Sys, v: nat)
    requires Inv(s) && s.writer == Idle
    ensures var t := Step(Step(Step(Step(Step(s, Begin(v)), Write), Write), Write), Write);
            t.writer == Idle && t.seqno % 2 == 0 && t.seqno > s.seqno && t.log == s.log + [v] && t.reader == s.reader
  {
    StepInv(s, Begin(v));
  }

  /** A reader that starts on an even sequence and meets no store ends, in three steps. */
  lemma ReadEnds(s: Sys)
    requires Inv(s) && s.reader == Start && s.seqno % 2 == 0
    ensures Answers(Step(Step(Step(s, Read), Read), Read))
  {
  }

  /** The region in place, its writer and reader each run whole. */
  class History {
    var seqno: nat
    var next: nat
    const value: array<nat>
    ghost var log: seq<nat>

    ghost predicate Valid()
      reads this, value
    {
      Inv(Sys(seqno, next, value[..], Idle, Start, log))
    }

    constructor ()
      ensures Valid() && seqno == 0 && log == []
    {
      seqno, next := 0, 0;
      value := new nat[LEN](_ => 0);
      log := [];
    }

    /** Appends a reading whatever its predecessor left; the sequence ends even and has moved. */
    method Append(v: nat)
      requires Valid()
      modifies this, value
      ensures Valid() && log == old(log) + [v] && seqno % 2 == 0 && seqno > old(seqno)
    {
      var begin := First(seqno);
      seqno := begin;
      var n := next;
      SlotsDiffer(n + 1);
      value[Slot(n)] := v;
      next := n + 1;
      log := log + [v];
      seqno := begin + 1;
    }

    /** The latest reading, in four attempts: with no writer about, none only where none was counted
        or a writer died in an append. */
    method Latest() returns (ok: bool, out: nat)
      requires Valid()
      ensures ok <==> seqno % 2 == 0 && log != []
      ensures ok ==> out == log[|log| - 1]
    {
      out := 0;
      for attempt := 0 to 4
        invariant attempt > 0 ==> seqno % 2 != 0
      {
        var s1 := seqno;
        if s1 % 2 != 0 {
          continue;
        }
        var n := next;
        var v := 0;
        if n != 0 {
          SlotsDiffer(n);
          v := value[Slot(n - 1)];
        }
        if seqno == s1 {
          return n != 0, v;
        }
      }
      return false, 0;
    }
  }
}
