/** Who owns the console's device (kernel/init/console.cc): kernel writers counted in and out, a
    publish that hands the device to a driver, deaths, slays and panics. Each lock body reads the
    state and later stores it; the unlocked panic entry may store between the two. */
module ConsoleOwner {
  datatype Mode = KernelOwned | HandingOff | UserOwned | Reclaimed | Panicked

  /** What runs under the lock. A writer is a thread, or an interrupt's own write. */
  datatype Body =
    | Enter(writer: nat)
    | Leave(writer: nat)
    | Begin(thread: nat)
    | SetUser(thread: nat, windowFree: bool)
    | Death(windowFree: bool)
    | Slain(thread: nat)
    | Panic

  datatype Lock = Free | In(body: Body, saw: Mode)

  /** `inside` are the counted writers at the device, `checked` the publishers between finding none
      and taking the lock to hand over; `publisher` is -1 for none. */
  datatype Sys = Sys(mode: Mode, inside: set<nat>, publisher: int, died: bool, checked: set<nat>, lock: Lock)

  datatype Act = Take(body: Body) | Do | Check(thread: nat) | NoteDeath | UnlockedPanic

  predicate Owning(m: Mode) { m == KernelOwned || m == Reclaimed }

  predicate Can(s: Sys, a: Act) {
    match a
    case Take(b) =>
      s.lock == Free &&
      (match b
       case Enter(w) => w !in s.inside
       case Leave(w) => w in s.inside
       case Begin(_) => true
       case SetUser(t, _) => t in s.checked
       case Death(_) => true
       case Slain(_) => true
       case Panic => true)
    case Do => s.lock != Free
    case Check(t) => s.lock == Free && s.publisher == t && s.inside == {}
    case NoteDeath => true
    case UnlockedPanic => true
  }

  function Step(s: Sys, a: Act): Sys
    requires Can(s, a)
  {
    match a
    case Take(b) => s.(lock := In(b, s.mode))
    case Do => Done(s.(lock := Free), s.lock.body, s.lock.saw)
    case Check(t) => s.(checked := s.checked + {t})
    case NoteDeath => s.(died := true)
    case UnlockedPanic => s.(mode := Panicked)
  }

  /** What a body that read `saw` does. */
  function Done(s: Sys, b: Body, saw: Mode): Sys {
    match b
    case Enter(w) => if Owning(saw) then s.(inside := s.inside + {w}) else s
    case Leave(w) => s.(inside := s.inside - {w})
    case Begin(t) =>
      if saw == HandingOff || saw == Panicked then s else s.(died := false, mode := HandingOff, publisher := t)
    case SetUser(t, windowFree) =>
      var q := s.(publisher := -1, checked := s.checked - {t});
      if saw != HandingOff then q else Reclaim(q.(mode := UserOwned), UserOwned, windowFree)
    case Death(windowFree) => Reclaim(s, saw, windowFree)
    case Slain(t) =>
      var q := s.(inside := s.inside - {t}, checked := s.checked - {t});
      if s.publisher == t && saw == HandingOff then q.(publisher := -1, mode := Reclaimed) else q
    case Panic => s.(mode := Panicked)
  }

  /** A death noted is acted on once nobody holds the device's window, and never during a hand-off. */
  function Reclaim(s: Sys, saw: Mode, windowFree: bool): Sys {
    if !s.died || saw == HandingOff || !windowFree then s
    else if saw == UserOwned then s.(died := false, mode := Reclaimed) else s.(died := false)
  }

  // ---- What every step keeps ----

  /** No counted writer is at a device the driver owns; a publisher that found none still finds none. */
  ghost predicate Inv(s: Sys) {
    && (s.mode == UserOwned ==> s.inside == {})
    && (s.mode == HandingOff ==> s.publisher >= 0)
    && (s.checked != {} ==> s.inside == {} && (s.mode == HandingOff || s.mode == Panicked))
    && (forall t :: t in s.checked ==> s.publisher == t)
    && (s.lock != Free ==>
          && (s.mode == s.lock.saw || s.mode == Panicked)
          && (s.lock.saw == UserOwned ==> s.inside == {})
          && (s.checked != {} ==> s.lock.saw == HandingOff || s.lock.saw == Panicked)
          && (s.lock.body.SetUser? ==> s.lock.body.thread in s.checked)
          && (s.publisher >= 0 ==> s.lock.saw == HandingOff || s.lock.saw == Panicked))
    && (s.publisher >= 0 ==> s.mode == HandingOff || s.mode == Panicked)
  }

  lemma StepInv(s: Sys, a: Act)
    requires Inv(s) && Can(s, a)
    ensures Inv(Step(s, a))
  {
  }

  // ---- Runs ----

  const BOOT: Sys := Sys(KernelOwned, {}, -1, false, {}, Free)

  ghost predicate IsRun(ss: seq<Sys>, acts: seq<Act>) {
    && |ss| == |acts| + 1 && ss[0] == BOOT
    && forall i {:trigger acts[i]} :: 0 <= i < |acts| ==> Can(ss[i], acts[i]) && ss[i + 1] == Step(ss[i], acts[i])
  }

  lemma {:induction false} RunInv(ss: seq<Sys>, acts: seq<Act>, k: nat)
    requires IsRun(ss, acts) && k < |ss|
    ensures Inv(ss[k])
  {
    if k > 0 {
      RunInv(ss, acts, k - 1);
      StepInv(ss[k - 1], acts[k - 1]);
      assert ss[k - 1 + 1] == Step(ss[k - 1], acts[k - 1]);
    }
  }

  /** In every run, with the lock dropped between a publisher's last look and its hand-over and the
      publisher slain there or not, no counted writer is at the device while a driver owns it. */
  lemma Exclusion(ss: seq<Sys>, acts: seq<Act>, k: nat)
    requires IsRun(ss, acts) && k < |ss| && ss[k].mode == UserOwned
    ensures ss[k].inside == {}
  {
    RunInv(ss, acts, k);
  }

  /** Once published, the device is never plainly the kernel's again. */
  lemma {:induction false} NeverKernelAgain(ss: seq<Sys>, acts: seq<Act>, j: nat, k: nat)
    requires IsRun(ss, acts) && j <= k < |ss| && ss[j].mode != KernelOwned
    ensures ss[k].mode != KernelOwned
  {
    if j < k {
      NeverKernelAgain(ss, acts, j, k - 1);
      assert ss[k - 1 + 1] == Step(ss[k - 1], acts[k - 1]);
    }
  }

  /** A step leaves Panicked exactly when it is the store of a body that read the state before an
      unlocked panic and decided to change it. */
  lemma PanicLeft(s: Sys, a: Act)
    requires Inv(s) && Can(s, a) && s.mode == Panicked
    ensures Step(s, a).mode != Panicked <==>
            a == Do &&
            (match s.lock.body
             case Begin(_) => s.lock.saw != HandingOff && s.lock.saw != Panicked
             case SetUser(_, _) => s.lock.saw == HandingOff
             case Slain(t) => s.publisher == t && s.lock.saw == HandingOff
             case Death(windowFree) => s.lock.saw == UserOwned && s.died && windowFree
             case _ => false)
  {
  }

  /** Runs that panic only under the lock stay panicked. */
  lemma {:induction false} PanicFinal(ss: seq<Sys>, acts: seq<Act>, j: nat, k: nat)
    requires IsRun(ss, acts) && j <= k < |ss| && ss[j].mode == Panicked
    requires forall i :: 0 <= i < |acts| ==> acts[i] != UnlockedPanic
    ensures ss[k].mode == Panicked
  {
    SawNow(ss, acts, k);
    if j < k {
      PanicFinal(ss, acts, j, k - 1);
      SawNow(ss, acts, k - 1);
      RunInv(ss, acts, k - 1);
      PanicLeft(ss[k - 1], acts[k - 1]);
      assert ss[k - 1 + 1] == Step(ss[k - 1], acts[k - 1]);
    }
  }

  /** Without an unlocked panic, what a body read still stands when it stores. */
  lemma {:induction false} SawNow(ss: seq<Sys>, acts: seq<Act>, k: nat)
    requires IsRun(ss, acts) && k < |ss| && forall i :: 0 <= i < |acts| ==> acts[i] != UnlockedPanic
    ensures ss[k].lock != Free ==> ss[k].lock.saw == ss[k].mode
  {
    if k > 0 {
      SawNow(ss, acts, k - 1);
      assert acts[k - 1] != UnlockedPanic;
      assert ss[k - 1 + 1] == Step(ss[k - 1], acts[k - 1]);
    }
  }

  /** With one it need not: a hand-over that read HandingOff, then an unlocked panic, then its store. */
  lemma PanicOverwritten() returns (ss: seq<Sys>, acts: seq<Act>)
    ensures IsRun(ss, acts) && |ss| > 2 && ss[|ss| - 2].mode == Panicked && ss[|ss| - 1].mode == UserOwned
  {
    acts := [Take(Begin(7)), Do, Check(7), Take(SetUser(7, false)), UnlockedPanic, Do];
    var s1 := Step(BOOT, acts[0]);
    var s2 := Step(s1, acts[1]);
    var s3 := Step(s2, acts[2]);
    var s4 := Step(s3, acts[3]);
    var s5 := Step(s4, acts[4]);
    var s6 := Step(s5, acts[5]);
    ss := [BOOT, s1, s2, s3, s4, s5, s6];
  }

  // ---- A driver's death ----

  /** What takes the device from whoever has it: a panic, or a publish. */
  predicate Takes(b: Body) { b.Begin? || b.Panic? }

  /** While the kernel has the device only those change the state. */
  lemma KernelStep(s: Sys, a: Act)
    requires Inv(s) && Can(s, a) && Owning(s.mode) && a != UnlockedPanic
    requires (s.lock.In? ==> !Takes(s.lock.body)) && (a.Take? ==> !Takes(a.body))
    ensures var t := Step(s, a); t.mode == s.mode && (t.lock.In? ==> !Takes(t.lock.body))
  {
  }

  /** No panic is taken and no publish begun in steps j to k. */
  ghost predicate NoneTakes(ss: seq<Sys>, acts: seq<Act>, j: nat, k: nat)
    requires j <= k <= |acts| < |ss|
  {
    && (ss[j].lock.In? ==> !Takes(ss[j].lock.body))
    && (forall i :: j <= i < k ==> acts[i] != UnlockedPanic && (acts[i].Take? ==> !Takes(acts[i].body)))
  }

  lemma {:induction false} KernelKeeps(ss: seq<Sys>, acts: seq<Act>, j: nat, k: nat)
    requires IsRun(ss, acts) && j <= k <= |acts| && Owning(ss[j].mode) && NoneTakes(ss, acts, j, k)
    ensures ss[k].mode == ss[j].mode && (ss[k].lock.In? ==> !Takes(ss[k].lock.body))
  {
    if j < k {
      KernelKeeps(ss, acts, j, k - 1);
      RunInv(ss, acts, k - 1);
      assert acts[k - 1] != UnlockedPanic;
      KernelStep(ss[k - 1], acts[k - 1]);
      assert ss[k - 1 + 1] == Step(ss[k - 1], acts[k - 1]);
    }
  }

  /** A noted death acted on with the window free takes the device from the driver: after its life, or
      where the driver died during the hand-over at the hand-over itself. */
  lemma DeathReclaims(s: Sys)
    requires Inv(s) && s.lock.In? && s.died
    requires (s.lock.body == Death(true) && s.mode == UserOwned) ||
             (s.lock.body.SetUser? && s.lock.body.windowFree && s.mode == HandingOff)
    ensures Step(s, Do).mode == Reclaimed && !Step(s, Do).died && Step(s, Do).lock == Free
  {
  }

  /** A driver that died has lost the device: until a panic or another publish, every writer that comes
      is counted in. */
  lemma DeadDriverLoses(ss: seq<Sys>, acts: seq<Act>, j: nat, k: nat, w: nat)
    requires IsRun(ss, acts) && j < k < |acts| && acts[j] == Do && acts[k] == Do && ss[j].lock.In? && ss[j].died
    requires (ss[j].lock.body == Death(true) && ss[j].mode == UserOwned) ||
             (ss[j].lock.body.SetUser? && ss[j].lock.body.windowFree && ss[j].mode == HandingOff)
    requires NoneTakes(ss, acts, j + 1, k) && ss[k].lock.In? && ss[k].lock.body == Enter(w)
    ensures ss[k].mode == Reclaimed && w in ss[k + 1].inside
  {
    RunInv(ss, acts, j);
    RunInv(ss, acts, k);
    DeathReclaims(ss[j]);
    assert ss[j + 1] == Step(ss[j], acts[j]);
    KernelKeeps(ss, acts, j + 1, k);
    assert ss[k + 1] == Step(ss[k], acts[k]);
  }

  /** A death noted stays noted until a publish begins or, outside a hand-off, the window is found free. */
  lemma NoteStands(s: Sys, a: Act)
    requires Inv(s) && Can(s, a) && s.died
    ensures !Step(s, a).died <==>
            a == Do && ((s.lock.body.Begin? && s.lock.saw != HandingOff && s.lock.saw != Panicked) ||
                        (s.lock.body == Death(true) && s.lock.saw != HandingOff) ||
                        (s.lock.body.SetUser? && s.lock.body.windowFree && s.lock.saw == HandingOff))
  {
  }
}
