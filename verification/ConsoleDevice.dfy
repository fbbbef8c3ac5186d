/** The ownership state and the writer count, each lock body one method. */
module ConsoleDevice {
  import opened ConsoleOwner

  class Device {
    var mode: Mode
    var writers: nat
    var publisher: int
    var died: bool
    ghost var inside: set<nat>
    ghost var checked: set<nat>

    ghost function View(): Sys
      reads this
    {
      Sys(mode, inside, publisher, died, checked, Free)
    }

    ghost predicate Valid()
      reads this
    {
      Inv(View()) && writers == |inside|
    }

    constructor ()
      ensures Valid() && View() == BOOT
    {
      mode, writers, publisher, died := KernelOwned, 0, -1, false;
      inside, checked := {}, {};
    }

    /** Counts a writer in, in the same step as it reads an owning state; refused from a publish on. */
    method ChipWriterEnter(ghost w: nat) returns (counted: bool)
      requires Valid() && w !in inside
      modifies this`writers, this`inside
      ensures Valid() && View() == Done(old(View()), Enter(w), mode) && counted == (mode == KernelOwned || mode == Reclaimed)
      ensures writers == old(writers) + (if counted then 1 else 0) && (counted <==> w in inside)
    {
      StepBody(View(), Enter(w));
      if mode == Panicked || mode == UserOwned || mode == HandingOff {
        return false;
      }
      writers := writers + 1;
      inside := inside + {w};
      return true;
    }

    method ChipWriterLeave(ghost w: nat)
      requires Valid() && w in inside
      modifies this`writers, this`inside
      ensures Valid() && View() == Done(old(View()), Leave(w), mode) && writers == old(writers) - 1 && w !in inside
    {
      StepBody(View(), Leave(w));
      Without(inside, w);
      writers := writers - 1;
      inside := inside - {w};
    }

    /** A publish's first half; it is not to be called in a hand-off or after a panic. */
    method HandoverBegin(t: nat)
      requires Valid() && mode != HandingOff && mode != Panicked
      modifies this`mode, this`publisher, this`died
      ensures Valid() && View() == Done(old(View()), Begin(t), old(mode))
      ensures mode == HandingOff && publisher == t && !died
    {
      StepBody(View(), Begin(t));
      died := false;
      mode := HandingOff;
      publisher := t;
    }

    /** The drain is over for its publisher once no counted writer is left, and none can come. */
    method WritersGone(ghost t: nat) returns (none: bool)
      requires Valid() && publisher == t
      modifies this`checked
      ensures Valid() && none == (inside == {}) && checked == if none then old(checked) + {t} else old(checked)
    {
      none := writers == 0;
      if none {
        StepInv(View(), Check(t));
        checked := checked + {t};
      }
    }

    /** A publish's last step, its publisher having found the writers gone. */
    method OwnerSetUser(ghost t: nat, windowFree: bool)
      requires Valid() && t in checked
      modifies this`mode, this`publisher, this`died, this`checked
      ensures Valid() && View() == Done(old(View()), SetUser(t, windowFree), old(mode))
      ensures publisher == -1 && checked == old(checked) - {t}
      ensures old(mode) == HandingOff && old(died) && windowFree ==> mode == Reclaimed && !died
      ensures old(mode) == HandingOff && !(old(died) && windowFree) ==> mode == UserOwned && died == old(died)
      ensures old(mode) != HandingOff ==> mode == old(mode) && died == old(died)
    {
      StepBody(View(), SetUser(t, windowFree));
      publisher := -1;
      checked := checked - {t};
      if mode != HandingOff {
        return;
      }
      mode := UserOwned;
      if died && windowFree {
        died := false;
        mode := Reclaimed;
      }
    }

    method OnDriverDeath(windowFree: bool)
      requires Valid()
      modifies this`mode, this`died
      ensures Valid() && View() == Done(old(View()), Death(windowFree), old(mode))
      ensures old(died) && windowFree && old(mode) == UserOwned ==> mode == Reclaimed && !died
      ensures old(died) && windowFree && old(mode) != UserOwned && old(mode) != HandingOff ==> mode == old(mode) && !died
      ensures !old(died) || !windowFree || old(mode) == HandingOff ==> mode == old(mode) && died == old(died)
    {
      StepBody(View(), Death(windowFree));
      if !died || mode == HandingOff {
        return;
      }
      if !windowFree {
        return;
      }
      died := false;
      if mode != UserOwned {
        return;
      }
      mode := Reclaimed;
    }

    /** A thread slain: off the device if it was writing, and a publish it was draining is called off. */
    method KconsoleSlain(t: nat, writing: bool)
      requires Valid() && writing == (t in inside)
      modifies this`mode, this`writers, this`publisher, this`inside, this`checked
      ensures Valid() && View() == Done(old(View()), Slain(t), old(mode))
      ensures inside == old(inside) - {t} && writers == old(writers) - if writing then 1 else 0
      ensures old(publisher) == t && old(mode) == HandingOff ==> mode == Reclaimed && publisher == -1
      ensures old(publisher) != t || old(mode) != HandingOff ==> mode == old(mode) && publisher == old(publisher)
    {
      hide Inv, Done;
      SlainIs(View(), t);
      StepBody(View(), Slain(t));
      Without(inside, t);
      if writing {
        writers := writers - 1;
      }
      inside, checked := inside - {t}, checked - {t};
      if publisher == t && mode == HandingOff {
        publisher := -1;
        mode := Reclaimed;
      }
    }

    method KpanicEnter()
      requires Valid()
      modifies this`mode
      ensures Valid() && View() == Done(old(View()), Panic, old(mode)) && mode == Panicked
    {
      StepBody(View(), Panic);
      mode := Panicked;
    }
  }

  lemma SlainIs(s: Sys, t: nat)
    ensures var off := s.publisher == t && s.mode == HandingOff;
            Done(s, Slain(t), s.mode) ==
            Sys(if off then Reclaimed else s.mode, s.inside - {t}, if off then -1 else s.publisher, s.died,
                s.checked - {t}, s.lock)
  {
  }

  lemma Without(s: set<nat>, t: nat)
    ensures |s - {t}| == if t in s then |s| - 1 else |s|
  {
    if t !in s {
      assert s - {t} == s;
    }
  }

  /** A body run whole keeps the invariant. */
  lemma StepBody(s: Sys, b: Body)
    requires Inv(s) && s.lock == Free && Can(s, Take(b))
    ensures Inv(Done(s, b, s.mode))
  {
    StepInv(s, Take(b));
    var u := Step(s, Take(b));
    StepInv(u, Do);
    assert u.(lock := Free) == s;
  }
}
