/** The physical frame allocator (kernel/mem/frame.cc): a bitmap of bytes scanned a word at a time.
    Addresses and sizes are unbounded. */
module FrameAlloc {
  import opened Words
  import opened FrameMap
  import opened Modular

  type Octet = b: bv64 | b < 0x100

  predicate IsPow2(n: nat) { n == 1 || (n > 1 && n % 2 == 0 && IsPow2(n / 2)) }

  /** The address of frame `i`. */
  function Addr(base: nat, i: nat, granule: nat): (a: nat)
    ensures a >= base
  {
    base + i * granule
  }

  lemma OrOctet(b: bv64, h: bv64)
    requires b < 0x100 && h < 0x100
    ensures b | h < 0x100
  {
  }

  lemma AndOctet(b: bv64, m: bv64)
    requires b < 0x100
    ensures b & m < 0x100
  {
  }

  lemma HotOctet(k: nat)
    requires k < 8
    ensures Hot(k) < 0x100
  {
    hide Hot, Lt;
    Some();
    HotOrder(k, 8);
    LtIs(Hot(k), 0x100);
  }

  lemma LtIs(a: bv64, b: bv64)
    ensures Lt(a, b) <==> a < b
  {
  }

  function SetBit(b: Octet, k: nat): (r: Octet)
    requires k < 8
    ensures forall j :: 0 <= j < 8 ==> (Bit(r, j) <==> Bit(b, j) || j == k)
  {
    HotOctet(k);
    OrOctet(b, Hot(k));
    SetBits(b, k);
    Or(b, Hot(k))
  }

  lemma SetBits(b: bv64, k: nat)
    requires k < 8
    ensures forall j :: 0 <= j < 8 ==> (Bit(Or(b, Hot(k)), j) <==> Bit(b, j) || j == k)
  {
    hide Hot, Meets, Or, OneHot;
    forall j | 0 <= j < 8
      ensures Bit(Or(b, Hot(k)), j) <==> Bit(b, j) || j == k
    {
      BitOr(b, Hot(k), j);
      HotBit(k, j);
    }
  }

  lemma HotBit(k: nat, j: nat)
    requires k < WORD && j < WORD
    ensures Bit(Hot(k), j) <==> j == k
  {
    hide Hot, Meets, OneHot;
    HotOk(k);
    HotOk(j);
    HotApart(Hot(k), Hot(j));
    if j != k {
      HotDiffers(j, k);
    }
  }

  function ClearBit(b: Octet, k: nat): (r: Octet)
    requires k < 8
    ensures forall j :: 0 <= j < 8 ==> (Bit(r, j) <==> Bit(b, j) && j != k)
  {
    AndOctet(b, Not(Hot(k)));
    ClearBits(b, k);
    And(b, Not(Hot(k)))
  }

  lemma ClearBits(b: bv64, k: nat)
    requires k < 8
    ensures forall j :: 0 <= j < 8 ==> (Bit(And(b, Not(Hot(k))), j) <==> Bit(b, j) && j != k)
  {
    hide Hot, Meets, And, Not, OneHot;
    forall j | 0 <= j < 8
      ensures Bit(And(b, Not(Hot(k))), j) <==> Bit(b, j) && j != k
    {
      BitAnd(b, Not(Hot(k)), j);
      BitNot(Hot(k), j);
      HotBit(k, j);
    }
  }

  // ---- The bitmap ----

  /** Flag i is bit i % 8 of byte i / 8. */
  ghost predicate Shows(b: seq<Octet>, v: seq<bool>) {
    |b| == (|v| + 7) / 8 && forall i {:trigger v[i]} :: 0 <= i < |v| ==> v[i] == Bit(b[i / 8], i % 8)
  }

  lemma ShowsSet(b: seq<Octet>, v: seq<bool>, i: nat)
    requires Shows(b, v) && i < |v|
    ensures i / 8 < |b| && Shows(b[i / 8 := SetBit(b[i / 8], i % 8)], v[i := true])
  {
    hide Bit, SetBit;
    var c := b[i / 8 := SetBit(b[i / 8], i % 8)];
    forall j | 0 <= j < |v|
      ensures v[i := true][j] == Bit(c[j / 8], j % 8)
    {
      assert v[j] == Bit(b[j / 8], j % 8);
      assert j == i <==> j / 8 == i / 8 && j % 8 == i % 8;
    }
  }

  lemma ShowsClear(b: seq<Octet>, v: seq<bool>, i: nat)
    requires Shows(b, v) && i < |v|
    ensures i / 8 < |b| && Shows(b[i / 8 := ClearBit(b[i / 8], i % 8)], v[i := false])
  {
    hide Bit, ClearBit;
    var c := b[i / 8 := ClearBit(b[i / 8], i % 8)];
    forall j | 0 <= j < |v|
      ensures v[i := false][j] == Bit(c[j / 8], j % 8)
    {
      assert v[j] == Bit(b[j / 8], j % 8);
      assert j == i <==> j / 8 == i / 8 && j % 8 == i % 8;
    }
  }

  /** A word's bits are the flags from `first` on, read as taken past the last. */
  ghost predicate Window(w: bv64, v: seq<bool>, first: nat) {
    forall k {:trigger Bit(w, k)} :: 0 <= k < WORD ==> (Bit(w, k) <==> first + k >= |v| || v[first + k])
  }

  /** A byte's bits are added to a word by placing it and or-ing it in. */
  lemma PlaceByte(w: bv64, b: Octet, k: nat, j: nat)
    requires k < 8 && j < WORD
    ensures Bit(Or(w, Placed(b, k)), j) <==> Bit(w, j) || (j / 8 == k && Bit(b, j % 8))
  {
    hide Bit, Or, Placed, IsByte;
    OctetIs(b);
    BitOr(w, Placed(b, k), j);
    PlacedBit(b, k, j);
    assert 8 * k <= j < 8 * k + 8 <==> j / 8 == k;
    assert j / 8 == k ==> j - 8 * k == j % 8;
  }

  /** The first `k` bytes from `p` are in the word, low first, and nothing above them is. */
  ghost predicate Gathered(w: bv64, b: seq<Octet>, p: nat, k: nat)
    requires p + 8 <= |b|
  {
    forall j: nat :: j < WORD ==> FromByte(w, b, p, k, j)
  }

  lemma GatheredNone(b: seq<Octet>, p: nat)
    requires p + 8 <= |b|
    ensures Gathered(0, b, p, 0)
  {
    hide Bit;
    NoBits();
  }

  /** Bit `j` is that of one of the first `k` bytes from `p`. */
  ghost predicate FromByte(w: bv64, b: seq<Octet>, p: nat, k: nat, j: nat)
    requires p + 8 <= |b| && j < WORD
  {
    Bit(w, j) <==> j / 8 < k && Bit(b[p + j / 8], j % 8)
  }

  lemma GatheredAt(w: bv64, b: seq<Octet>, p: nat, k: nat, j: nat)
    requires p + 8 <= |b| && k < 8 && j < WORD && FromByte(w, b, p, k, j)
    ensures FromByte(Or(w, Placed(b[p + k], k)), b, p, k + 1, j)
  {
    hide Bit, Or, Placed;
    PlaceByte(w, b[p + k], k, j);
  }

  lemma GatheredNext(w: bv64, b: seq<Octet>, p: nat, k: nat)
    requires p + 8 <= |b| && k < 8 && Gathered(w, b, p, k)
    ensures Gathered(Or(w, Placed(b[p + k], k)), b, p, k + 1)
  {
    hide Bit, Or, Placed, FromByte;
    var v, n := Or(w, Placed(b[p + k], k)), k + 1;
    forall j: nat | j < WORD
      ensures FromByte(v, b, p, n, j)
    {
      GatheredAt(w, b, p, k, j);
    }
  }

  lemma GatheredAll(w: bv64, b: seq<Octet>, p: nat)
    requires p + 8 <= |b| && Gathered(w, b, p, 8)
    ensures forall j {:trigger Bit(w, j)} :: 0 <= j < WORD ==> (Bit(w, j) <==> Bit(b[p + j / 8], j % 8))
  {
    hide Bit;
    forall j: nat | j < WORD
      ensures FromByte(w, b, p, 8, j) && (Bit(w, j) <==> Bit(b[p + j / 8], j % 8))
    {
      assert FromByte(w, b, p, 8, j);
    }
  }

  lemma OctetIs(b: Octet)
    ensures IsByte(b)
  {
  }

  class FrameAllocator {
    var bits: array<Octet>
    var base: nat
    var granule: nat
    var frames: nat
    var reserved: nat
    var usable: nat
    var free: nat
    var hint: nat
    ghost var taken: seq<bool>

    ghost predicate Valid()
      reads this, bits
    {
      && |taken| == frames && free == Count(taken) && Shows(bits[..], taken)
      && reserved <= hint <= frames && usable == frames - reserved
      && (forall i :: 0 <= i < reserved ==> taken[i])
      && (frames > 0 ==> base > 0 && granule > 0)
      && (granule == 0 ==> frames == 0)
      && (frames > 0 ==> Covers(bits.Length, reserved, granule))
    }

    constructor ()
      ensures bits.Length == 0 && base == 0 && granule == 0 && frames == 0 && reserved == 0
      ensures usable == 0 && free == 0 && hint == 0 && taken == []
    {
      bits := new Octet[0];
      base, granule, frames, reserved, usable, free, hint := 0, 0, 0, 0, 0, 0, 0;
      taken := [];
    }

    /** The range taken over, its leading frames holding the bitmap and every other frame free. It is
        refused unless it is aligned to a power of two and has a frame beside its own bitmap. */
    method Init(start: nat, size: nat, grain: nat) returns (ok: bool)
      modifies this
      ensures Valid() && fresh(bits)
      ensures ok <==> start != 0 && IsPow2(grain) && start % grain == 0 && size >= grain &&
                      (size / grain + 7) / 8 <= (size / grain - 1) * grain
      ensures !ok ==> frames == 0
      ensures ok ==> base == start && granule == grain && frames == size / grain && bits.Length == (frames + 7) / 8
      ensures ok ==> taken == Fresh(frames, reserved) && free == usable
    {
      hide Valid, IsPow2, Overhead, Covers;
      Forget();
      if start == 0 || !IsPow2(grain) {
        return false;
      }
      Pow2Some(grain);
      if start % grain != 0 {
        return false;
      }
      var total := size / grain;
      SomeWhole(size, grain);
      if total == 0 {
        return false;
      }
      var own := Overhead((total + 7) / 8, grain);
      OverheadIs((total + 7) / 8, grain);
      OverheadUnder((total + 7) / 8, grain, total);
      if own >= total {
        return false;
      }
      Adopt(start, grain, total, own);
      return true;
    }

    method Forget()
      modifies this
      ensures Valid() && fresh(bits) && frames == 0
    {
      hide Shows, Count;
      bits := new Octet[0];
      base, granule, frames, reserved, usable, free, hint := 0, 0, 0, 0, 0, 0, 0;
      taken := [];
      EmptyShows(bits[..]);
    }

    method Adopt(start: nat, grain: nat, total: nat, own: nat)
      requires start > 0 && grain > 0 && own < total && Covers((total + 7) / 8, own, grain)
      modifies this
      ensures Valid() && fresh(bits) && base == start && granule == grain && frames == total && reserved == own
      ensures taken == Fresh(total, own) && free == usable && bits.Length == (total + 7) / 8
    {
      hide Shows, Count, Covers;
      var cells := new Octet[(total + 7) / 8];
      MarkOwn(cells, total, own);
      FreshCount(total, own);
      bits := cells;
      base, granule, frames, reserved, usable, free, hint := start, grain, total, own, total - own, total - own, own;
      taken := Fresh(total, own);
    }

    /** The bytes of one word, low byte first. */
    method WordAt(p: nat) returns (w: bv64)
      requires p + 8 <= bits.Length
      ensures forall j {:trigger Bit(w, j)} :: 0 <= j < WORD ==> (Bit(w, j) <==> Bit(bits[p + j / 8], j % 8))
    {
      hide Bit, Or, Placed, Gathered;
      w := 0;
      GatheredNone(bits[..], p);
      for k := 0 to 8
        invariant Gathered(w, bits[..], p, k)
      {
        GatheredNext(w, bits[..], p, k);
        w := Or(w, Placed(bits[p + k], k));
      }
      GatheredAll(w, bits[..], p);
    }

    /** The word holding frame 64 * widx at its lowest bit; frames past the last read as taken. */
    method ScanWord(widx: nat) returns (w: bv64)
      requires Valid() && widx * WORD < frames
      ensures Window(w, taken, widx * WORD)
    {
      hide Bit, Or, Placed, Above, Count, Window, Partly, Covers;
      var first := widx * WORD;
      if frames - first >= WORD {
        w := WordAt(widx * 8);
        WholeWord(w, bits[..], taken, widx);
        return;
      }
      var bytes := (frames + 7) / 8;
      w := Above(frames - first);
      PartStart(bits[..], taken, widx);
      var k := 0;
      while k < 8
        invariant 0 <= k <= 8 && Partly(w, bits[..], taken, widx, k)
        decreases 8 - k
      {
        var b := widx * 8 + k;
        if b >= bytes {
          break;
        }
        PartNext(w, bits[..], taken, widx, k);
        w := Or(w, Placed(bits[b], k));
        k := k + 1;
      }
      PartDone(w, bits[..], taken, widx, k);
    }

    method TakeOne(j: nat) returns (r: nat)
      requires Valid() && j < frames && !taken[j]
      modifies bits, this`free, this`hint, this`taken
      ensures Valid() && taken == old(taken)[j := true] && r == Addr(base, j, granule)
    {
      hide Shows, SetBit, Count, Addr, Covers;
      Touch(bits[..], taken, j);
      ShowsSet(bits[..], taken, j);
      CountSet(taken, j, true);
      ghost var b: seq<Octet> := bits[..];
      bits[j / 8] := SetBit(bits[j / 8], j % 8);
      assert bits[..] == b[j / 8 := SetBit(b[j / 8], j % 8)];
      taken := taken[j := true];
      free := free - 1;
      hint := j + 1;
      return Addr(base, j, granule);
    }

    method TakeRun(first: nat, pages: nat) returns (r: nat)
      requires Valid() && pages > 0 && FreeRun(taken, first, pages)
      modifies bits, this`free, this`hint, this`taken
      ensures Valid() && taken == Taking(old(taken), first, pages) && r == Addr(base, first, granule)
    {
      hide Shows, SetBit, Count, Taking, Addr, Covers;
      ghost var v := taken;
      CountTaking(v, first, pages);
      CountRun(v, first, pages);
      TakingNone(v, first);
      var j := first;
      while j < first + pages
        modifies bits, this`taken
        invariant first <= j <= first + pages <= frames && |taken| == |v| && Shows(bits[..], taken)
        invariant taken == Taking(v, first, j - first)
      {
        Touch(bits[..], taken, j);
        ShowsSet(bits[..], taken, j);
        TakingNext(v, first, j - first);
        ghost var b: seq<Octet> := bits[..];
        bits[j / 8] := SetBit(bits[j / 8], j % 8);
        assert bits[..] == b[j / 8 := SetBit(b[j / 8], j % 8)];
        taken := taken[j := true];
        j := j + 1;
      }
      free := free - pages;
      if hint < first + pages {
        hint := first + pages;
      }
      return Addr(base, first, granule);
    }

    /** The first free frame of a pass over [start, end), or past it in its last word. */
    method Pass(start: nat, end: nat) returns (found: bool, j: nat)
      requires Valid() && end <= frames
      ensures found ==> start <= j < frames && !taken[j]
      ensures !found ==> forall k :: start <= k < end ==> taken[k]
    {
      hide Shows, Count, Window, Above, Not, And, Ctz, Covers;
      var i := start;
      while i < end
        invariant start <= i && forall k :: start <= k < i && k < frames ==> taken[k]
        decreases end - i
      {
        var first := (i / WORD) * WORD;
        var w := ScanWord(i / WORD);
        var freeBits := And(Not(w), Above(i - first));
        LowestFree(w, taken, first, i - first);
        if freeBits != 0 {
          return true, first + Ctz(freeBits, 0);
        }
        i := first + WORD;
      }
      return false, 0;
    }

    /** A free frame, whichever the hint leads to, exactly when there is one. */
    method Alloc() returns (r: nat, ghost j: nat)
      requires Valid()
      modifies bits, this`free, this`hint, this`taken
      ensures Valid()
      ensures r == 0 <==> forall i :: 0 <= i < frames ==> old(taken)[i]
      ensures r == 0 ==> taken == old(taken)
      ensures r != 0 ==>
              reserved <= j < frames && !old(taken)[j] && taken == old(taken)[j := true] && r == base + j * granule
      ensures r != 0 ==> r >= base + bits.Length && r + granule <= base + frames * granule
    {
      hide Shows, Count, Addr, Covers;
      CountNone(taken);
      if free == 0 {
        return 0, 0;
      }
      if hint < frames {
        Touch(bits[..], taken, hint);
        if !Bit(bits[hint / 8], hint % 8) {
          j := hint;
          PastBitmap(base, j, granule, bits.Length, reserved, frames);
          r := TakeOne(hint);
          return;
        }
      }
      var found, at := Pass(hint, frames);
      if !found {
        found, at := Pass(reserved, hint);
      }
      if !found {
        assert false;
      }
      j := at;
      PastBitmap(base, j, granule, bits.Length, reserved, frames);
      r := TakeOne(at);
    }

    /** One sweep of the words from the bitmap's own frames up, for the lowest run that fits. */
    method FindRun(pages: nat) returns (found: bool, s: nat)
      requires Valid() && pages > 0
      ensures found ==> Lowest(taken, s, pages)
      ensures !found ==> forall t :: 0 <= t ==> !FreeRun(taken, t, pages)
    {
      hide Shows, Count, Window, Searched, Lowest, FreeRun, Above, And, Less1, Ctz, Rest, Covers;
      var run: nat, i: nat := 0, reserved;
      SearchStart(taken, reserved, pages);
      while i < frames
        invariant run <= i && Searched(taken, i, run, pages)
        decreases frames - i
      {
        var first := (i / WORD) * WORD;
        var above := Above(i - first);
        var w := ScanWord(i / WORD);
        var left := And(w, above);
        RestStart(w, taken, first, i - first);
        if left == above {
          AllTaken(w, taken, first, i - first);
          Skips(taken, i, run, pages, first + WORD);
          run := 0;
          i := first + WORD;
          continue;
        }
        var p: nat := i;
        while left != 0
          invariant first <= p <= first + WORD && run <= p && Searched(taken, p, run, pages) && Rest(left, taken, first, p)
          decreases first + WORD - p
        {
          var q := first + Ctz(left, 0);
          RestNext(left, taken, first, p);
          if run + (q - p) >= pages {
            Completes(taken, p, run, pages, q);
            return true, p - run;
          }
          Breaks(taken, p, run, pages, q);
          run := 0;
          p := q + 1;
          left := And(left, Less1(left));
        }
        RestNone(taken, first, p);
        if run + (first + WORD - p) >= pages {
          Completes(taken, p, run, pages, first + WORD);
          return true, p - run;
        }
        Extends(taken, p, run, pages, first + WORD);
        run := run + (first + WORD - p);
        i := first + WORD;
      }
      forall t | 0 <= t
        ensures !FreeRun(taken, t, pages)
      {
        NoneLeft(taken, i, run, pages, t);
      }
      return false, 0;
    }

    /** The lowest run of `pages` free frames, exactly when there is one. */
    method AllocRun(pages: nat) returns (r: nat, ghost s: nat)
      requires Valid()
      modifies bits, this`free, this`hint, this`taken
      ensures Valid()
      ensures r == 0 <==> pages == 0 || forall t :: 0 <= t ==> !FreeRun(old(taken), t, pages)
      ensures r == 0 ==> taken == old(taken)
      ensures r != 0 ==> Lowest(old(taken), s, pages) && taken == Taking(old(taken), s, pages) && r == base + s * granule
      ensures r != 0 ==> r >= base + bits.Length && r + pages * granule <= base + frames * granule
    {
      hide Shows, Count, Addr, Lowest, Taking, FreeRun, Covers;
      if pages == 0 {
        return 0, 0;
      }
      if free < pages {
        TooFew(taken, pages);
        return 0, 0;
      }
      var found, first := FindRun(pages);
      s := first;
      if !found {
        return 0, s;
      }
      LowestRun(taken, first, pages);
      RunStands(taken, first, pages);
      RunPast(taken, first, pages, reserved);
      PastBitmap(base, first, granule, bits.Length, reserved, frames);
      MulUp(first + pages, frames, granule);
      assert (first + pages) * granule == first * granule + pages * granule;
      r := TakeRun(first, pages);
    }

    method IndexOf(addr: nat) returns (ok: bool, i: nat)
      requires Valid()
      ensures ok ==> i < frames && addr == Addr(base, i, granule)
      ensures !ok ==> forall k: nat :: k < frames ==> addr != Addr(base, k, granule)
    {
      hide Shows, Count, Addr, Covers;
      if granule == 0 || addr < base {
        return false, 0;
      }
      var off := addr - base;
      AddrOnly(base, addr, granule);
      if off % granule != 0 {
        return false, 0;
      }
      i := off / granule;
      if i >= frames {
        return false, 0;
      }
      return true, i;
    }

    /** Frees an allocated frame handed out before; anything else is refused and changes nothing. */
    method Release(addr: nat) returns (ok: bool, ghost i: nat)
      requires Valid()
      modifies bits, this`free, this`hint, this`taken
      ensures Valid()
      ensures ok ==>
              reserved <= i < frames && old(taken)[i] && addr == Addr(base, i, granule) && taken == old(taken)[i := false]
      ensures !ok ==> taken == old(taken) &&
                      forall k: nat :: reserved <= k < frames && addr == Addr(base, k, granule) ==> !taken[k]
    {
      hide Shows, Count, Addr, ClearBit, Bit, Covers;
      var known, at := IndexOf(addr);
      i := at;
      if !known {
        return false, i;
      }
      AddrOnce(base, at, granule);
      if at < reserved {
        return false, i;
      }
      Touch(bits[..], taken, at);
      if !Bit(bits[at / 8], at % 8) {
        return false, i;
      }
      ShowsClear(bits[..], taken, at);
      CountSet(taken, at, false);
      ghost var b: seq<Octet> := bits[..];
      bits[at / 8] := ClearBit(bits[at / 8], at % 8);
      assert bits[..] == b[at / 8 := ClearBit(b[at / 8], at % 8)];
      taken := taken[at := false];
      free := free + 1;
      if at < hint {
        hint := at;
      }
      return true, i;
    }

    method IsAllocated(addr: nat) returns (yes: bool)
      requires Valid()
      ensures yes <==> exists k: nat :: k < frames && addr == Addr(base, k, granule) && taken[k]
    {
      hide Shows, Count, Addr, Bit, Covers;
      var known, at := IndexOf(addr);
      if !known {
        return false;
      }
      AddrOnce(base, at, granule);
      Touch(bits[..], taken, at);
      return Bit(bits[at / 8], at % 8);
    }
  }

  /** How many frames `bytes` bytes take up. */
  function Overhead(bytes: nat, granule: nat): nat
    requires granule > 0
  {
    (bytes + granule - 1) / granule
  }

  /** `own` frames are as many as `bytes` bytes need, and no more. */
  ghost predicate Covers(bytes: nat, own: nat, granule: nat) {
    bytes <= own * granule && (own > 0 ==> (own - 1) * granule < bytes)
  }

  lemma OverheadIs(bytes: nat, granule: nat)
    requires granule > 0
    ensures Covers(bytes, Overhead(bytes, granule), granule)
  {
    var x := bytes + granule - 1;
    var q, r := x / granule, x % granule;
    assert x == granule * q + r;
    assert (q - 1) * granule == q * granule - granule;
  }

  /** The bitmap leaves a frame exactly when it fits in all but one. */
  lemma OverheadUnder(bytes: nat, granule: nat, total: nat)
    requires granule > 0 && total > 0 && Covers(bytes, Overhead(bytes, granule), granule)
    ensures Overhead(bytes, granule) < total <==> bytes <= (total - 1) * granule
  {
    hide Overhead;
    var own := Overhead(bytes, granule);
    if own < total {
      MulUp(own, total - 1, granule);
    } else {
      MulUp(total - 1, own - 1, granule);
    }
  }

  lemma MulUp(a: nat, b: nat, g: nat)
    requires a <= b
    ensures a * g <= b * g
  {
    assert b * g == a * g + (b - a) * g;
  }

  lemma SomeWhole(size: nat, grain: nat)
    requires grain > 0
    ensures size / grain > 0 <==> size >= grain
  {
  }

  /** A frame past the bitmap's own lies past the bitmap, and within the range. */
  lemma PastBitmap(base: nat, j: nat, granule: nat, bytes: nat, own: nat, frames: nat)
    requires Covers(bytes, own, granule) && own <= j < frames
    ensures Addr(base, j, granule) >= base + bytes && Addr(base, j, granule) + granule <= base + frames * granule
    ensures Addr(base, j, granule) == base + j * granule
  {
    MulUp(own, j, granule);
    MulUp(j + 1, frames, granule);
    assert (j + 1) * granule == j * granule + granule;
  }

  /** Two times two, `k` times over. */
  function Two(k: nat): (n: nat)
    ensures n > 0
  {
    if k == 0 then 1 else 2 * Two(k - 1)
  }

  /** The test is met by the powers of two and by nothing else. */
  lemma Pow2Is(n: nat)
    ensures IsPow2(n) <==> exists k: nat :: n == Two(k)
  {
    hide IsPow2, Two;
    if IsPow2(n) {
      var k := LogOf(n);
      assert n == Two(k);
    }
    if k: nat :| n == Two(k) {
      TwoIs(k);
    }
  }

  lemma {:induction false} LogOf(n: nat) returns (k: nat)
    requires IsPow2(n)
    ensures n == Two(k)
    decreases n
  {
    k := 0;
    if n > 1 {
      k := LogOf(n / 2);
      k := k + 1;
    }
  }

  lemma {:induction false} TwoIs(k: nat)
    ensures IsPow2(Two(k))
  {
    if k > 0 {
      TwoIs(k - 1);
    }
  }

  /** The first `own` frames taken and no other. */
  ghost function Fresh(frames: nat, own: nat): (v: seq<bool>)
    ensures |v| == frames && forall i :: 0 <= i < frames ==> v[i] == (i < own)
  {
    seq(frames, i => i < own)
  }

  lemma FreshCount(frames: nat, own: nat)
    requires own <= frames
    ensures Count(Fresh(frames, own)) == frames - own
  {
    hide Count;
    var none := Fresh(frames, 0);
    AllFree(none);
    CountTaking(none, 0, own);
    assert Taking(none, 0, own) == Fresh(frames, own);
  }

  lemma {:induction false} AllFree(v: seq<bool>)
    requires forall i :: 0 <= i < |v| ==> !v[i]
    ensures Count(v) == |v|
  {
    if v != [] {
      AllFree(v[1..]);
    }
  }

  lemma EmptyShows(b: seq<Octet>)
    requires b == []
    ensures Shows(b, []) && Count([]) == 0
  {
  }

  lemma Pow2Some(n: nat)
    requires IsPow2(n)
    ensures n > 0
  {
  }

  /** The bitmap's own frames set in it: whole bytes, and the low bits of the next. */
  method MarkOwn(cells: array<Octet>, frames: nat, own: nat)
    requires cells.Length == (frames + 7) / 8 && own < frames
    modifies cells
    ensures Shows(cells[..], Fresh(frames, own))
  {
    hide Shows, Less1, Hot;
    for i := 0 to cells.Length
      invariant forall k :: 0 <= k < i ==> cells[k] == 0
    {
      cells[i] := 0;
    }
    var whole := own / 8;
    for i := 0 to whole
      invariant forall k :: 0 <= k < cells.Length ==> cells[k] == if k < i then 0xFF else 0
    {
      cells[i] := 0xFF;
    }
    var rest := own % 8;
    if rest != 0 {
      LowOctet(rest);
      cells[whole] := Less1(Hot(rest));
    }
    OwnShows(cells[..], frames, own);
  }

  lemma LowOctet(r: nat)
    requires r < 8
    ensures Less1(Hot(r)) < 0x100
  {
    HotOctet(r);
    HotOk(r);
    hide Hot;
    LowSmall(Hot(r));
  }

  lemma LowSmall(h: bv64)
    requires OneHot(h) && h < 0x100
    ensures Less1(h) < 0x100
  {
  }

  lemma LowBit(r: nat, j: nat)
    requires r < WORD && j < WORD
    ensures Bit(Less1(Hot(r)), j) <==> j < r
  {
    hide Hot, Less1, Not, Above, Meets;
    AboveHot(r);
    AboveBit(r, j);
    BitNot(Less1(Hot(r)), j);
  }

  lemma OwnShows(b: seq<Octet>, frames: nat, own: nat)
    requires |b| == (frames + 7) / 8 && own < frames
    requires forall k :: 0 <= k < |b| ==>
               b[k] == if k < own / 8 then 0xFF else if k == own / 8 && own % 8 != 0 then Less1(Hot(own % 8)) else 0
    ensures Shows(b, Fresh(frames, own))
  {
    hide Bit, Less1, Hot, Fresh;
    var v := Fresh(frames, own);
    forall i {:trigger v[i]} | 0 <= i < |v|
      ensures v[i] == Bit(b[i / 8], i % 8)
    {
      NoBits();
      FullByte();
      LowBit(8, i % 8);
      LowBit(own % 8, i % 8);
      assert i < own <==> i / 8 < own / 8 || (i / 8 == own / 8 && i % 8 < own % 8);
    }
  }

  lemma FullByte()
    ensures Less1(Hot(8)) == 0xFF
  {
    hide Hot;
    Some();
  }

  lemma WholeWord(w: bv64, b: seq<Octet>, v: seq<bool>, widx: nat)
    requires Shows(b, v) && widx * WORD + WORD <= |v| && widx * 8 + 8 <= |b|
    requires forall j {:trigger Bit(w, j)} :: 0 <= j < WORD ==> (Bit(w, j) <==> Bit(b[widx * 8 + j / 8], j % 8))
    ensures Window(w, v, widx * WORD)
  {
    hide Bit;
    forall k {:trigger Bit(w, k)} | 0 <= k < WORD
      ensures Bit(w, k) <==> v[widx * WORD + k]
    {
      InByte(widx, k);
    }
  }

  lemma InByte(widx: nat, k: nat)
    requires k < WORD
    ensures (widx * WORD + k) / 8 == widx * 8 + k / 8 && (widx * WORD + k) % 8 == k % 8
  {
  }

  /** The bytes below the k-th of the last word read in, over ones from the last frame on. */
  ghost predicate Partly(w: bv64, b: seq<Octet>, v: seq<bool>, widx: nat, k: nat) {
    forall j {:trigger Bit(w, j)} :: 0 <= j < WORD ==> (Bit(w, j) <==> PartBit(b, v, widx, k, j))
  }

  ghost predicate PartBit(b: seq<Octet>, v: seq<bool>, widx: nat, k: nat, j: nat) {
    widx * WORD + j >= |v| || (j / 8 < k && widx * 8 + j / 8 < |b| && Bit(b[widx * 8 + j / 8], j % 8))
  }

  lemma PartBitNext(b: seq<Octet>, v: seq<bool>, widx: nat, k: nat, j: nat)
    requires j < WORD && widx * 8 + k < |b|
    ensures PartBit(b, v, widx, k + 1, j) <==>
            PartBit(b, v, widx, k, j) || (j / 8 == k && Bit(b[widx * 8 + k], j % 8)) || widx * WORD + j >= |v|
  {
    hide Bit;
    var q := j / 8;
    assert q < k + 1 <==> q < k || q == k;
  }

  lemma PartBitPast(b: seq<Octet>, v: seq<bool>, widx: nat, k: nat, j: nat)
    requires widx * WORD + j >= |v|
    ensures PartBit(b, v, widx, k, j)
  {
  }

  lemma PartStart(b: seq<Octet>, v: seq<bool>, widx: nat)
    requires widx * WORD < |v| < widx * WORD + WORD
    ensures Partly(Above(|v| - widx * WORD), b, v, widx, 0)
  {
    hide Bit, Above;
    forall j {:trigger Bit(Above(|v| - widx * WORD), j)} | 0 <= j < WORD
      ensures Bit(Above(|v| - widx * WORD), j) <==> widx * WORD + j >= |v|
    {
      AboveBit(|v| - widx * WORD, j);
    }
  }

  lemma PartNext(w: bv64, b: seq<Octet>, v: seq<bool>, widx: nat, k: nat)
    requires k < 8 && widx * 8 + k < |b| && Partly(w, b, v, widx, k)
    ensures Partly(Or(w, Placed(b[widx * 8 + k], k)), b, v, widx, k + 1)
  {
    hide Bit, Or, Placed, PartBit;
    var u := Or(w, Placed(b[widx * 8 + k], k));
    forall j {:trigger Bit(u, j)} | 0 <= j < WORD
      ensures Bit(u, j) <==> PartBit(b, v, widx, k + 1, j)
    {
      PlaceByte(w, b[widx * 8 + k], k, j);
      PartBitNext(b, v, widx, k, j);
      assert Bit(w, j) <==> PartBit(b, v, widx, k, j);
      if widx * WORD + j >= |v| {
        PartBitPast(b, v, widx, k, j);
      }
    }
  }

  lemma PartDone(w: bv64, b: seq<Octet>, v: seq<bool>, widx: nat, k: nat)
    requires Shows(b, v) && Partly(w, b, v, widx, k) && (k >= 8 || widx * 8 + k >= |b|)
    ensures Window(w, v, widx * WORD)
  {
    hide Bit;
    forall j {:trigger Bit(w, j)} | 0 <= j < WORD
      ensures Bit(w, j) <==> widx * WORD + j >= |v| || v[widx * WORD + j]
    {
      InByte(widx, j);
    }
  }

  lemma NoBits()
    ensures forall j {:trigger Bit(0, j)} :: 0 <= j ==> !Bit(0, j)
  {
  }

  lemma Touch(b: seq<Octet>, v: seq<bool>, i: nat)
    requires Shows(b, v) && i < |v|
    ensures i / 8 < |b| && v[i] == Bit(b[i / 8], i % 8)
  {
  }

  lemma TakingNone(v: seq<bool>, s: nat)
    requires s <= |v|
    ensures Taking(v, s, 0) == v
  {
  }

  lemma TakingNext(v: seq<bool>, s: nat, n: nat)
    requires s + n < |v|
    ensures Taking(v, s, n + 1) == Taking(v, s, n)[s + n := true]
  {
  }

  /** The clear bits of a word from bit `d` on, and the lowest of them. */
  lemma LowestFree(w: bv64, v: seq<bool>, first: nat, d: nat)
    requires Window(w, v, first) && d < WORD
    ensures var f := And(Not(w), Above(d));
            && (f == 0 ==> forall k :: first + d <= k < first + WORD && k < |v| ==> v[k])
            && (f != 0 ==> first + d <= first + Ctz(f, 0) < |v| && !v[first + Ctz(f, 0)])
  {
    hide Bit, And, Not, Above;
    var f := And(Not(w), Above(d));
    forall k {:trigger Bit(f, k)} | 0 <= k < WORD
      ensures Bit(f, k) <==> k >= d && first + k < |v| && !v[first + k]
    {
      BitAnd(Not(w), Above(d), k);
      BitNot(w, k);
      AboveBit(d, k);
    }
    ZeroBits(f);
    if f == 0 {
      forall k | first + d <= k < first + WORD && k < |v|
        ensures v[k]
      {
        assert !Bit(f, k - first);
      }
    }
  }

  // ---- The run search in one word ----

  lemma TooFew(v: seq<bool>, n: nat)
    requires Count(v) < n
    ensures forall t :: 0 <= t ==> !FreeRun(v, t, n)
  {
    forall t | 0 <= t
      ensures !FreeRun(v, t, n)
    {
      if FreeRun(v, t, n) {
        CountRun(v, t, n);
        assert false;
      }
    }
  }

  lemma SearchStart(v: seq<bool>, reserved: nat, n: nat)
    requires n > 0 && reserved <= |v| && forall i :: 0 <= i < reserved ==> v[i]
    ensures Searched(v, reserved, 0, n)
  {
    forall t | 0 <= t < reserved
      ensures !FreeRun(v, t, n)
    {
      assert v[t];
    }
  }

  lemma LowestRun(v: seq<bool>, s: nat, n: nat)
    requires Lowest(v, s, n)
    ensures FreeRun(v, s, n)
  {
  }

  lemma RunStands(v: seq<bool>, s: nat, n: nat)
    requires FreeRun(v, s, n) && n > 0
    ensures |v| > 0
  {
  }

  /** A word's set bits are the taken frames of its window from `p` on. */
  ghost predicate Rest(w: bv64, v: seq<bool>, first: nat, p: nat) {
    forall k {:trigger Bit(w, k)} :: 0 <= k < WORD ==> (Bit(w, k) <==> first + k >= p && (first + k >= |v| || v[first + k]))
  }

  lemma RestStart(w: bv64, v: seq<bool>, first: nat, d: nat)
    requires Window(w, v, first) && d < WORD
    ensures Rest(And(w, Above(d)), v, first, first + d)
  {
    hide Bit, And, Above;
    var f := And(w, Above(d));
    forall k {:trigger Bit(f, k)} | 0 <= k < WORD
      ensures Bit(f, k) <==> first + k >= first + d && (first + k >= |v| || v[first + k])
    {
      BitAnd(w, Above(d), k);
      AboveBit(d, k);
    }
  }

  lemma AllTaken(w: bv64, v: seq<bool>, first: nat, d: nat)
    requires Window(w, v, first) && d < WORD && And(w, Above(d)) == Above(d)
    ensures forall k :: first + d <= k < first + WORD && k < |v| ==> v[k]
  {
    hide Bit, And, Above;
    forall k | first + d <= k < first + WORD && k < |v|
      ensures v[k]
    {
      BitAnd(w, Above(d), k - first);
      AboveBit(d, k - first);
      assert Bit(w, k - first);
    }
  }

  /** The lowest set bit is the next taken frame; clearing it leaves those after. */
  lemma RestNext(w: bv64, v: seq<bool>, first: nat, p: nat)
    requires Rest(w, v, first, p) && w != 0 && first <= p
    ensures var q := first + Ctz(w, 0);
            && Ctz(w, 0) < WORD && p <= q && (q >= |v| || v[q]) && FreeTo(v, p, q)
            && Rest(And(w, Less1(w)), v, first, q + 1)
  {
    hide Bit, And, Less1;
    DropLowest(w, 0);
    var c := Ctz(w, 0);
    var q := first + c;
    assert Bit(w, c);
    forall k | p <= k < q
      ensures k < |v| && !v[k]
    {
      assert !Bit(w, k - first);
    }
    if p < q {
      assert !Bit(w, c - 1);
      assert first + (c - 1) < |v|;
    }
    var u := And(w, Less1(w));
    forall k {:trigger Bit(u, k)} | 0 <= k < WORD
      ensures Bit(u, k) <==> first + k >= q + 1 && (first + k >= |v| || v[first + k])
    {
      DropLowest(w, k);
      assert k < c ==> !Bit(w, k);
    }
  }

  lemma RestNone(v: seq<bool>, first: nat, p: nat)
    requires Rest(0, v, first, p) && first <= p <= first + WORD
    ensures FreeTo(v, p, first + WORD)
  {
    hide Bit;
    NoBits();
    forall k | p <= k < first + WORD
      ensures k < |v| && !v[k]
    {
      assert !Bit(0, k - first);
    }
    if p < first + WORD {
      assert !Bit(0, WORD - 1);
      assert first + (WORD - 1) < |v|;
    }
  }

  // ---- Addresses ----

  /** No two frames share an address. */
  /** A free run lies past the frames taken from the start. */
  lemma RunPast(v: seq<bool>, first: nat, pages: nat, own: nat)
    requires FreeRun(v, first, pages) && pages > 0 && own <= |v| && forall i :: 0 <= i < own ==> v[i]
    ensures own <= first && first + pages <= |v|
  {
    assert first < |v| && !v[first];
  }

  lemma AddrOnce(base: nat, i: nat, granule: nat)
    requires granule > 0
    ensures forall k: nat {:trigger Addr(base, k, granule)} :: Addr(base, k, granule) == Addr(base, i, granule) ==> k == i
  {
    forall k: nat {:trigger Addr(base, k, granule)} | Addr(base, k, granule) == Addr(base, i, granule)
      ensures k == i
    {
      MulOnce(k, i, granule);
    }
  }

  lemma MulOnce(k: nat, i: nat, g: nat)
    requires g > 0 && k * g == i * g
    ensures k == i
  {
    MulDiv(k, g);
    MulDiv(i, g);
  }

  /** An address is a frame's just when its offset is a whole number of granules, and then that frame's. */
  lemma AddrOnly(base: nat, addr: nat, granule: nat)
    requires granule > 0 && addr >= base
    ensures (addr - base) % granule == 0 ==> addr == Addr(base, (addr - base) / granule, granule)
    ensures forall k: nat {:trigger Addr(base, k, granule)} ::
              addr == Addr(base, k, granule) ==> (addr - base) % granule == 0 && (addr - base) / granule == k
  {
    var off := addr - base;
    assert off == (off / granule) * granule + off % granule;
    forall k: nat {:trigger Addr(base, k, granule)} | addr == Addr(base, k, granule)
      ensures off % granule == 0 && off / granule == k
    {
      MulDiv(k, granule);
    }
  }

  lemma MulDiv(k: nat, g: nat)
    requires g > 0
    ensures k * g % g == 0 && k * g / g == k
  {
    DivModUnique(g, k * g, k, 0);
  }
}
