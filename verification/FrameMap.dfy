/** Frames as a sequence of taken flags: runs of free ones and how many there are. */
module FrameMap {
  /** `n` free frames from `s` on. */
  predicate FreeRun(v: seq<bool>, s: nat, n: nat) {
    s + n <= |v| && forall k :: s <= k < s + n ==> !v[k]
  }

  /** The lowest run of `n` free frames starts at `s`. */
  ghost predicate Lowest(v: seq<bool>, s: nat, n: nat) {
    FreeRun(v, s, n) && forall t :: 0 <= t < s ==> !FreeRun(v, t, n)
  }

  function Count(v: seq<bool>): nat { if v == [] then 0 else (if v[0] then 0 else 1) + Count(v[1..]) }

  function Taking(v: seq<bool>, s: nat, n: nat): (w: seq<bool>)
    requires s + n <= |v|
    ensures |w| == |v| && forall k :: 0 <= k < |v| ==> w[k] == (v[k] || s <= k < s + n)
  {
    if n == 0 then v else Taking(v, s, n - 1)[s + n - 1 := true]
  }

  lemma {:induction false} CountSet(v: seq<bool>, i: nat, b: bool)
    requires i < |v|
    ensures Count(v[i := b]) == Count(v) + (if v[i] then 1 else 0) - (if b then 1 else 0)
  {
    var w := v[i := b];
    if i == 0 {
      assert w[1..] == v[1..];
    } else {
      assert w[1..] == v[1..][i - 1 := b];
      CountSet(v[1..], i - 1, b);
    }
  }

  lemma {:induction false} CountTaking(v: seq<bool>, s: nat, n: nat)
    requires FreeRun(v, s, n)
    ensures Count(Taking(v, s, n)) == Count(v) - n
  {
    if n > 0 {
      CountTaking(v, s, n - 1);
      CountSet(Taking(v, s, n - 1), s + n - 1, true);
    }
  }

  /** A run of free frames is within the count of them. */
  lemma CountRun(v: seq<bool>, s: nat, n: nat)
    requires FreeRun(v, s, n)
    ensures Count(v) >= n
  {
    CountTaking(v, s, n);
  }

  lemma {:induction false} CountNone(v: seq<bool>)
    ensures Count(v) == 0 <==> forall i :: 0 <= i < |v| ==> v[i]
  {
    if v != [] {
      CountNone(v[1..]);
      if forall i :: 0 <= i < |v| ==> v[i] {
        forall i | 0 <= i < |v[1..]|
          ensures v[1..][i]
        {
          assert v[1..][i] == v[i + 1];
        }
      } else if v[0] {
        var i :| 0 <= i < |v| && !v[i];
        assert v[1..][i - 1] == v[i];
      }
    }
  }

  // ---- A forward search ----

  ghost predicate FreeTo(v: seq<bool>, p: nat, q: nat) {
    (p < q ==> q <= |v|) && forall k :: p <= k < q && k < |v| ==> !v[k]
  }

  /** Searched up to `p`: the `run` frames below it are free, and no run of `n` starts below those. */
  ghost predicate Searched(v: seq<bool>, p: nat, run: nat, n: nat) {
    run <= p && run < n && FreeTo(v, p - run, p) && forall t :: 0 <= t < p - run ==> !FreeRun(v, t, n)
  }

  /** Free frames up to `q` complete the run. */
  lemma Completes(v: seq<bool>, p: nat, run: nat, n: nat, q: nat)
    requires Searched(v, p, run, n) && p <= q && run + (q - p) >= n && FreeTo(v, p, q)
    ensures Lowest(v, p - run, n)
  {
  }

  /** A taken frame, or the end, at `q` ends every run that reaches it. */
  lemma Breaks(v: seq<bool>, p: nat, run: nat, n: nat, q: nat)
    requires Searched(v, p, run, n) && p <= q && run + (q - p) < n && (q >= |v| || v[q])
    ensures Searched(v, q + 1, 0, n)
  {
    forall t | 0 <= t < q + 1
      ensures !FreeRun(v, t, n)
    {
      if t >= p - run {
        assert t <= q < t + n;
      }
    }
  }

  lemma Extends(v: seq<bool>, p: nat, run: nat, n: nat, q: nat)
    requires Searched(v, p, run, n) && p <= q && run + (q - p) < n && FreeTo(v, p, q)
    ensures Searched(v, q, run + (q - p), n)
  {
  }

  /** Taken frames, or the end, all the way to `q`. */
  lemma Skips(v: seq<bool>, p: nat, run: nat, n: nat, q: nat)
    requires Searched(v, p, run, n) && p < q && forall k :: p <= k < q && k < |v| ==> v[k]
    ensures Searched(v, q, 0, n)
  {
    forall t | 0 <= t < q
      ensures !FreeRun(v, t, n)
    {
      if t >= p {
        assert t < |v| ==> v[t];
      } else if t >= p - run {
        assert t <= p < t + n && (p < |v| ==> v[p]);
      }
    }
  }

  lemma NoneLeft(v: seq<bool>, p: nat, run: nat, n: nat, t: nat)
    requires Searched(v, p, run, n) && p >= |v|
    ensures !FreeRun(v, t, n)
  {
  }
}
