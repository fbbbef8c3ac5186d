/** The domain pool over whole runs: who borrows from whom, and which handles still name what they were
    made for. */
module DomainRun {
  import opened Borrowing
  import opened DomainPool
  import opened Modular

  /** What the pool is asked. `fits` is whether the budget, the space and the image allow a new domain;
      `passedOn` whether the memory it borrows was itself handed to `donor`. */
  datatype Op =
    | Take(d: nat)
    | Give(d: nat)
    | Fresh(fits: bool)
    | Make(donor: nat, passedOn: bool, fits: bool, handed: bool)
    | GiveBack(d: nat)
    | Retire(d: nat)

  /** `from` is the domain that reserved what each domain borrows, and `ages` how often what each slot
      held was given up for good. */
  datatype Sys = Sys(pool: Pool, rank: seq<nat>, from: seq<int>, ages: seq<nat>)

  ghost predicate Tracked(s: Sys, d: nat)
    requires d < |s.pool.doms| == |s.from| == |s.ages|
  {
    s.pool.doms[d].generation == s.ages[d] && (s.pool.doms[d].donor >= 0 ==> s.pool.doms[d].donor == s.from[d])
  }

  ghost predicate Inv(s: Sys) {
    && PoolOk(s.pool) && Ranked(s.pool, s.rank) && |s.from| == |s.ages| == |s.pool.doms|
    && forall d {:trigger Tracked(s, d)} :: 0 <= d < |s.pool.doms| ==> Tracked(s, d)
  }

  /** The pool at boot: two immortal domains, the other slots never claimed. */
  ghost function Boot(size: nat): (s: Sys)
    requires size >= FIRST
    ensures Inv(s)
  {
    var p := Pool(seq(size, i => Dom(0, i < FIRST, -1, false, 0)), [], 0, seq(size, _ => 0));
    BootOk(p, seq(size, _ => 0));
    Sys(p, seq(size, _ => 0), seq(size, _ => -1), seq(size, _ => 0))
  }

  /** In use: claimed and not free. */
  ghost predicate Live(p: Pool, d: int) { 0 <= d < FIRST + p.used <= |p.doms| && d !in p.free }

  ghost predicate Can(s: Sys, op: Op) {
    match op
    case Take(d) => Live(s.pool, d)
    case Give(d) => d < |s.pool.doms| && (!s.pool.doms[d].immortal ==> MayRelease(s.pool, d))
    case Fresh(_) => true
    case Make(donor, _, _, _) => Live(s.pool, donor)
    case GiveBack(d) => d < |s.pool.doms|
    case Retire(d) => d < |s.pool.doms|
  }

  /** Whoever reserved what a borrower of `donor` is lent. */
  ghost function Reserver(s: Sys, donor: nat, passedOn: bool): int
    requires donor < |s.pool.doms| == |s.from|
  {
    if passedOn && s.pool.doms[donor].donor != -1 then s.from[donor] else donor
  }

  ghost function Older(s: Sys, d: nat): seq<nat>
    requires d < |s.ages|
  {
    s.ages[d := s.ages[d] + 1]
  }

  ghost function Made(s: Sys, donor: nat, passedOn: bool, handed: bool): Sys
    requires Inv(s) && Live(s.pool, donor) && Next(s.pool) >= 0
  {
    ClaimedOk(s.pool, true, s.rank);
    OwnerOk(s.pool, donor, passedOn, s.rank);
    var d, o, p := Next(s.pool), Owner(s.pool, donor, passedOn), Claimed(s.pool, true);
    if handed
    then Sys(Lent(p, d, o), s.rank[d := s.rank[o] + 1], s.from[d := Reserver(s, donor, passedOn)], Older(s, d))
    else s.(pool := Freed(p, d), ages := Older(s, d))
  }

  ghost function Step(s: Sys, op: Op): Sys
    requires Inv(s) && Can(s, op)
  {
    match op
    case Take(d) => s.(pool := Ref(s.pool, d))
    case Give(d) =>
      ReleaseStart(s.pool, s.rank, d);
      s.(pool := Drop(Withdrawn(s.pool, d), s.rank, d))
    case Fresh(fits) =>
      if Next(s.pool) < 0 then s
      else
        ClaimedOk(s.pool, true, s.rank);
        s.(pool := if fits then Claimed(s.pool, true) else Refused(s.pool), ages := Older(s, Next(s.pool)))
    case Make(donor, passedOn, fits, handed) =>
      if Next(s.pool) < 0 then s
      else
        ClaimedOk(s.pool, true, s.rank);
        if fits then Made(s, donor, passedOn, handed)
        else s.(pool := Refused(s.pool), ages := Older(s, Next(s.pool)))
    case GiveBack(d) =>
      if s.pool.doms[d].donor < 0 then s
      else
        ReturnedOk(s.pool, d, s.rank);
        s.(pool := Returned(s.pool, d))
    case Retire(d) => s.(pool := Aged(s.pool, d), ages := if s.pool.doms[d].immortal then s.ages else Older(s, d))
  }

  // ---- What every step keeps ----

  lemma GiveInv(s: Sys, d: nat)
    requires Inv(s) && Can(s, Give(d))
    ensures Inv(Step(s, Give(d)))
  {
    hide PoolOk, Ranked, Drop, Withdrawn, MayRelease, Owing;
    var p := s.pool;
    ReleaseStart(p, s.rank, d);
    var q := Withdrawn(p, d);
    SameDoms(p, d);
    GivenOk(q, s.rank, d);
    forall x | 0 <= x < |p.doms|
      ensures Tracked(Step(s, Give(d)), x)
    {
      assert Tracked(s, x);
      DropFrees(q, s.rank, d, x);
    }
  }

  lemma SameDoms(p: Pool, d: int)
    ensures Withdrawn(p, d).doms == p.doms
  {
  }

  lemma GivenOk(p: Pool, rank: seq<nat>, d: int)
    requires Ranked(p, rank) && -1 <= d < |p.doms| && Giving(p, d)
    ensures PoolOk(Drop(p, rank, d)) && Ranked(Drop(p, rank, d), rank)
  {
    hide PoolOk, Ranked;
    if Owing(p, d) {
      DropOk(p, rank, d);
    } else if p.doms[d].immortal {
      ReleaseEnd(p, rank, d);
    } else {
      ReleaseStep(p, rank, d);
      FreedOk(p, d);
      DropOk(Freed(p, d), rank, p.doms[d].donor);
    }
  }

  lemma MakeInv(s: Sys, donor: nat, passedOn: bool, handed: bool)
    requires Inv(s) && Live(s.pool, donor) && Next(s.pool) >= 0
    ensures Inv(Made(s, donor, passedOn, handed))
  {
    hide PoolOk, Ranked, Borrowers, Owing;
    var p, d, o := s.pool, Next(s.pool), Owner(s.pool, donor, passedOn);
    Bounds(p);
    RankedAll(p, s.rank);
    ClaimedOk(p, true, s.rank);
    OwnerOk(p, donor, passedOn, s.rank);
    var q := Claimed(p, true);
    ClaimedAnew(p, true, d);
    if handed {
      LentOk(q, d, o, s.rank);
    } else {
      NoRefs(q, s.rank, d);
      FreedOk(q, d);
      GivenOk(q, s.rank, d);
    }
    var t := Made(s, donor, passedOn, handed);
    forall x | 0 <= x < |t.pool.doms|
      ensures Tracked(t, x)
    {
      assert Tracked(s, x) && Tracked(s, donor);
      ClaimedAnew(p, true, x);
    }
  }

  lemma FreshInv(s: Sys, fits: bool)
    requires Inv(s) && Next(s.pool) >= 0
    ensures Inv(Step(s, Fresh(fits)))
  {
    hide PoolOk, Ranked;
    var p, d := s.pool, Next(s.pool);
    ClaimedOk(p, true, s.rank);
    ClaimedOk(p, false, s.rank);
    RefusedOk(p, s.rank);
    var t := Step(s, Fresh(fits));
    forall x | 0 <= x < |t.pool.doms|
      ensures Tracked(t, x)
    {
      assert Tracked(s, x);
      ClaimedAnew(p, fits, x);
    }
  }

  lemma BackInv(s: Sys, d: nat)
    requires Inv(s) && d < |s.pool.doms|
    ensures Inv(Step(s, GiveBack(d)))
  {
    hide PoolOk, Ranked;
    var t := Step(s, GiveBack(d));
    if s.pool.doms[d].donor >= 0 {
      ReturnedOk(s.pool, d, s.rank);
      forall x | 0 <= x < |t.pool.doms|
        ensures Tracked(t, x)
      {
        assert Tracked(s, x);
      }
    }
  }

  lemma StepInv(s: Sys, op: Op)
    requires Inv(s) && Can(s, op)
    ensures Inv(Step(s, op))
  {
    hide PoolOk, Ranked, Tracked, Drop, Made;
    match op
    case Take(d) => TakeInv(s, d);
    case Give(d) => GiveInv(s, d);
    case Fresh(fits) =>
      if Next(s.pool) >= 0 {
        FreshInv(s, fits);
      }
    case Make(donor, passedOn, fits, handed) =>
      if Next(s.pool) >= 0 {
        FreshInv(s, false);
        MakeInv(s, donor, passedOn, handed);
      }
    case GiveBack(d) => BackInv(s, d);
    case Retire(d) => RetireInv(s, d);
  }

  lemma TakeInv(s: Sys, d: nat)
    requires Inv(s) && Live(s.pool, d)
    ensures Inv(Step(s, Take(d)))
  {
    hide PoolOk, Ranked;
    RefOk(s.pool, d, s.rank);
    var t := Step(s, Take(d));
    forall x | 0 <= x < |t.pool.doms|
      ensures Tracked(t, x)
    {
      assert Tracked(s, x);
    }
  }

  lemma RetireInv(s: Sys, d: nat)
    requires Inv(s) && d < |s.pool.doms|
    ensures Inv(Step(s, Retire(d)))
  {
    hide PoolOk, Ranked;
    AgedOk(s.pool, d, s.rank);
    var t := Step(s, Retire(d));
    forall x | 0 <= x < |t.pool.doms|
      ensures Tracked(t, x)
    {
      assert Tracked(s, x);
    }
  }

  // ---- Runs ----

  ghost predicate CanAll(s: Sys, ops: seq<Op>)
    requires Inv(s)
    decreases |ops|
  {
    ops != [] ==>
      && Can(s, ops[0])
      && (StepInv(s, ops[0]); CanAll(Step(s, ops[0]), ops[1..]))
  }

  ghost function Run(s: Sys, ops: seq<Op>): (t: Sys)
    requires Inv(s) && CanAll(s, ops)
    ensures Inv(t)
    decreases |ops|
  {
    if ops == [] then s
    else
      StepInv(s, ops[0]);
      Run(Step(s, ops[0]), ops[1..])
  }

  /** In every run each domain counts exactly what refers to it, borrows through no cycle, borrows from
      the domain that reserved the memory, whoever passed it on, and that domain is not free. */
  lemma EveryRun(size: nat, ops: seq<Op>, d: nat, k: nat)
    requires size >= FIRST && d < size && k > 0 && CanAll(Boot(size), ops)
    ensures var s := Run(Boot(size), ops);
            && |s.pool.doms| == |s.pool.outside| == |s.from| == size
            && (var dom := s.pool.doms[d];
                && (!dom.immortal ==> dom.refcount == s.pool.outside[d] + |Borrowers(s.pool, d)|)
                && Up(s.pool, d, k) != d
                && (dom.donor >= 0 ==> dom.donor == s.from[d] && Live(s.pool, dom.donor)))
  {
    hide PoolOk, Ranked, Borrowers;
    var s := Run(Boot(size), ops);
    AgesGrow(Boot(size), ops, d);
    Bounds(s.pool);
    assert Tracked(s, d);
    NoCycle(s.pool, s.rank, d, k);
    Counted(s.pool, d);
    if s.pool.doms[d].donor >= 0 {
      DonorHeld(s.pool, d);
    }
  }

  lemma Counted(p: Pool, d: nat)
    requires PoolOk(p) && d < |p.doms|
    ensures !p.doms[d].immortal ==> p.doms[d].refcount == p.outside[d] + |Borrowers(p, d)|
  {
    assert DomOk(p, d, -1);
  }

  // ---- Handles ----

  const HANDLE_INDICES: nat := 0x1_0000

  /** A domain's handle: its slot below its generation's low 16 bits. */
  function Handle(p: Pool, d: nat): nat
    requires d < |p.doms|
  {
    p.doms[d].generation % HANDLE_INDICES * HANDLE_INDICES + d
  }

  /** The domain a handle names, or -1: its slot's generation is another, or nothing refers to it. */
  function Resolve(p: Pool, handle: nat): int {
    var d := handle % HANDLE_INDICES;
    if d >= |p.doms| || p.doms[d].generation % HANDLE_INDICES != handle / HANDLE_INDICES % HANDLE_INDICES then -1
    else if p.doms[d].refcount == 0 && !p.doms[d].immortal then -1 else d
  }

  lemma Unpacked(gen: nat, d: nat)
    requires d < HANDLE_INDICES
    ensures var h := gen % HANDLE_INDICES * HANDLE_INDICES + d;
            h % HANDLE_INDICES == d && h / HANDLE_INDICES % HANDLE_INDICES == gen % HANDLE_INDICES
  {
    var h := gen % HANDLE_INDICES * HANDLE_INDICES + d;
    DivModUnique(HANDLE_INDICES, h, gen % HANDLE_INDICES, d);
  }

  /** Between any two points of any run a handle names its domain exactly while the domain has been
      given up for good a multiple of 2^16 times since, and is referred to; it never names another. */
  lemma HandleNames(s: Sys, ops: seq<Op>, d: nat)
    requires Inv(s) && CanAll(s, ops) && d < |s.pool.doms| <= HANDLE_INDICES
    ensures |Run(s, ops).ages| == |s.ages| == |s.pool.doms| && Run(s, ops).ages[d] >= s.ages[d]
    ensures |Run(s, ops).pool.doms| == |s.pool.doms|
    ensures var t, r := Run(s, ops), Resolve(Run(s, ops).pool, Handle(s.pool, d));
            && (r == -1 || r == d)
            && (r == d <==>
                  && (t.ages[d] - s.ages[d]) % HANDLE_INDICES == 0
                  && (t.pool.doms[d].immortal || t.pool.doms[d].refcount > 0))
  {
    hide PoolOk, Ranked, Run, CanAll;
    AgesGrow(s, ops, d);
    var t := Run(s, ops);
    assert Tracked(s, d) && Tracked(t, d);
    Unpacked(s.ages[d], d);
    SameLow(s.ages[d], t.ages[d]);
  }

  lemma SameLow(a: nat, b: nat)
    requires a <= b
    ensures a % HANDLE_INDICES == b % HANDLE_INDICES <==> (b - a) % HANDLE_INDICES == 0
  {
    var m := HANDLE_INDICES;
    assert b - a == m * (b / m - a / m) + (b % m - a % m);
    if b % m >= a % m {
      DivModUnique(m, b - a, b / m - a / m, b % m - a % m);
    } else {
      DivModUnique(m, b - a, b / m - a / m - 1, m + b % m - a % m);
    }
  }

  lemma {:induction false} AgesGrow(s: Sys, ops: seq<Op>, d: nat)
    requires Inv(s) && CanAll(s, ops) && d < |s.pool.doms|
    ensures |Run(s, ops).pool.doms| == |Run(s, ops).ages| == |s.ages| == |s.pool.doms| && Run(s, ops).ages[d] >= s.ages[d]
    decreases |ops|
  {
    hide Inv, Step, Can;
    StepSize(s, d);
    if ops != [] {
      StepInv(s, ops[0]);
      StepAges(s, ops[0], d);
      AgesGrow(Step(s, ops[0]), ops[1..], d);
    }
  }

  lemma StepSize(s: Sys, d: nat)
    requires Inv(s) && d < |s.pool.doms|
    ensures |s.ages| == |s.pool.doms|
  {
  }

  /** Only the slot a new domain takes, and a domain whose handles are retired, ages. */
  lemma StepAges(s: Sys, op: Op, d: nat)
    requires Inv(s) && Can(s, op) && d < |s.pool.doms|
    ensures |Step(s, op).pool.doms| == |Step(s, op).ages| == |s.ages|
    ensures Step(s, op).ages[d] == s.ages[d] || Step(s, op).ages[d] == s.ages[d] + 1
    ensures Step(s, op).ages[d] > s.ages[d] ==>
              (op == Retire(d) && !s.pool.doms[d].immortal) || ((op.Fresh? || op.Make?) && d == Next(s.pool))
  {
    hide PoolOk, Ranked;
    StepInv(s, op);
    if Next(s.pool) >= 0 {
      ClaimedOk(s.pool, true, s.rank);
    }
  }
}
