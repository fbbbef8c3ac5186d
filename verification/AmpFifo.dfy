/** One call ring between two well-behaved nodes, step by step: whatever the interleaving of the
    producer's loads and stores with the consumer's takes and releases, the ring is a queue with
    holds. */
module AmpFifo {
  import opened Modular
  import P = AmpPair

  /** What a slot holds: header and payload, as one value. */
  datatype Msg = Msg(len: nat, port: nat, thread: U32, sequence: U32, payload: seq<int>)

  /** Where the producer is: the tail it loaded, with how much was freed then; a slot it is storing
      to; a slot stored whole and not yet published. */
  datatype Producer = Ready | Loaded(msg: Msg, tail: U32, freed: nat) | Storing(msg: Msg) | Stored(msg: Msg)

  /** Where the consumer is: the head it loaded, with how much was published then. */
  datatype Consumer = Resting | Saw(head: U32, published: nat)

  /** The ring, both ends' positions, and what was published, taken and freed since `boot`. */
  datatype System = System(
    boot: U32,
    head: U32,
    tail: U32,
    slots: seq<Msg>,
    producer: Producer,
    taken: U32,
    flags: seq<bool>,
    consumer: Consumer,
    published: seq<Msg>,
    took: seq<Msg>,
    freed: nat)

  datatype Action =
    | LoadTail(msg: Msg)
    | CheckRoom
    | StorePart(torn: Msg)
    | StoreAll
    | Publish
    | LoadHead
    | TakeNext
    | ReleaseSlot(slot: nat)

  function Next(n: nat, s: System, a: Action): System
    requires Slots(n) && |s.slots| == n
  {
    match a
    case LoadTail(m) => if s.producer.Ready? then s.(producer := Loaded(m, s.tail, s.freed)) else s
    case CheckRoom =>
      if !s.producer.Loaded? then s
      else if Sub(s.head, s.producer.tail) < n then s.(producer := Storing(s.producer.msg))
      else s.(producer := Ready)
    case StorePart(torn) => if s.producer.Storing? then s.(slots := s.slots[Mask(n, s.head) := torn]) else s
    case StoreAll =>
      if s.producer.Storing? then
        s.(slots := s.slots[Mask(n, s.head) := s.producer.msg], producer := Stored(s.producer.msg))
      else s
    case Publish =>
      if s.producer.Stored? then
        s.(head := Add(s.head, 1), published := s.published + [s.producer.msg], producer := Ready)
      else s
    case LoadHead => if s.consumer.Resting? then s.(consumer := Saw(s.head, |s.published|)) else s
    case TakeNext =>
      if s.consumer.Resting? then s
      else
        var h := s.consumer.head;
        if Sub(h, s.tail) > n || Sub(h, s.taken) > n || h == s.taken then s.(consumer := Resting)
        else
          s.(took := s.took + [s.slots[Mask(n, s.taken)]], taken := Add(s.taken, 1), flags := s.flags + [false],
             consumer := Resting)
    case ReleaseSlot(slot) =>
      var off := Off(n, slot, s.tail);
      if off >= |s.flags| then s
      else
        var flags := s.flags[off := true];
        var k := P.Lead(flags);
        s.(tail := Add(s.tail, k), flags := flags[k..], freed := s.freed + k)
  }

  ghost predicate ProducerOk(n: nat, s: System)
    requires Slots(n) && |s.slots| == n
  {
    match s.producer
    case Ready => true
    case Loaded(_, t, f) => t == Add(s.boot, f) && f <= s.freed && |s.published| <= f + n
    case Storing(_) => |s.published| < s.freed + n
    case Stored(m) => |s.published| < s.freed + n && s.slots[Mask(n, s.boot + |s.published|)] == m
  }

  ghost predicate ConsumerOk(s: System) {
    s.consumer.Saw? ==>
      s.consumer.head == Add(s.boot, s.consumer.published) && s.freed + |s.flags| <= s.consumer.published <= |s.published|
  }

  ghost predicate FifoInv(n: nat, s: System) {
    && Slots(n) && |s.slots| == n
    && s.freed + |s.flags| <= |s.published| <= s.freed + n
    && s.head == Add(s.boot, |s.published|) && s.tail == Add(s.boot, s.freed) && s.taken == Add(s.boot, s.freed + |s.flags|)
    && s.took == s.published[..s.freed + |s.flags|]
    && (forall j: nat :: s.freed <= j < |s.published| ==> s.slots[Mask(n, s.boot + j)] == s.published[j])
    && ProducerOk(n, s) && ConsumerOk(s)
  }

  lemma Distance(boot: U32, i: nat, j: nat)
    requires i <= j <= i + 32
    ensures Sub(Add(boot, j), Add(boot, i)) == j - i
  {
  }

  /** A store to the head's slot touches no message published and not freed. */
  lemma StoreKeeps(n: nat, s: System, m: Msg)
    requires FifoInv(n, s) && |s.published| < s.freed + n
    ensures Mask(n, s.head) == Mask(n, s.boot + |s.published|)
    ensures forall j: nat :: s.freed <= j < |s.published| ==>
            s.slots[Mask(n, s.head) := m][Mask(n, s.boot + j)] == s.published[j]
  {
    MaskAdd(n, s.boot, |s.published|);
    forall j: nat | s.freed <= j < |s.published|
      ensures s.slots[Mask(n, s.head) := m][Mask(n, s.boot + j)] == s.published[j]
    {
      MaskApart(n, s.boot, j, |s.published|);
    }
  }

  lemma SlotsBound(n: nat)
    requires Slots(n)
    ensures 0 < n <= 32
  {
  }

  lemma LoadAndCheck(n: nat, s: System, a: Action)
    requires FifoInv(n, s) && (a.LoadTail? || a.CheckRoom?)
    ensures FifoInv(n, Next(n, s, a))
  {
    hide Add, Sub, Mask, Slots;
    SlotsBound(n);
    if s.producer.Loaded? {
      Distance(s.boot, s.producer.freed, |s.published|);
    }
  }

  lemma StoreStep(n: nat, s: System, a: Action)
    requires FifoInv(n, s) && (a.StorePart? || a.StoreAll?)
    ensures FifoInv(n, Next(n, s, a))
  {
    hide Add, Sub, Mask, Slots;
    if s.producer.Storing? {
      StoreKeeps(n, s, if a.StorePart? then a.torn else s.producer.msg);
    }
    SlotsBound(n);
  }

  lemma PublishStep(n: nat, s: System)
    requires FifoInv(n, s)
    ensures FifoInv(n, Next(n, s, Publish))
  {
    hide Add, Sub, Mask, Slots;
    AddAdd(s.boot, |s.published|, 1);
    SlotsBound(n);
    var s' := Next(n, s, Publish);
    if s.producer.Stored? {
      assert s'.published[..s.freed + |s.flags|] == s.published[..s.freed + |s.flags|];
    }
  }

  /** A take believes the head it loaded, and what it reads is the next message published. */
  lemma TakeInOrder(n: nat, s: System)
    requires FifoInv(n, s) && s.consumer.Saw?
    ensures Sub(s.consumer.head, s.tail) <= n && Sub(s.consumer.head, s.taken) <= n
    ensures s.consumer.head != s.taken ==> |s.took| < |s.published| && s.slots[Mask(n, s.taken)] == s.published[|s.took|]
  {
    hide Add, Sub, Mask, Slots;
    SlotsBound(n);
    var k := s.freed + |s.flags|;
    Distance(s.boot, s.freed, s.consumer.published);
    Distance(s.boot, k, s.consumer.published);
    MaskAdd(n, s.boot, k);
    if s.consumer.head != s.taken {
      assert s.slots[Mask(n, s.boot + k)] == s.published[k];
    }
  }

  lemma TakeStep(n: nat, s: System)
    requires FifoInv(n, s)
    ensures FifoInv(n, Next(n, s, TakeNext))
  {
    hide Add, Sub, Slots, Mask;
    var k := s.freed + |s.flags|;
    AddAdd(s.boot, k, 1);
    SlotsBound(n);
    var s' := Next(n, s, TakeNext);
    if s.consumer.Saw? {
      TakeInOrder(n, s);
      if s.consumer.head != s.taken {
        assert |s.took| == k < |s.published|;
        assert s'.took == s.published[..k] + [s.published[k]] == s.published[..k + 1];
        assert s'.freed + |s'.flags| == k + 1;
      }
    }
  }

  lemma ReleaseStep(n: nat, s: System, slot: nat)
    requires FifoInv(n, s)
    ensures FifoInv(n, Next(n, s, ReleaseSlot(slot)))
  {
    hide Off, Add, Sub, P.Lead, Mask, Slots;
    var off := Off(n, slot, s.tail);
    if off < |s.flags| {
      AddAdd(s.boot, s.freed, P.Lead(s.flags[off := true]));
    }
    SlotsBound(n);
  }

  function Run(n: nat, s: System, actions: seq<Action>): System
    requires FifoInv(n, s)
    decreases |actions|
  {
    if actions == [] then s else NextInv(n, s, actions[0]); Run(n, Next(n, s, actions[0]), actions[1..])
  }

  lemma NextInv(n: nat, s: System, a: Action)
    requires FifoInv(n, s)
    ensures FifoInv(n, Next(n, s, a))
    ensures s.published <= Next(n, s, a).published && s.took <= Next(n, s, a).took
  {
    match a
    case LoadTail(_) => LoadAndCheck(n, s, a);
    case CheckRoom => LoadAndCheck(n, s, a);
    case StorePart(_) => StoreStep(n, s, a);
    case StoreAll => StoreStep(n, s, a);
    case Publish => PublishStep(n, s);
    case LoadHead => LoadHeadStep(n, s);
    case TakeNext => TakeStep(n, s);
    case ReleaseSlot(slot) => ReleaseStep(n, s, slot);
    hide FifoInv, Add, Sub, Off;
  }

  lemma LoadHeadStep(n: nat, s: System)
    requires FifoInv(n, s)
    ensures FifoInv(n, Next(n, s, LoadHead))
  {
    hide Add, Sub, Mask;
  }

  /** In every run what was taken is what was published, in order and exactly once, and neither is
      ever rewritten. */
  lemma {:induction false} TakenIsPrefix(n: nat, s: System, actions: seq<Action>)
    requires FifoInv(n, s)
    ensures var z := Run(n, s, actions);
            FifoInv(n, z) && z.took <= z.published && s.published <= z.published && s.took <= z.took
    decreases |actions|
  {
    if actions != [] {
      NextInv(n, s, actions[0]);
      TakenIsPrefix(n, Next(n, s, actions[0]), actions[1..]);
    }
  }

  /** Both ends at the index the ring is found at, nothing published. */
  function Boot(boot: U32, slots: seq<Msg>): System {
    System(boot, boot, boot, slots, Ready, boot, [], Resting, [], [], 0)
  }

  lemma BootInv(n: nat, boot: U32, slots: seq<Msg>)
    requires Slots(n) && |slots| == n
    ensures FifoInv(n, Boot(boot, slots))
  {
  }

  /** A run goes on from where any part of it ends; what is freed stays freed. */
  lemma {:induction false} RunOn(n: nat, s: System, actions: seq<Action>, k: nat)
    requires FifoInv(n, s) && k <= |actions|
    ensures var z := Run(n, s, actions[..k]);
            && FifoInv(n, z) && z.boot == s.boot && s.took <= z.took
            && z.freed <= Run(n, s, actions).freed
    decreases |actions|
  {
    hide FifoInv, Next, Mask;
    SlotsOf(n, s);
    if actions != [] {
      NextInv(n, s, actions[0]);
      FreedRises(n, s, actions[0]);
      RunOn(n, Next(n, s, actions[0]), actions[1..], if k > 0 then k - 1 else 0);
      if k > 0 {
        assert actions[..k][0] == actions[0] && actions[..k][1..] == actions[1..][..k - 1];
      } else {
        assert actions[1..][..0] == [];
      }
    }
  }

  lemma FreedRises(n: nat, s: System, a: Action)
    requires FifoInv(n, s)
    ensures s.freed <= Next(n, s, a).freed && Next(n, s, a).boot == s.boot
  {
    hide FifoInv, Add, Sub, Off, Mask;
    SlotsOf(n, s);
  }

  lemma SlotsOf(n: nat, s: System)
    requires FifoInv(n, s)
    ensures Slots(n) && |s.slots| == n
  {
  }

  /** A held slot keeps its message until it is released, in whatever order releases happen: a message
      taken and not freed by a run's end sat unchanged in its slot at every state of the run. */
  lemma HeldKeeps(n: nat, s: System, actions: seq<Action>, k: nat, j: nat)
    requires FifoInv(n, s) && k <= |actions| && j < |s.took| && Run(n, s, actions).freed <= j
    ensures var z := Run(n, s, actions[..k]); |z.slots| == n && z.slots[Mask(n, s.boot + j)] == s.took[j]
  {
    hide Run, Mask;
    RunOn(n, s, actions, k);
  }
}
