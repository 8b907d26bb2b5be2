/**
 The single-producer single-consumer ring buffer. The two threads are a state machine whose steps are the
 atomic accesses of try_push and try_pop; any interleaving is allowed, and an index load of the other side
 may return any value between the last one seen and the current one. The class at the end is the source's code.
 */
module RingBuffer {
  import opened Domain
  import opened BitMask

  /** Where the producer stands inside try_push, with its local variables. */
  datatype Producer<T> =
    | Idle
    | HasHead(item: T, head: nat)
    | HasBoth(item: T, head: nat, tail: nat)
    | Wrote(item: T, head: nat)

  /** Where the consumer stands inside try_pop. */
  datatype Consumer<T> =
    | Resting
    | HasTail(tail: nat)
    | SawHead(tail: nat, head: nat)
    | Took(item: T, tail: nat)

  /** Shared memory, both threads, and history: every value published and every value popped so far, and the
      last index each side has seen of the other, as unbounded counts. */
  datatype Ring<T> = Ring(
    log: nat, buffer: seq<T>, head: nat, tail: nat,
    producer: Producer<T>, consumer: Consumer<T>,
    pushed: seq<T>, popped: seq<T>, seenTail: nat, seenHead: nat)
  {
    function Capacity(): nat {
      Pow2(log)
    }
  }

  datatype Step<T> =
    | LoadHead(item: T)
    | LoadTail(seen: nat)
    | ReportFull
    | WriteSlot
    | StoreHead
    | PopLoadTail
    | PopLoadHead(seen: nat)
    | ReportEmpty
    | TakeSlot(husk: T)
    | StoreTail
  {
    predicate ByProducer() {
      LoadHead? || LoadTail? || ReportFull? || WriteSlot? || StoreHead?
    }
  }

  predicate LooksFull<T>(r: Ring<T>)
    requires r.producer.HasBoth?
  {
    Wrap(r.producer.head - r.producer.tail) == r.Capacity()
  }

  predicate LooksEmpty<T>(r: Ring<T>)
    requires r.consumer.SawHead?
  {
    r.consumer.tail == r.consumer.head
  }

  predicate Enabled<T>(r: Ring<T>, s: Step<T>) {
    && |r.buffer| == r.Capacity()
    && match s
       case LoadHead(_) => r.producer.Idle?
       case LoadTail(seen) => r.producer.HasHead? && r.seenTail <= seen <= |r.popped|
       case ReportFull => r.producer.HasBoth? && LooksFull(r)
       case WriteSlot => r.producer.HasBoth? && !LooksFull(r) && Slot(r.producer.head, r.Capacity()) < |r.buffer|
       case StoreHead => r.producer.Wrote?
       case PopLoadTail => r.consumer.Resting?
       case PopLoadHead(seen) => r.consumer.HasTail? && r.seenHead <= seen <= |r.pushed|
       case ReportEmpty => r.consumer.SawHead? && LooksEmpty(r)
       case TakeSlot(_) => r.consumer.SawHead? && !LooksEmpty(r) && Slot(r.consumer.tail, r.Capacity()) < |r.buffer|
       case StoreTail => r.consumer.Took?
  }

  /** One atomic step. Moving a value out leaves some husk behind in the slot. */
  function Next<T>(r: Ring<T>, s: Step<T>): Ring<T>
    requires Enabled(r, s)
  {
    match s
    case LoadHead(item) => r.(producer := HasHead(item, r.head))
    case LoadTail(seen) => r.(producer := HasBoth(r.producer.item, r.producer.head, Wrap(seen)), seenTail := seen)
    case ReportFull => r.(producer := Idle)
    case WriteSlot => r.(
      buffer := r.buffer[Slot(r.producer.head, r.Capacity()) := r.producer.item],
      producer := Wrote(r.producer.item, r.producer.head))
    case StoreHead => r.(
      head := Wrap(r.producer.head + 1), pushed := r.pushed + [r.producer.item], producer := Idle)
    case PopLoadTail => r.(consumer := HasTail(r.tail))
    case PopLoadHead(seen) => r.(consumer := SawHead(r.consumer.tail, Wrap(seen)), seenHead := seen)
    case ReportEmpty => r.(consumer := Resting)
    case TakeSlot(husk) =>
      var slot := Slot(r.consumer.tail, r.Capacity());
      r.(buffer := r.buffer[slot := husk], consumer := Took(r.buffer[slot], r.consumer.tail))
    case StoreTail => r.(
      tail := Wrap(r.consumer.tail + 1), popped := r.popped + [r.consumer.item], consumer := Resting)
  }

  predicate Schedule<T>(r: Ring<T>, steps: seq<Step<T>>)
    decreases |steps|
  {
    steps == [] || (Enabled(r, steps[0]) && Schedule(Next(r, steps[0]), steps[1..]))
  }

  function Final<T>(r: Ring<T>, steps: seq<Step<T>>): Ring<T>
    requires Schedule(r, steps)
    decreases |steps|
  {
    if steps == [] then r else Final(Next(r, steps[0]), steps[1..])
  }

  ghost predicate Fresh<T>(r: Ring<T>) {
    && r.log <= 63 && |r.buffer| == r.Capacity()
    && r == Ring(r.log, r.buffer, 0, 0, Idle, Resting, [], [], 0, 0)
  }

  // ---- The invariant --------------------------------------------------------------------------

  /** The slot of the i-th value ever pushed. */
  function At<T>(r: Ring<T>, i: nat): nat {
    i % r.Capacity()
  }

  ghost predicate CountersOk<T>(r: Ring<T>) {
    && r.log <= 63 && |r.buffer| == r.Capacity()
    && |r.popped| <= |r.pushed| <= |r.popped| + r.Capacity()
    && r.head == Wrap(|r.pushed|) && r.tail == Wrap(|r.popped|)
    && r.seenTail <= |r.popped| && |r.pushed| <= r.seenTail + r.Capacity()
    && |r.popped| <= r.seenHead <= |r.pushed|
  }

  ghost predicate ProducerOk<T>(r: Ring<T>)
    requires CountersOk(r)
  {
    match r.producer
    case Idle => true
    case HasHead(_, head) => head == r.head
    case HasBoth(_, head, tail) => head == r.head && tail == Wrap(r.seenTail)
    case Wrote(item, head) =>
      head == r.head && |r.pushed| < r.seenTail + r.Capacity() && r.buffer[At(r, |r.pushed|)] == item
  }

  ghost predicate ConsumerOk<T>(r: Ring<T>)
    requires CountersOk(r)
  {
    match r.consumer
    case Resting => true
    case HasTail(tail) => tail == r.tail
    case SawHead(tail, head) => tail == r.tail && head == Wrap(r.seenHead)
    case Took(item, tail) => tail == r.tail && |r.popped| < r.seenHead && item == r.pushed[|r.popped|]
  }

  /** Values published and not yet taken are in their slots. */
  ghost predicate ContentsOk<T>(r: Ring<T>)
    requires CountersOk(r)
  {
    forall i :: |r.popped| + (if r.consumer.Took? then 1 else 0) <= i < |r.pushed| ==> r.buffer[At(r, i)] == r.pushed[i]
  }

  ghost predicate Inv<T>(r: Ring<T>) {
    && CountersOk(r) && ProducerOk(r) && ConsumerOk(r) && ContentsOk(r)
    && r.popped == r.pushed[..|r.popped|]
  }

  lemma CapacityFits<T>(r: Ring<T>)
    requires r.log <= 63
    ensures r.Capacity() < TWO64
  {
    var co := CapacityDividesWord(r.log);
  }

  /** head - tail == Capacity on wrapped counters is exact: it holds iff Capacity values looked outstanding. */
  lemma FullTestIsExact<T>(r: Ring<T>)
    requires Inv(r) && r.producer.HasBoth?
    ensures LooksFull(r) <==> |r.pushed| == r.seenTail + r.Capacity()
  {
    CapacityFits(r);
    WrappedDistance(|r.pushed|, r.seenTail);
  }

  /** tail == head on wrapped counters is exact: it holds iff no unread value was visible. */
  lemma EmptyTestIsExact<T>(r: Ring<T>)
    requires Inv(r) && r.consumer.SawHead?
    ensures LooksEmpty(r) <==> |r.popped| == r.seenHead
  {
    CapacityFits(r);
    WrappedDistance(r.seenHead, |r.popped|);
    assert Wrap(0) == 0;
  }

  // ---- Every step keeps it --------------------------------------------------------------------

  lemma WriteSlotKeeps<T>(r: Ring<T>)
    requires Inv(r) && Enabled(r, WriteSlot)
    ensures Inv(Next(r, WriteSlot))
  {
    var r' := Next(r, WriteSlot);
    var h := |r.pushed|;
    FullTestIsExact(r);
    SlotOfWrapped(h, r.log);
    forall i | |r.popped| <= i < h
      ensures At(r, i) != At(r, h)
    {
      ModDistinct(i, h, r.Capacity());
    }
    assert CountersOk(r') && ProducerOk(r') && ContentsOk(r');
  }

  lemma TakeSlotKeeps<T>(r: Ring<T>, husk: T)
    requires Inv(r) && Enabled(r, TakeSlot(husk))
    ensures Inv(Next(r, TakeSlot(husk)))
  {
    var r' := Next(r, TakeSlot(husk));
    var t := |r.popped|;
    EmptyTestIsExact(r);
    SlotOfWrapped(t, r.log);
    forall i | t < i < t + r.Capacity()
      ensures At(r, i) != At(r, t)
    {
      ModDistinct(t, i, r.Capacity());
    }
    assert r.buffer[At(r, t)] == r.pushed[t];
    assert CountersOk(r') && ConsumerOk(r') && ProducerOk(r') && ContentsOk(r');
  }

  lemma StoreHeadKeeps<T>(r: Ring<T>)
    requires Inv(r) && Enabled(r, StoreHead)
    ensures Inv(Next(r, StoreHead))
  {
    var r' := Next(r, StoreHead);
    WrappedSuccessor(|r.pushed|);
    assert CountersOk(r') && ContentsOk(r') && ConsumerOk(r');
  }

  lemma StoreTailKeeps<T>(r: Ring<T>)
    requires Inv(r) && Enabled(r, StoreTail)
    ensures Inv(Next(r, StoreTail))
  {
    var r' := Next(r, StoreTail);
    WrappedSuccessor(|r.popped|);
    assert CountersOk(r') && ContentsOk(r') && ProducerOk(r');
  }

  lemma StepKeeps<T>(r: Ring<T>, s: Step<T>)
    requires Inv(r) && Enabled(r, s)
    ensures Inv(Next(r, s))
  {
    match s
    case WriteSlot => WriteSlotKeeps(r);
    case TakeSlot(husk) => TakeSlotKeeps(r, husk);
    case StoreHead => StoreHeadKeeps(r);
    case StoreTail => StoreTailKeeps(r);
    case _ =>
  }

  lemma {:induction false} ScheduleKeeps<T>(r: Ring<T>, steps: seq<Step<T>>)
    requires Inv(r) && Schedule(r, steps)
    ensures Inv(Final(r, steps))
    decreases |steps|
  {
    if steps != [] {
      StepKeeps(r, steps[0]);
      ScheduleKeeps(Next(r, steps[0]), steps[1..]);
    }
  }

  // ---- What the threads may rely on -----------------------------------------------------------

  /** Both threads are about to touch the buffer. */
  predicate BothTouch<T>(r: Ring<T>) {
    && r.producer.HasBoth? && !LooksFull(r)
    && r.consumer.SawHead? && !LooksEmpty(r)
  }

  /** Under every interleaving, with stale index loads and wrapped counters: the values popped are a prefix of
      the values pushed, at most Capacity are outstanding, and the two threads never touch one slot at once. */
  lemma FifoUnderEveryInterleaving<T>(init: Ring<T>, steps: seq<Step<T>>)
    requires Fresh(init) && Schedule(init, steps)
    ensures var r := Final(init, steps);
            && r.popped <= r.pushed
            && |r.pushed| <= |r.popped| + r.Capacity()
            && (BothTouch(r) ==> Slot(r.producer.head, r.Capacity()) != Slot(r.consumer.tail, r.Capacity()))
  {
    assert Inv(init);
    ScheduleKeeps(init, steps);
    NoRace(Final(init, steps));
  }

  lemma NoRace<T>(r: Ring<T>)
    requires Inv(r)
    ensures BothTouch(r) ==> Slot(r.producer.head, r.Capacity()) != Slot(r.consumer.tail, r.Capacity())
  {
    if BothTouch(r) {
      FullTestIsExact(r);
      EmptyTestIsExact(r);
      SlotOfWrapped(|r.pushed|, r.log);
      SlotOfWrapped(|r.popped|, r.log);
      ModDistinct(|r.popped|, |r.pushed|, r.Capacity());
    }
  }

  /** No slot is overwritten while it holds an unread value. */
  lemma WriteHitsFreeSlot<T>(r: Ring<T>, i: nat)
    requires Inv(r) && Enabled(r, WriteSlot) && |r.popped| <= i < |r.pushed|
    ensures Slot(r.producer.head, r.Capacity()) != Slot(Wrap(i), r.Capacity())
  {
    FullTestIsExact(r);
    SlotOfWrapped(|r.pushed|, r.log);
    SlotOfWrapped(i, r.log);
    ModDistinct(i, |r.pushed|, r.Capacity());
  }

  /** The queue a client sees. */
  function Queue<T>(r: Ring<T>): seq<T>
    requires |r.popped| <= |r.pushed|
  {
    r.pushed[|r.popped|..]
  }

  /** Linearization: storing head enqueues the pushed item, storing tail dequeues the front, and every other
      step leaves the queue alone. */
  lemma StepRefinesQueue<T>(r: Ring<T>, s: Step<T>)
    requires Inv(r) && Enabled(r, s)
    ensures Inv(Next(r, s))
    ensures Queue(Next(r, s)) ==
      match s
      case StoreHead => Queue(r) + [r.producer.item]
      case StoreTail => Queue(r)[1..]
      case _ => Queue(r)
    ensures s.StoreTail? ==> Queue(r) != [] && r.consumer.item == Queue(r)[0]
  {
    StepKeeps(r, s);
  }

  /** Neither thread can get stuck or leave the array: whatever the other does, the next access of try_push and
      of try_pop is always possible, so each call finishes within four of its own steps. */
  lemma BothThreadsWaitFree<T>(r: Ring<T>, item: T)
    requires Inv(r)
    ensures match r.producer
      case Idle => Enabled(r, LoadHead(item))
      case HasHead(_, _) => Enabled(r, LoadTail(r.seenTail)) && Enabled(r, LoadTail(|r.popped|))
      case HasBoth(_, _, _) => Enabled(r, ReportFull) || Enabled(r, WriteSlot)
      case Wrote(_, _) => Enabled(r, StoreHead)
    ensures match r.consumer
      case Resting => Enabled(r, PopLoadTail)
      case HasTail(_) => Enabled(r, PopLoadHead(r.seenHead)) && Enabled(r, PopLoadHead(|r.pushed|))
      case SawHead(_, _) => Enabled(r, ReportEmpty) || Enabled(r, TakeSlot(item))
      case Took(_, _) => Enabled(r, StoreTail)
  {
    SlotOfWrapped(|r.pushed|, r.log);
    SlotOfWrapped(|r.popped|, r.log);
  }

  // ---- The class ------------------------------------------------------------------------------

  ghost predicate Quiet<T>(r: Ring<T>) {
    Inv(r) && r.producer.Idle? && r.consumer.Resting? && r.seenTail == |r.popped| && r.seenHead == |r.pushed|
  }

  /** Between calls, what each side has seen of the other can be taken as current. */
  lemma Refresh<T>(r: Ring<T>)
    requires Inv(r) && r.producer.Idle? && r.consumer.Resting?
    ensures Quiet(r.(seenTail := |r.popped|, seenHead := |r.pushed|))
  {}

  /** The producer's steps run in one go from a quiet ring. */
  lemma SoloPush<T>(r: Ring<T>, item: T)
    requires Quiet(r)
    ensures Wrap(r.head - r.tail) == r.Capacity() <==> |Queue(r)| == r.Capacity()
    ensures |Queue(r)| < r.Capacity() ==>
      && Slot(r.head, r.Capacity()) < |r.buffer|
      && var r' := r.(buffer := r.buffer[Slot(r.head, r.Capacity()) := item], head := Wrap(r.head + 1),
                      pushed := r.pushed + [item], seenHead := |r.pushed| + 1);
      Quiet(r') && Queue(r') == Queue(r) + [item]
  {
    var r2 := SoloLoads(r, item);
    if |Queue(r)| < r.Capacity() {
      var r4 := SoloStores(r2);
      Refresh(r4);
    }
  }

  lemma SoloLoads<T>(r: Ring<T>, item: T) returns (r2: Ring<T>)
    requires Quiet(r)
    ensures r2 == r.(producer := HasBoth(item, r.head, r.tail)) && Inv(r2)
    ensures LooksFull(r2) <==> |Queue(r)| == r.Capacity()
  {
    r2 := Next(Next(r, LoadHead(item)), LoadTail(|r.popped|));
    FullTestIsExact(r2);
  }

  lemma SoloStores<T>(r2: Ring<T>) returns (r4: Ring<T>)
    requires Inv(r2) && r2.producer.HasBoth? && !LooksFull(r2)
    ensures Slot(r2.head, r2.Capacity()) < |r2.buffer|
    ensures r4 == r2.(buffer := r2.buffer[Slot(r2.head, r2.Capacity()) := r2.producer.item], head := Wrap(r2.head + 1),
                      producer := Idle, pushed := r2.pushed + [r2.producer.item])
    ensures Inv(r4)
  {
    SlotOfWrapped(|r2.pushed|, r2.log);
    StepKeeps(r2, WriteSlot);
    r4 := Next(r2, WriteSlot);
    StepKeeps(r4, StoreHead);
    r4 := Next(r4, StoreHead);
  }

  /** The consumer's steps run in one go; the slot keeps its old value as the husk. */
  lemma SoloPop<T>(r: Ring<T>)
    requires Quiet(r)
    ensures r.tail == r.head <==> Queue(r) == []
    ensures Queue(r) != [] ==>
      && Slot(r.tail, r.Capacity()) < |r.buffer|
      && var item := r.buffer[Slot(r.tail, r.Capacity())];
      var r' := r.(tail := Wrap(r.tail + 1), popped := r.popped + [item], seenTail := |r.popped| + 1);
      Quiet(r') && item == Queue(r)[0] && Queue(r') == Queue(r)[1..]
  {
    var r2 := SoloSees(r);
    if Queue(r) != [] {
      var r4 := SoloTakes(r2);
      Refresh(r4);
    }
  }

  lemma SoloSees<T>(r: Ring<T>) returns (r2: Ring<T>)
    requires Quiet(r)
    ensures r2 == r.(consumer := SawHead(r.tail, r.head)) && Inv(r2)
    ensures LooksEmpty(r2) <==> Queue(r) == []
  {
    r2 := Next(Next(r, PopLoadTail), PopLoadHead(|r.pushed|));
    EmptyTestIsExact(r2);
  }

  lemma SoloTakes<T>(r2: Ring<T>) returns (r4: Ring<T>)
    requires Inv(r2) && r2.consumer.SawHead? && !LooksEmpty(r2)
    ensures Slot(r2.tail, r2.Capacity()) < |r2.buffer| && |r2.popped| < |r2.pushed|
    ensures var item := r2.buffer[Slot(r2.tail, r2.Capacity())];
            && item == r2.pushed[|r2.popped|]
            && r4 == r2.(tail := Wrap(r2.tail + 1), consumer := Resting, popped := r2.popped + [item])
    ensures Inv(r4)
  {
    SlotOfWrapped(|r2.popped|, r2.log);
    EmptyTestIsExact(r2);
    var slot := Slot(r2.tail, r2.Capacity());
    var item := r2.buffer[slot];
    assert r2.buffer[slot := item] == r2.buffer;
    StepKeeps(r2, TakeSlot(item));
    r4 := Next(r2, TakeSlot(item));
    StepKeeps(r4, StoreTail);
    r4 := Next(r4, StoreTail);
  }

  /** The source's code, run by one thread without interference. */
  class SpscRingBuffer<T(0)> {
    const log: nat
    const buffer: array<T>
    var head: nat
    var tail: nat
    ghost var pushed: seq<T>
    ghost var popped: seq<T>

    ghost function State(): Ring<T>
      reads this, buffer
    {
      Ring(log, buffer[..], head, tail, Idle, Resting, pushed, popped, |popped|, |pushed|)
    }

    ghost predicate Valid()
      reads this, buffer
    {
      Quiet(State())
    }

    constructor (log: nat)
      requires log <= 63
      ensures Valid() && fresh(buffer) && buffer.Length == Pow2(log) && pushed == [] && popped == []
    {
      this.log := log;
      buffer := new T[Pow2(log)];
      head, tail, pushed, popped := 0, 0, [], [];
    }

    /** Enqueues unless Capacity values are outstanding; the effect is one solo run of the producer's steps. */
    method TryPush(item: T) returns (ok: bool)
      requires Valid()
      modifies this, buffer
      ensures Valid() && popped == old(popped)
      ensures ok <==> |old(Queue(State()))| < Pow2(log)
      ensures Queue(State()) == if ok then old(Queue(State())) + [item] else old(Queue(State()))
    {
      var head: int, tail: int := this.head, this.tail;
      SoloPush(State(), item);
      if Wrap(head - tail) == Pow2(log) {
        return false;
      }
      buffer[Slot(head, Pow2(log))] := item;
      this.head := Wrap(head + 1);
      pushed := pushed + [item];
      return true;
    }

    /** Dequeues the oldest value unless none is outstanding. */
    method TryPop() returns (item: Option<T>)
      requires Valid()
      modifies this, buffer
      ensures Valid() && pushed == old(pushed)
      ensures item.None? <==> old(Queue(State())) == []
      ensures item.Some? ==> item.value == old(Queue(State()))[0] && Queue(State()) == old(Queue(State()))[1..]
      ensures item.None? ==> Queue(State()) == old(Queue(State()))
    {
      var tail, head := this.tail, this.head;
      SoloPop(State());
      if tail == head {
        return None;
      }
      var taken := buffer[Slot(tail, Pow2(log))];
      this.tail := Wrap(tail + 1);
      popped := popped + [taken];
      return Some(taken);
    }
  }
}
