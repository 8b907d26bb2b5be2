/**
 The whole server: the I/O thread and the processor thread as one state machine over the two rings, with every
 interleaving of their atomic steps, every chunking of every socket and every refused push.
 */
module Exchange {
  import opened Domain
  import opened BookSpec
  import opened Ledger
  import opened RingBuffer
  import opened WireCodec
  import opened Framing
  import opened Outflow
  import opened Messages
  import opened Server
  import opened Processor
  import opened Routing
  import opened Sequential
  import opened Reporting

  // ---- The machine ----------------------------------------------------------------------------

  /** A descriptor: its slot in the client table; for the connection now or last on it, the bytes received, accepted and
      drained; and how many messages had been pushed inbound and drained outbound when it was accepted. */
  datatype Link = Link(client: ClientState, received: seq<Byte>, accepted: seq<Byte>, drained: seq<Byte>,
                       from: nat, since: nat)
  {
    function Outlet(): Outlet {
      client.Outlet(accepted, drained)
    }
  }

  const UNUSED := Link(DISCONNECTED, [], [], [], 0, 0)

  /** A connection just accepted. */
  function Opened(s: Sys): Link {
    Link(DISCONNECTED.(active := true), [], [], [], |s.inbox.pushed|, |s.outbox.popped|)
  }

  /** The rings, the connections, and the processor: its state and what it still has to push. */
  datatype Sys = Sys(inbox: Ring<Inbound>, outbox: Ring<Outbound>, links: seq<Link>,
                     desk: Desk, todo: seq<Outbound>, halted: bool)
  {
    /** The I/O thread is between ring operations. */
    predicate IoFree() {
      inbox.producer.Idle? && outbox.consumer.Resting?
    }
  }

  datatype Move =
    | Accept(fd: nat)
    | Receive(fd: nat, chunk: seq<Byte>)
    | Offer(fd: nat)
    | PushStep(step: Step<Inbound>)
    | DrainStep(pop: Step<Outbound>)
    | Handle(fd: nat, event: Event)
    | TakeStep(take: Step<Inbound>)
    | ReplyStep(reply: Step<Outbound>)

  function Pending(fd: nat, l: Link): Inbound {
    Inbound(fd, l.client.reader.kind, l.client.reader.body)
  }

  predicate CanMove(s: Sys, m: Move) {
    match m
    case Accept(fd) =>
      s.IoFree() && fd < |s.links| && !s.links[fd].client.active
    case Receive(fd, chunk) =>
      && s.IoFree() && fd < |s.links| && s.links[fd].client.active
      && var r := s.links[fd].client.reader;
         |r.header| == 5 && (r.phase.Payload? ==> |r.body| == r.length) && !r.Complete() && 0 < |chunk| <= r.Wanted()
    case Offer(fd) =>
      && s.IoFree() && fd < |s.links| && s.links[fd].client.active && s.links[fd].client.reader.Complete()
      && WellFormedMessage(Pending(fd, s.links[fd])) && Enabled(s.inbox, LoadHead(Pending(fd, s.links[fd])))
    case PushStep(step) =>
      step.ByProducer() && !step.LoadHead? && Enabled(s.inbox, step)
    case DrainStep(step) =>
      !step.ByProducer() && (step.PopLoadTail? ==> s.IoFree()) && Enabled(s.outbox, step)
    case Handle(fd, event) =>
      && s.IoFree() && fd < |s.links| && !event.Drain?
      && s.links[fd].client.writer.Ok() && Allowed(s.links[fd].Outlet(), event)
    case TakeStep(step) =>
      && !step.ByProducer() && Enabled(s.inbox, step)
      && (step.PopLoadTail? ==> !s.halted && s.todo == [] && s.outbox.producer.Idle?)
      && (step.StoreTail? ==> WellFormedMessage(s.inbox.consumer.item))
    case ReplyStep(step) =>
      && step.ByProducer() && Enabled(s.outbox, step)
      && (step.LoadHead? ==> s.todo != [] && step.item == s.todo[0])
      && (step.StoreHead? ==> s.todo != [])
  }

  /** drain_outbound_queue for one message: unknown or disconnected clients are skipped. */
  function DeliverTo(links: seq<Link>, m: Outbound): (r: seq<Link>)
    ensures |r| == |links|
  {
    if 0 <= m.fd < |links| then links[m.fd := Extend(links[m.fd], m.payload)] else links
  }

  function Extend(l: Link, payload: seq<Byte>): Link {
    l.(client := Extended(l.client, payload), drained := l.drained + if l.client.active then payload else [])
  }

  /** After a successful push the reader that offered the message starts over. */
  function ResetAt(links: seq<Link>, fd: int): (r: seq<Link>)
    ensures |r| == |links|
  {
    if 0 <= fd < |links| then
      links[fd := links[fd].(client := links[fd].client.(reader := links[fd].client.reader.Reset()))]
    else links
  }

  /** A try_send, a handle_write or a recv without bytes for a connection; a dropped client's slot is reset. */
  function AfterEvent(l: Link, e: Event): Link
    requires l.client.writer.Ok() && Allowed(l.Outlet(), e)
  {
    var o := Happen(l.Outlet(), e);
    l.(client := if o.active then l.client.(writer := o.writer) else DISCONNECTED,
       accepted := o.accepted, drained := o.drained)
  }

  function Received(l: Link, chunk: seq<Byte>): Link
    requires |l.client.reader.header| == 5 && 0 < |chunk| <= l.client.reader.Wanted()
    requires l.client.reader.phase.Payload? ==> |l.client.reader.body| == l.client.reader.length
  {
    l.(client := l.client.(reader := Absorb(l.client.reader, chunk)), received := l.received + chunk)
  }

  function MoveOn(s: Sys, m: Move, clock: Clock): Sys
    requires CanMove(s, m)
  {
    match m
    case Accept(fd) =>
      s.(links := s.links[fd := Opened(s)])
    case Receive(fd, chunk) =>
      s.(links := s.links[fd := Received(s.links[fd], chunk)])
    case Offer(fd) =>
      s.(inbox := Next(s.inbox, LoadHead(Pending(fd, s.links[fd]))))
    case PushStep(step) =>
      s.(inbox := Next(s.inbox, step),
         links := if step.StoreHead? then ResetAt(s.links, s.inbox.producer.item.fd) else s.links)
    case DrainStep(step) =>
      s.(outbox := Next(s.outbox, step),
         links := if step.StoreTail? then DeliverTo(s.links, s.outbox.consumer.item) else s.links)
    case Handle(fd, event) =>
      s.(links := s.links[fd := AfterEvent(s.links[fd], event)])
    case TakeStep(step) =>
      if step.StoreTail? then
        var r := Respond(s.desk, s.inbox.consumer.item, clock(|s.inbox.popped|));
        s.(inbox := Next(s.inbox, step),
           desk := if r.Some? then r.value.desk else s.desk,
           todo := if r.Some? then r.value.outputs else [],
           halted := r.None?)
      else s.(inbox := Next(s.inbox, step))
    case ReplyStep(step) =>
      s.(outbox := Next(s.outbox, step), todo := if step.StoreHead? then s.todo[1..] else s.todo)
  }

  predicate CanRun(s: Sys, ms: seq<Move>, clock: Clock)
    decreases |ms|
  {
    ms == [] || (CanMove(s, ms[0]) && CanRun(MoveOn(s, ms[0], clock), ms[1..], clock))
  }

  function RunOn(s: Sys, ms: seq<Move>, clock: Clock): Sys
    requires CanRun(s, ms, clock)
    decreases |ms|
  {
    if ms == [] then s else RunOn(MoveOn(s, ms[0], clock), ms[1..], clock)
  }

  /** Empty rings, no connection yet, an empty book. */
  ghost predicate Initial(s: Sys) {
    && Fresh(s.inbox) && Fresh(s.outbox)
    && (forall fd :: 0 <= fd < |s.links| ==> s.links[fd] == UNUSED)
    && s.desk == EMPTY_DESK && s.todo == [] && !s.halted
  }

  // ---- The processor's side of the invariant --------------------------------------------------

  /** Where the processor thread stands between its two rings. */
  ghost predicate ThreadOk(s: Sys) {
    && (!s.outbox.producer.Idle? ==> s.todo != [] && s.outbox.producer.item == s.todo[0])
    && (!s.inbox.consumer.Resting? ==> s.todo == [] && !s.halted && s.outbox.producer.Idle?)
    && AllWellFormed(s.inbox.pushed)
    && (!s.inbox.producer.Idle? ==> WellFormedMessage(s.inbox.producer.item))
  }

  /** The processor is the sequential one, run on what was popped; what it sent is out or still to be pushed. */
  ghost predicate PipelineOk(s: Sys, clock: Clock) {
    && Inv(s.inbox) && Inv(s.outbox) && ThreadOk(s)
    && AllWellFormed(s.inbox.popped) && RanToEnd(s.inbox.popped, clock)
    && Serve(s.inbox.popped, clock) == Served(s.desk, s.outbox.pushed + s.todo, s.halted)
  }

  lemma ProducerStepFrames<T>(r: Ring<T>, step: Step<T>)
    requires Enabled(r, step) && step.ByProducer()
    ensures var r' := Next(r, step);
            && r'.consumer == r.consumer && r'.popped == r.popped
            && r'.pushed == (if step.StoreHead? then r.pushed + [r.producer.item] else r.pushed)
            && (!r'.producer.Idle? ==> r'.producer.item == if step.LoadHead? then step.item else r.producer.item)
            && (!step.LoadHead? ==> !r.producer.Idle?)
  {}

  lemma ConsumerStepFrames<T>(r: Ring<T>, step: Step<T>)
    requires Enabled(r, step) && !step.ByProducer()
    ensures var r' := Next(r, step);
            && r'.producer == r.producer && r'.pushed == r.pushed
            && r'.popped == (if step.StoreTail? then r.popped + [r.consumer.item] else r.popped)
            && (step.StoreTail? ==> r'.consumer.Resting?)
            && (!step.PopLoadTail? ==> !r.consumer.Resting?)
  {}

  lemma TakeKeepsPipeline(s: Sys, step: Step<Inbound>, clock: Clock)
    requires PipelineOk(s, clock) && CanMove(s, TakeStep(step))
    ensures PipelineOk(MoveOn(s, TakeStep(step), clock), clock)
  {
    StepKeeps(s.inbox, step);
    ConsumerStepFrames(s.inbox, step);
    if step.StoreTail? {
      var m := s.inbox.consumer.item;
      ServeSnoc(s.inbox.popped, m, clock);
      assert (s.inbox.popped + [m])[..|s.inbox.popped|] == s.inbox.popped;
      assert s.outbox.pushed + [] == s.outbox.pushed;
    }
  }

  lemma ReplyKeepsThread(s: Sys, step: Step<Outbound>)
    requires ThreadOk(s) && step.ByProducer() && Enabled(s.outbox, step)
    requires step.LoadHead? ==> s.todo != [] && step.item == s.todo[0]
    requires step.StoreHead? ==> s.todo != []
    ensures ThreadOk(s.(outbox := Next(s.outbox, step), todo := if step.StoreHead? then s.todo[1..] else s.todo))
    ensures step.StoreHead? ==> s.outbox.producer.item == s.todo[0]
  {
    ProducerStepFrames(s.outbox, step);
  }

  lemma ReplyKeepsOutputs(pushed: seq<Outbound>, todo: seq<Outbound>)
    requires todo != []
    ensures pushed + [todo[0]] + todo[1..] == pushed + todo
  {}

  lemma ReplyKeepsPipeline(s: Sys, step: Step<Outbound>, s': Sys, clock: Clock)
    requires PipelineOk(s, clock) && step.ByProducer() && Enabled(s.outbox, step)
    requires step.LoadHead? ==> s.todo != [] && step.item == s.todo[0]
    requires step.StoreHead? ==> s.todo != []
    requires s' == s.(outbox := Next(s.outbox, step), todo := if step.StoreHead? then s.todo[1..] else s.todo)
    ensures PipelineOk(s', clock)
  {
    ReplyKeepsThread(s, step);
    StepKeeps(s.outbox, step);
    ProducerStepFrames(s.outbox, step);
    if step.StoreHead? { ReplyKeepsOutputs(s.outbox.pushed, s.todo); }
  }

  lemma PushKeepsPipeline(s: Sys, step: Step<Inbound>, s': Sys, clock: Clock)
    requires PipelineOk(s, clock) && step.ByProducer() && Enabled(s.inbox, step)
    requires step.LoadHead? ==> WellFormedMessage(step.item)
    requires s' == s.(inbox := Next(s.inbox, step), links := s'.links)
    ensures PipelineOk(s', clock)
  {
    StepKeeps(s.inbox, step);
    ProducerStepFrames(s.inbox, step);
  }

  lemma DrainKeepsPipeline(s: Sys, step: Step<Outbound>, s': Sys, clock: Clock)
    requires PipelineOk(s, clock) && !step.ByProducer() && Enabled(s.outbox, step)
    requires s' == s.(outbox := Next(s.outbox, step), links := s'.links)
    ensures PipelineOk(s', clock)
  {
    StepKeeps(s.outbox, step);
    ConsumerStepFrames(s.outbox, step);
  }

  lemma MoveKeepsPipeline(s: Sys, m: Move, clock: Clock)
    requires PipelineOk(s, clock) && CanMove(s, m)
    ensures PipelineOk(MoveOn(s, m, clock), clock)
  {
    var s' := MoveOn(s, m, clock);
    match m {
      case Offer(fd) => PushKeepsPipeline(s, LoadHead(Pending(fd, s.links[fd])), s', clock);
      case PushStep(step) => PushKeepsPipeline(s, step, s', clock);
      case DrainStep(step) => DrainKeepsPipeline(s, step, s', clock);
      case TakeStep(step) => TakeKeepsPipeline(s, step, clock);
      case ReplyStep(step) => ReplyKeepsPipeline(s, step, s', clock);
      case Accept(_) => assert s' == s.(links := s'.links);
      case Receive(_, _) => assert s' == s.(links := s'.links);
      case Handle(_, _) => assert s' == s.(links := s'.links);
    }
  }

  // ---- The connections' side of the invariant -------------------------------------------------

  /** One connection against the frames pushed from it and the bytes popped for it. */
  ghost predicate LinkInv(l: Link, frames: seq<RawFrame>, bytes: seq<Byte>) {
    && Linked(l.client, l.received, frames, l.accepted, l.drained)
    && (if l.client.active then l.drained == bytes else l.drained <= bytes)
  }

  ghost predicate LinkAt(s: Sys, fd: nat)
    requires fd < |s.links|
  {
    var l := s.links[fd];
    && l.from <= |s.inbox.pushed| && l.since <= |s.outbox.popped|
    && LinkInv(l, Heard(s.inbox.pushed, l.from, fd), Told(s.outbox.popped, l.since, fd))
  }

  /** While a push is under way, the message being pushed is still held by the reader that completed it. */
  ghost predicate OfferOk(s: Sys) {
    !s.inbox.producer.Idle? ==>
      && 0 <= s.inbox.producer.item.fd < |s.links|
      && var fd := s.inbox.producer.item.fd;
         && s.links[fd].client.active && s.links[fd].client.reader.Complete()
         && s.inbox.producer.item == Pending(fd, s.links[fd])
  }

  ghost predicate LinksOk(s: Sys) {
    OfferOk(s) && forall fd :: 0 <= fd < |s.links| ==> LinkAt(s, fd)
  }

  lemma ReceiveKeepsLink(l: Link, chunk: seq<Byte>, frames: seq<RawFrame>, bytes: seq<Byte>)
    requires LinkInv(l, frames, bytes) && l.client.active
    requires !l.client.reader.Complete() && 0 < |chunk| <= l.client.reader.Wanted()
    ensures LinkInv(Received(l, chunk), frames, bytes)
  {
    AbsorbTracks(l.client.reader, l.received, frames, chunk);
  }

  lemma CloseKeepsLink(l: Link, accepted: seq<Byte>, frames: seq<RawFrame>, bytes: seq<Byte>)
    requires LinkInv(l, frames, bytes) && accepted <= l.drained
    ensures LinkInv(l.(client := DISCONNECTED, accepted := accepted), frames, bytes)
  {
    if l.client.active { TracksIsPrefix(l.client.reader, l.received, frames); }
  }

  lemma AcceptedIsDrained(l: Link)
    requires OutletOk(l.Outlet())
    ensures l.accepted <= l.drained
  {}

  lemma HandleKeepsLink(l: Link, e: Event, frames: seq<RawFrame>, bytes: seq<Byte>)
    requires LinkInv(l, frames, bytes) && !e.Drain? && Allowed(l.Outlet(), e)
    ensures LinkInv(AfterEvent(l, e), frames, bytes)
  {
    HappenKeeps(l.Outlet(), e);
    DrainedStays(l.Outlet(), e);
    OutletKeepsLink(l, Happen(l.Outlet(), e), frames, bytes);
  }

  lemma DrainedStays(o: Outlet, e: Event)
    requires o.writer.Ok() && Allowed(o, e) && !e.Drain?
    ensures Happen(o, e).drained == o.drained && (Happen(o, e).active ==> o.active)
    ensures !o.active ==> Happen(o, e) == o
  {}

  lemma OutletKeepsLink(l: Link, o: Outlet, frames: seq<RawFrame>, bytes: seq<Byte>)
    requires LinkInv(l, frames, bytes) && OutletOk(o) && o.drained == l.drained && (o.active ==> l.client.active)
    ensures LinkInv(l.(client := if o.active then l.client.(writer := o.writer) else DISCONNECTED,
                       accepted := o.accepted, drained := o.drained), frames, bytes)
  {
    if !o.active { CloseKeepsLink(l, o.accepted, frames, bytes); }
  }

  lemma DeliverKeepsLink(l: Link, payload: seq<Byte>, frames: seq<RawFrame>, bytes: seq<Byte>)
    requires LinkInv(l, frames, bytes)
    ensures LinkInv(Extend(l, payload), frames, bytes + payload)
  {
    ExtendKeeps(l.client, l.accepted, l.drained, payload);
    if !l.client.active { assert l.drained + [] == l.drained; }
  }

  lemma ResetKeepsLink(l: Link, frames: seq<RawFrame>, bytes: seq<Byte>)
    requires LinkInv(l, frames, bytes) && l.client.active && l.client.reader.Complete()
    ensures LinkInv(l.(client := l.client.(reader := l.client.reader.Reset())),
                    frames + [l.client.reader.Message()], bytes)
  {
    ResetTracks(l.client.reader, l.received, frames);
  }

  lemma AcceptKeepsLink(s: Sys, fd: nat)
    ensures var l := Opened(s);
            LinkInv(l, Heard(s.inbox.pushed, l.from, fd), Told(s.outbox.popped, l.since, fd))
  {
    FreshReaderTracks();
    assert s.inbox.pushed[|s.inbox.pushed|..] == [] && s.outbox.popped[|s.outbox.popped|..] == [];
  }

  lemma PushKeepsLinks(s: Sys, step: Step<Inbound>, clock: Clock)
    requires LinksOk(s) && CanMove(s, PushStep(step))
    ensures LinksOk(MoveOn(s, PushStep(step), clock))
  {
    var s' := MoveOn(s, PushStep(step), clock);
    ProducerStepFrames(s.inbox, step);
    if step.StoreHead? {
      var item := s.inbox.producer.item;
      forall fd | 0 <= fd < |s'.links|
        ensures LinkAt(s', fd)
      {
        assert LinkAt(s, fd);
        var l := s.links[fd];
        HeardSnoc(s.inbox.pushed, item, l.from, fd);
        if fd == item.fd {
          ResetKeepsLink(l, Heard(s.inbox.pushed, l.from, fd), Told(s.outbox.popped, l.since, fd));
        }
      }
    } else {
      RingsOnly(s, s');
    }
  }

  lemma DrainKeepsLinks(s: Sys, step: Step<Outbound>, clock: Clock)
    requires LinksOk(s) && CanMove(s, DrainStep(step))
    ensures LinksOk(MoveOn(s, DrainStep(step), clock))
  {
    var s' := MoveOn(s, DrainStep(step), clock);
    ConsumerStepFrames(s.outbox, step);
    if step.StoreTail? {
      var item := s.outbox.consumer.item;
      forall fd | 0 <= fd < |s'.links|
        ensures LinkAt(s', fd)
      {
        assert LinkAt(s, fd);
        var l := s.links[fd];
        ToldSnoc(s.outbox.popped, item, l.since, fd);
        DeliverKeepsLink(l, if item.fd == fd then item.payload else [],
                         Heard(s.inbox.pushed, l.from, fd), Told(s.outbox.popped, l.since, fd));
        if item.fd != fd { ExtendByNothing(l); }
      }
    } else {
      RingsOnly(s, s');
    }
  }

  lemma ExtendByNothing(l: Link)
    ensures Extend(l, []) == l
  {
    assert l.client.writer.buffer + [] == l.client.writer.buffer && l.drained + [] == l.drained;
  }

  lemma OneLinkChanges(s: Sys, fd: nat, l: Link)
    requires LinksOk(s) && s.inbox.producer.Idle? && fd < |s.links|
    requires l.from <= |s.inbox.pushed| && l.since <= |s.outbox.popped|
    requires LinkInv(l, Heard(s.inbox.pushed, l.from, fd), Told(s.outbox.popped, l.since, fd))
    ensures LinksOk(s.(links := s.links[fd := l]))
  {
    var s' := s.(links := s.links[fd := l]);
    forall i | 0 <= i < |s'.links| ensures LinkAt(s', i) { assert LinkAt(s, i); }
  }

  lemma RingsOnly(s: Sys, s': Sys)
    requires LinksOk(s) && s'.links == s.links && OfferOk(s')
    requires s'.inbox.pushed == s.inbox.pushed && s'.outbox.popped == s.outbox.popped
    ensures LinksOk(s')
  {
    forall i | 0 <= i < |s'.links| ensures LinkAt(s', i) { assert LinkAt(s, i); }
  }

  lemma MoveKeepsLinks(s: Sys, m: Move, clock: Clock)
    requires LinksOk(s) && CanMove(s, m)
    ensures LinksOk(MoveOn(s, m, clock))
  {
    var s' := MoveOn(s, m, clock);
    match m {
      case PushStep(step) => PushKeepsLinks(s, step, clock);
      case DrainStep(step) => DrainKeepsLinks(s, step, clock);
      case Offer(fd) => RingsOnly(s, s');
      case TakeStep(step) =>
        ConsumerStepFrames(s.inbox, step);
        RingsOnly(s, s');
      case ReplyStep(step) =>
        ProducerStepFrames(s.outbox, step);
        RingsOnly(s, s');
      case Accept(fd) =>
        AcceptKeepsLink(s, fd);
        OneLinkChanges(s, fd, Opened(s));
      case Receive(fd, chunk) =>
        var l := s.links[fd];
        assert LinkAt(s, fd);
        ReceiveKeepsLink(l, chunk, Heard(s.inbox.pushed, l.from, fd), Told(s.outbox.popped, l.since, fd));
        OneLinkChanges(s, fd, Received(l, chunk));
      case Handle(fd, event) =>
        var l := s.links[fd];
        assert LinkAt(s, fd);
        HandleKeepsLink(l, event, Heard(s.inbox.pushed, l.from, fd), Told(s.outbox.popped, l.since, fd));
        OneLinkChanges(s, fd, AfterEvent(l, event));
    }
  }

  // ---- Nothing is held up ---------------------------------------------------------------------

  /** The machine's guards never hold up the processor thread in a step the code would take. */
  lemma ProcessorIsNeverHeldUp(s: Sys)
    requires Inv(s.inbox) && Inv(s.outbox) && ThreadOk(s)
    ensures s.inbox.consumer.Took? ==> CanMove(s, TakeStep(StoreTail))
    ensures s.outbox.producer.Wrote? ==> CanMove(s, ReplyStep(StoreHead))
    ensures s.todo != [] && s.outbox.producer.Idle? ==> CanMove(s, ReplyStep(LoadHead(s.todo[0])))
    ensures s.todo == [] && !s.halted && s.inbox.consumer.Resting? ==> CanMove(s, TakeStep(PopLoadTail))
  {
    if s.inbox.consumer.Took? {
      assert s.inbox.consumer.item in s.inbox.pushed;
    }
  }

  /** Nor the I/O thread: between ring operations any accept, recv, send or disconnect can happen, the next drain can
      start, and a completed message can be offered. */
  lemma IoIsNeverHeldUp(s: Sys, fd: nat, chunk: seq<Byte>, event: Event)
    requires Inv(s.inbox) && Inv(s.outbox) && LinksOk(s) && fd < |s.links| && s.IoFree()
    ensures CanMove(s, DrainStep(PopLoadTail))
    ensures !event.Drain? && Allowed(s.links[fd].Outlet(), event) ==> CanMove(s, Handle(fd, event))
    ensures var client := s.links[fd].client;
            if !client.active then CanMove(s, Accept(fd))
            else if client.reader.Complete() then
              WellFormedMessage(Pending(fd, s.links[fd])) ==> CanMove(s, Offer(fd))
            else
              && client.reader.Wanted() > 0
              && (0 < |chunk| <= client.reader.Wanted() ==> CanMove(s, Receive(fd, chunk)))
  {
    assert LinkAt(s, fd);
    var client := s.links[fd].client;
    if client.active && !client.reader.Complete() {
      WantsSomething(client.reader);
    }
  }

  /** A push or a drain under way can always go on. */
  lemma RingsAreNeverHeldUp(s: Sys)
    requires Inv(s.inbox) && Inv(s.outbox)
    ensures !s.inbox.producer.Idle? ==> exists step :: CanMove(s, PushStep(step))
    ensures !s.outbox.consumer.Resting? ==> exists step :: CanMove(s, DrainStep(step))
  {
    if !s.inbox.producer.Idle? {
      var step := PushGoesOn(s.inbox);
      assert CanMove(s, PushStep(step));
    }
    if !s.outbox.consumer.Resting? {
      var step := DrainGoesOn(s.outbox);
      assert CanMove(s, DrainStep(step));
    }
  }

  lemma PushGoesOn(r: Ring<Inbound>) returns (step: Step<Inbound>)
    requires Inv(r) && !r.producer.Idle?
    ensures step.ByProducer() && !step.LoadHead? && Enabled(r, step)
  {
    BothThreadsWaitFree(r, r.producer.item);
    step := match r.producer
      case HasHead(_, _) => LoadTail(|r.popped|)
      case HasBoth(_, _, _) => if Enabled(r, ReportFull) then ReportFull else WriteSlot
      case Wrote(_, _) => StoreHead;
  }

  lemma DrainGoesOn(r: Ring<Outbound>) returns (step: Step<Outbound>)
    requires Inv(r) && !r.consumer.Resting?
    ensures !step.ByProducer() && !step.PopLoadTail? && Enabled(r, step)
  {
    var husk := Outbound(0, []);
    BothThreadsWaitFree(r, husk);
    step := match r.consumer
      case HasTail(_) => PopLoadHead(|r.pushed|)
      case SawHead(_, _) => if Enabled(r, ReportEmpty) then ReportEmpty else TakeSlot(husk)
      case Took(_, _) => StoreTail;
  }

  // ---- Every run ------------------------------------------------------------------------------

  lemma InitialOk(s: Sys, clock: Clock)
    requires Initial(s)
    ensures PipelineOk(s, clock) && LinksOk(s)
  {
    forall fd | 0 <= fd < |s.links| ensures LinkAt(s, fd) {}
  }

  lemma {:induction false} RunKeeps(s: Sys, ms: seq<Move>, clock: Clock)
    requires PipelineOk(s, clock) && LinksOk(s) && CanRun(s, ms, clock)
    ensures PipelineOk(RunOn(s, ms, clock), clock) && LinksOk(RunOn(s, ms, clock))
    decreases |ms|
  {
    if ms != [] {
      MoveKeepsPipeline(s, ms[0], clock);
      MoveKeepsLinks(s, ms[0], clock);
      RunKeeps(MoveOn(s, ms[0], clock), ms[1..], clock);
    }
  }

  /** A state some run of the server reaches. */
  ghost predicate Reachable(s: Sys, clock: Clock) {
    exists init, ms :: Initial(init) && CanRun(init, ms, clock) && s == RunOn(init, ms, clock)
  }

  lemma ReachableOk(s: Sys, clock: Clock)
    requires Reachable(s, clock)
    ensures PipelineOk(s, clock) && LinksOk(s)
  {
    var init, ms :| Initial(init) && CanRun(init, ms, clock) && s == RunOn(init, ms, clock);
    InitialOk(init, clock);
    RunKeeps(init, ms, clock);
  }

  /** The pipeline: in every reachable state the book and routing are those of the sequential processor after the
      first k messages pushed inbound, and the messages drained are a prefix of what it would have sent. */
  lemma PipelineIsSequential(s: Sys, clock: Clock)
    requires Reachable(s, clock)
    ensures var k := |s.inbox.popped|;
            && k <= |s.inbox.pushed| && AllWellFormed(s.inbox.pushed[..k])
            && var served := Serve(s.inbox.pushed[..k], clock);
               && s.desk == served.desk && s.halted == served.halted
               && s.outbox.popped <= s.outbox.pushed <= served.outputs
               && (s.todo == [] ==> s.outbox.pushed == served.outputs)
  {
    ReachableOk(s, clock);
    assert s.inbox.pushed[..|s.inbox.popped|] == s.inbox.popped;
    assert s.outbox.pushed + [] == s.outbox.pushed;
  }

  /** End to end, for every connection, every schedule of both threads and every chunking of every socket: since the
      connection was accepted, the messages pushed from it are the non-empty frames its client sent, in order, none
      invented and at most the last one still pending; and what the client has received so far decodes to the first
      of the messages `replies`, which the sequential processor, fed the messages in their inbound order, has for
      it. */
  lemma ServerIsSequential(s: Sys, clock: Clock, fd: nat) returns (replies: seq<WireMessage>)
    requires Reachable(s, clock) && fd < |s.links|
    ensures var l := s.links[fd];
            && l.from <= |s.inbox.pushed|
            && Heard(s.inbox.pushed, l.from, fd) <= NonEmpty(ParseAll(l.received).frames)
            && (l.client.active ==>
                  |NonEmpty(ParseAll(l.received).frames)| <= |Heard(s.inbox.pushed, l.from, fd)| + 1)
            && AllWellFormed(s.inbox.popped) && s.inbox.popped <= s.inbox.pushed
            && var outputs := Serve(s.inbox.popped, clock).outputs;
               && l.since <= |outputs|
               && Told(outputs, l.since, fd) == EncodeAll(replies) && AllEncodable(replies)
               && l.accepted <= EncodeAll(replies)
               && DecodeAll(ParseAll(l.accepted).frames) <= Somes(replies)
  {
    ReachableOk(s, clock);
    var l := s.links[fd];
    assert LinkAt(s, fd);
    if l.client.active { TracksIsPrefix(l.client.reader, l.received, Heard(s.inbox.pushed, l.from, fd)); }
    var outputs := Serve(s.inbox.popped, clock).outputs;
    replies := Replies(s, clock, l.since, fd);
    AcceptedIsDrained(l);
    ToldPrefix(s.outbox.popped, outputs, l.since, fd);
    PrefixDecodes(l.accepted, replies);
  }

  lemma Replies(s: Sys, clock: Clock, since: nat, fd: nat) returns (replies: seq<WireMessage>)
    requires PipelineOk(s, clock) && since <= |s.outbox.popped|
    ensures s.outbox.popped <= Serve(s.inbox.popped, clock).outputs
    ensures AllEncodable(replies) && Told(Serve(s.inbox.popped, clock).outputs, since, fd) == EncodeAll(replies)
  {
    var outputs := Serve(s.inbox.popped, clock).outputs;
    ServeSpeaks(s.inbox.popped, clock);
    assert forall o :: o in outputs[since..] ==> o in outputs;
    replies := ConnectionSpeaks(outputs[since..], fd);
  }

  /** In every reachable state of the server, whatever the schedule, the book is in price-time order with live index
      entries and no bid reaches any ask; and under every id the quantity submitted, counted twice, is what all reports
      sent or about to be sent account for, plus twice what rests, was cancelled or was discarded. */
  lemma ServerBookIsSound(s: Sys, clock: Clock, id: OrderId)
    requires Reachable(s, clock)
    ensures WellFormed(s.desk.book) && Uncrossed(s.desk.book)
    ensures AllWellFormed(s.inbox.popped)
    ensures var cs := CommandsOf(s.inbox.popped);
            2 * Submitted(cs, id) == Legs(Reported(s.outbox.pushed + s.todo), id)
              + 2 * (Held(s.desk.book, id) + Withdrawn(EMPTY_BOOK, cs, id) + Discarded(EMPTY_BOOK, cs, id))
  {
    ReachableOk(s, clock);
    ServeKeepsBook(s.inbox.popped, clock);
    LedgerBalancesWithReports(s.inbox.popped, clock, id);
  }

  /** In every reachable state of a run that reused no resting id, every order taken so far has had, or is about to
      have, one report per trade sent to the client that submitted the maker, followed by the response to its sender. */
  lemma ServerRoutesTrades(s: Sys, clock: Clock, j: nat, order: Order)
    requires Reachable(s, clock) && AllWellFormed(s.inbox.popped) && NoReuse(s.inbox.popped, clock)
    requires j < |s.inbox.popped| && AllWellFormed(s.inbox.popped[..j]) && WellFormedMessage(s.inbox.popped[j])
    requires TicketOf(s.inbox.popped[j]) == Some(Live(order))
    ensures var before, fd := Serve(s.inbox.popped[..j], clock), s.inbox.popped[j].fd;
            && MakersNotified(before.desk, OwnersOf(s.inbox.popped[..j], clock), fd, order, clock(j))
            && before.outputs + LiveOutputs(before.desk, fd, order, clock(j)) <= s.outbox.pushed + s.todo
  {
    ReachableOk(s, clock);
    RanUpTo(s.inbox.popped, clock, j);
    TradesReachOwners(s.inbox.popped, clock, j, order);
  }
}
