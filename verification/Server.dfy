/**
 The I/O thread: handle_read's framing loop with back-pressure, draining the outbound queue, and the two send
 paths. Sockets and the inbound ring are environments that may deliver, accept or refuse as they like.
 */
module Server {
  import opened Domain
  import opened WireCodec
  import opened Framing
  import opened Outflow
  import opened Messages
  import opened Environment

  datatype ClientState = ClientState(active: bool, reader: ReadState, writer: WriteState)
  {
    function Outlet(accepted: seq<Byte>, drained: seq<Byte>): Outlet {
      Outflow.Outlet(active, writer, accepted, drained)
    }
  }

  const DISCONNECTED := ClientState(false, FRESH_READER, WriteState([], 0, false))

  /** A slot of the client table; those beyond its end would be added disconnected. */
  function SlotAt(cs: seq<ClientState>, fd: nat): ClientState {
    if fd < |cs| then cs[fd] else DISCONNECTED
  }

  function Max(a: int, b: int): int {
    if a >= b then a else b
  }

  /** How one recv ends: go on, come back on the next event, or disconnect. */
  datatype Outcome = Proceed | Wait | Drop

  // ---- The server -----------------------------------------------------------------------------

  ghost predicate ReadOk(c: ClientState, received: seq<Byte>, frames: seq<RawFrame>) {
    if c.active then Tracks(c.reader, received, frames) else frames <= NonEmpty(ParseAll(received).frames)
  }

  // ---- Writing, on values ---------------------------------------------------------------------

  function Extended(c: ClientState, bytes: seq<Byte>): ClientState {
    if c.active then c.(writer := Append(c.writer, bytes)) else c
  }

  function Deliver(cs: seq<ClientState>, m: Outbound): (r: seq<ClientState>)
    ensures |r| == |cs|
  {
    if 0 <= m.fd < |cs| then cs[m.fd := Extended(cs[m.fd], m.payload)] else cs
  }

  function DeliverAll(cs: seq<ClientState>, ms: seq<Outbound>): (r: seq<ClientState>)
    ensures |r| == |cs|
    decreases |ms|
  {
    if ms == [] then cs else DeliverAll(Deliver(cs, ms[0]), ms[1..])
  }

  /** The descriptors a batch adds to pending_writes_: one per message for an active client. */
  function Woken(cs: seq<ClientState>, ms: seq<Outbound>): seq<nat> {
    if ms == [] then []
    else WokenBy(cs, ms[0]) + Woken(cs, ms[1..])
  }

  function WokenBy(cs: seq<ClientState>, m: Outbound): seq<nat> {
    if 0 <= m.fd < |cs| && cs[m.fd].active then [m.fd] else []
  }

  lemma {:induction false} WokenIgnoresBuffers(cs: seq<ClientState>, cs': seq<ClientState>, ms: seq<Outbound>)
    requires |cs'| == |cs| && forall i :: 0 <= i < |cs| ==> cs'[i].active == cs[i].active
    ensures Woken(cs', ms) == Woken(cs, ms)
  {
    if ms != [] { WokenIgnoresBuffers(cs, cs', ms[1..]); }
  }

  /** No wake-up is lost or invented: a descriptor is added exactly when it is active and addressed by the batch. */
  lemma {:induction false} WokenIff(cs: seq<ClientState>, ms: seq<Outbound>, fd: nat)
    ensures fd in Woken(cs, ms) <==> fd < |cs| && cs[fd].active && exists i :: 0 <= i < |ms| && ms[i].fd == fd
  {
    if ms != [] {
      WokenIff(cs, ms[1..], fd);
      assert forall i :: 0 <= i < |ms| - 1 ==> ms[1..][i] == ms[i + 1];
      assert forall i :: 1 <= i < |ms| ==> ms[i] == ms[1..][i - 1];
    }
  }

  lemma WokenStep(cs: seq<ClientState>, m: Outbound, ms: seq<Outbound>, pending: seq<nat>)
    ensures pending + Woken(cs, [m] + ms) == pending + WokenBy(cs, m) + Woken(Deliver(cs, m), ms)
  {
    assert ([m] + ms)[1..] == ms;
    WokenIgnoresBuffers(cs, Deliver(cs, m), ms);
  }

  lemma DeliverStep(cs: seq<ClientState>, m: Outbound, ms: seq<Outbound>)
    ensures DeliverAll(cs, [m] + ms) == DeliverAll(Deliver(cs, m), ms)
  {
    assert ([m] + ms)[1..] == ms;
  }

  /** After k messages of the batch the table is `now` and the pending list is `waiting`. */
  ghost predicate Appending(cs: seq<ClientState>, pending: seq<nat>, batch: seq<Outbound>, k: nat,
                            now: seq<ClientState>, waiting: seq<nat>)
    requires k <= |batch|
  {
    && DeliverAll(now, batch[k..]) == DeliverAll(cs, batch)
    && waiting + Woken(now, batch[k..]) == pending + Woken(cs, batch)
  }

  lemma BeginAppending(cs: seq<ClientState>, pending: seq<nat>, batch: seq<Outbound>)
    ensures Appending(cs, pending, batch, 0, cs, pending)
  {
    assert batch[0..] == batch;
  }

  lemma AppendingStep(cs: seq<ClientState>, pending: seq<nat>, batch: seq<Outbound>, k: nat,
                      now: seq<ClientState>, waiting: seq<nat>)
    requires k < |batch| && Appending(cs, pending, batch, k, now, waiting)
    ensures Appending(cs, pending, batch, k + 1, Deliver(now, batch[k]), waiting + WokenBy(now, batch[k]))
  {
    assert batch[k..] == [batch[k]] + batch[k + 1..];
    DeliverStep(now, batch[k], batch[k + 1..]);
    WokenStep(now, batch[k], batch[k + 1..], waiting);
  }

  lemma DoneAppending(cs: seq<ClientState>, pending: seq<nat>, batch: seq<Outbound>,
                      now: seq<ClientState>, waiting: seq<nat>)
    requires Appending(cs, pending, batch, |batch|, now, waiting)
    ensures now == DeliverAll(cs, batch) && waiting == pending + Woken(cs, batch)
  {
    assert batch[|batch|..] == [];
    assert waiting + [] == waiting;
  }

  /** Draining a batch extends each active client by exactly the payloads addressed to it, in order. */
  lemma {:induction false} DeliverAllBytes(cs: seq<ClientState>, ms: seq<Outbound>, fd: nat)
    requires fd < |cs|
    ensures DeliverAll(cs, ms)[fd] == Extended(cs[fd], BytesFor(ms, fd))
    decreases |ms|
  {
    if ms == [] {
      assert cs[fd].writer.buffer + [] == cs[fd].writer.buffer;
    } else {
      DeliverAllBytes(Deliver(cs, ms[0]), ms[1..], fd);
      assert ms[0].fd == fd ==> cs[fd].writer.buffer + ms[0].payload + BytesFor(ms[1..], fd)
                                == cs[fd].writer.buffer + BytesFor(ms, fd);
      assert ms[0].fd != fd ==> BytesFor(ms, fd) == BytesFor(ms[1..], fd);
    }
  }

  /** What draining a batch adds to the bytes drained for each connection. */
  function Drained(cs: seq<ClientState>, was: seq<seq<Byte>>, batch: seq<Outbound>): (now: seq<seq<Byte>>)
    ensures |now| == |was|
  {
    seq(|was|, i requires 0 <= i < |was| => was[i] + if SlotAt(cs, i).active then BytesFor(batch, i) else [])
  }

  lemma ExtendKeeps(c: ClientState, accepted: seq<Byte>, drained: seq<Byte>, bytes: seq<Byte>)
    requires OutletOk(c.Outlet(accepted, drained))
    ensures OutletOk(Extended(c, bytes).Outlet(accepted, drained + if c.active then bytes else []))
  {
    if c.active {
      HappenKeeps(c.Outlet(accepted, drained), Drain(bytes));
    } else {
      assert drained + [] == drained;
    }
  }

  function Settled(c: ClientState, w: Option<WriteState>): ClientState {
    if w.Some? then c.(writer := w.value) else DISCONNECTED
  }

  /** The bytes a send from the unsent part of the buffer passes on. */
  function SentBy(c: ClientState, r: SendResult): seq<Byte>
    requires c.writer.Ok() && Possible(|c.writer.buffer| - c.writer.sent, r)
  {
    if r.Accepted? then c.writer.buffer[c.writer.sent..][..r.n] else []
  }

  /** Either send path leaves the connection's byte stream intact. */
  lemma SendOutcome(c: ClientState, accepted: seq<Byte>, drained: seq<Byte>, r: SendResult)
    requires c.active && OutletOk(c.Outlet(accepted, drained)) && Possible(|c.writer.buffer| - c.writer.sent, r)
    ensures var t, h := Settled(c, Outflow.TrySend(c.writer, r)), Settled(c, Outflow.HandleWrite(c.writer, r));
            && (c.writer.buffer != [] ==> OutletOk(t.Outlet(accepted + SentBy(c, r), drained)))
            && OutletOk(h.Outlet(accepted + SentBy(c, r), drained))
  {
    var o := c.Outlet(accepted, drained);
    HappenKeeps(o, Flush(r));
    HappenKeeps(o, Writable(r));
    assert SentBy(c, r) == Moved(c.writer, r);
    assert !r.Accepted? ==> accepted + SentBy(c, r) == accepted;
  }

  predicate Wanting(c: ClientState) {
    c.active && c.writer.buffer != []
  }

  /** What a send is asked to pass on: everything unsent. */
  function Offered(w: WriteState): seq<Byte> {
    if w.sent <= |w.buffer| then w.buffer[w.sent..] else []
  }

  /** Going through `fds` in order with one send of everything unsent for each client that has something to send turns
      cs into cs', the sends having been appended to the log. */
  ghost predicate Flushed(cs: seq<ClientState>, fds: seq<nat>, log: seq<Sent>, cs': seq<ClientState>, log': seq<Sent>)
    decreases |fds|
  {
    if fds == [] then cs' == cs && log' == log
    else if fds[0] >= |cs| || !Wanting(cs[fds[0]]) then Flushed(cs, fds[1..], log, cs', log')
    else
      && |log| < |log'| && log'[|log|].fd == fds[0] && log'[|log|].data == Offered(cs[fds[0]].writer)
      && Flushed(cs[fds[0] := Settled(cs[fds[0]], Outflow.TrySend(cs[fds[0]].writer, log'[|log|].result))],
                 fds[1..], log + [log'[|log|]], cs', log')
  }

  lemma {:induction false} FlushedExtends(cs: seq<ClientState>, fds: seq<nat>, log: seq<Sent>, cs': seq<ClientState>,
      log': seq<Sent>)
    requires Flushed(cs, fds, log, cs', log')
    ensures log <= log' && |cs'| == |cs|
    decreases |fds|
  {
    if fds != [] {
      if fds[0] >= |cs| || !Wanting(cs[fds[0]]) {
        FlushedExtends(cs, fds[1..], log, cs', log');
      } else {
        var next := cs[fds[0] := Settled(cs[fds[0]], Outflow.TrySend(cs[fds[0]].writer, log'[|log|].result))];
        FlushedExtends(next, fds[1..], log + [log'[|log|]], cs', log');
      }
    }
  }

  lemma {:induction false} FlushedAppend(cs: seq<ClientState>, fds: seq<nat>, log: seq<Sent>,
                                         cs1: seq<ClientState>, log1: seq<Sent>,
                                         more: seq<nat>, cs2: seq<ClientState>, log2: seq<Sent>)
    requires Flushed(cs, fds, log, cs1, log1) && Flushed(cs1, more, log1, cs2, log2)
    ensures Flushed(cs, fds + more, log, cs2, log2)
    decreases |fds|
  {
    if fds == [] {
      assert fds + more == more;
    } else {
      assert (fds + more)[1..] == fds[1..] + more;
      FlushedExtends(cs, fds, log, cs1, log1);
      FlushedExtends(cs1, more, log1, cs2, log2);
      if fds[0] >= |cs| || !Wanting(cs[fds[0]]) {
        FlushedAppend(cs, fds[1..], log, cs1, log1, more, cs2, log2);
      } else {
        assert log1[|log|] == log2[|log|];
        var next := cs[fds[0] := Settled(cs[fds[0]], Outflow.TrySend(cs[fds[0]].writer, log1[|log|].result))];
        FlushedAppend(next, fds[1..], log + [log1[|log|]], cs1, log1, more, cs2, log2);
      }
    }
  }

  lemma FlushedOne(cs: seq<ClientState>, fd: nat, log: seq<Sent>, r: SendResult)
    requires fd < |cs|
    ensures !Wanting(cs[fd]) ==> Flushed(cs, [fd], log, cs, log)
    ensures Wanting(cs[fd]) ==>
      Flushed(cs, [fd], log, cs[fd := Settled(cs[fd], Outflow.TrySend(cs[fd].writer, r))],
              log + [Sent(fd, Offered(cs[fd].writer), r)])
  {
    assert [fd][1..] == [];
    var next := cs[fd := Settled(cs[fd], Outflow.TrySend(cs[fd].writer, r))];
    var log' := log + [Sent(fd, Offered(cs[fd].writer), r)];
    assert log + [log'[|log|]] == log';
    assert Flushed(next, [], log', next, log') && Flushed(cs, [], log, cs, log);
  }

  /** Two responses for one client are drained together; the first of the two try_sends sends a part and registers
      EPOLLOUT, the second finishes and leaves it registered over an empty buffer. The next writable event sends
      nothing, gets zero and drops the client. */
  lemma FlushedClientIsDropped()
    ensures var client := DISCONNECTED.(active := true);
            var batch := [Outbound(0, [1]), Outbound(0, [2])];
            var hollow := client.(writer := WriteState([], 0, true));
            && Woken([client], batch) == [0, 0]
            && Flushed(DeliverAll([client], batch), [0, 0], [], [hollow],
                       [Sent(0, [1, 2], Accepted(1)), Sent(0, [2], Accepted(1))])
            && Settled(hollow, Outflow.HandleWrite(hollow.writer, Zero)) == DISCONNECTED
  {
    var client := DISCONNECTED.(active := true);
    var batch := [Outbound(0, [1]), Outbound(0, [2])];
    var both := client.(writer := WriteState([1, 2], 0, false));
    var half := client.(writer := WriteState([1, 2], 1, true));
    var hollow := client.(writer := WriteState([], 0, true));
    var sent, rest := Sent(0, [1, 2], Accepted(1)), Sent(0, [2], Accepted(1));
    assert batch[1..] == [Outbound(0, [2])] && batch[1..][1..] == [];
    assert Woken([client], batch[1..]) == [0] + Woken([client], []);
    assert Woken([client], batch) == [0] + Woken([client], batch[1..]);
    DeliverAllBytes([client], batch, 0);
    assert BytesFor(batch, 0) == [1] + ([2] + []) == [1, 2];
    assert [] + BytesFor(batch, 0) == [1, 2];
    assert DeliverAll([client], batch)[0] == both;
    assert DeliverAll([client], batch) == [both];
    FlushedOne([both], 0, [], Accepted(1));
    assert [both][0 := half] == [half] && [] + [sent] == [sent];
    FlushedOne([half], 0, [sent], Accepted(1));
    assert [half][0 := hollow] == [hollow] && [sent] + [rest] == [sent, rest];
    FlushedAppend([both], [0], [], [half], [sent], [0], [hollow], [sent, rest]);
    assert [0] + [0] == [0, 0];
  }

  lemma TracksWhileActive(before: ClientState, after: ClientState, received: seq<Byte>, frames: seq<RawFrame>)
    requires before.active && ReadOk(before, received, frames)
    requires after == DISCONNECTED || (after.active && after.reader == before.reader)
    ensures ReadOk(after, received, frames)
  {
    TracksIsPrefix(before.reader, received, frames);
  }

  /** One connection: its reader agrees with its stream, and its writer with what was drained; a slot without one is
      blank. */
  ghost predicate Linked(c: ClientState, received: seq<Byte>, heard: seq<RawFrame>, accepted: seq<Byte>,
      drained: seq<Byte>) {
    && ReadOk(c, received, heard) && OutletOk(c.Outlet(accepted, drained))
    && (!c.active ==> c == DISCONNECTED)
  }

  lemma ReadKeepsLink(before: ClientState, after: ClientState, received: seq<Byte>, heard: seq<RawFrame>,
                      accepted: seq<Byte>, drained: seq<Byte>)
    requires before.active && OutletOk(before.Outlet(accepted, drained)) && ReadOk(after, received, heard)
    requires if after.active then after.writer == before.writer else after == DISCONNECTED
    ensures Linked(after, received, heard, accepted, drained)
  {}

  lemma TrySendKeepsLink(c: ClientState, received: seq<Byte>, heard: seq<RawFrame>, accepted: seq<Byte>,
                         drained: seq<Byte>, r: SendResult)
    requires Linked(c, received, heard, accepted, drained) && Wanting(c)
        && Possible(|c.writer.buffer| - c.writer.sent, r)
    ensures Linked(Settled(c, Outflow.TrySend(c.writer, r)), received, heard, accepted + SentBy(c, r), drained)
  {
    SendOutcome(c, accepted, drained, r);
    TracksWhileActive(c, Settled(c, Outflow.TrySend(c.writer, r)), received, heard);
  }

  lemma HandleWriteKeepsLink(c: ClientState, received: seq<Byte>, heard: seq<RawFrame>, accepted: seq<Byte>,
                             drained: seq<Byte>, r: SendResult)
    requires Linked(c, received, heard, accepted, drained) && c.active && Possible(|c.writer.buffer| - c.writer.sent, r)
    ensures Linked(Settled(c, Outflow.HandleWrite(c.writer, r)), received, heard, accepted + SentBy(c, r), drained)
  {
    SendOutcome(c, accepted, drained, r);
    TracksWhileActive(c, Settled(c, Outflow.HandleWrite(c.writer, r)), received, heard);
  }

  class ExchangeServer {
    const net: Network
    const inbound: InboundQueue
    var clients: seq<ClientState>
    var pendingWrites: seq<nat>

    /** For the connection now on each descriptor: the bytes drained for it, and how many messages had been pushed
        inbound when it was accepted. */
    ghost var drained: seq<seq<Byte>>
    ghost var since: seq<nat>

    ghost predicate Sized()
      reads this, net
    {
      net.Valid() && |drained| == |since| == |net.incoming|
    }

    ghost predicate LinkOk(fd: nat)
      requires Sized() && fd < |since|
      reads this, net, inbound
    {
      && since[fd] <= |inbound.pushed|
      && Linked(SlotAt(clients, fd), net.received[fd], Heard(inbound.pushed, since[fd], fd), net.accepted[fd],
          drained[fd])
    }

    /** Every connection's reader agrees with its stream and every connection's writer with what was drained. */
    ghost predicate Valid()
      reads this, net, inbound
    {
      && Sized()
      && (forall fd :: 0 <= fd < |since| ==> LinkOk(fd))
      && (forall fd :: |since| <= fd < |clients| ==> clients[fd] == DISCONNECTED)
      && (forall fd :: fd in pendingWrites ==> fd < |clients|)
    }

    /** No client connected yet. */
    constructor (net: Network, inbound: InboundQueue)
      requires net.Valid()
      requires forall fd :: 0 <= fd < |net.accepted| ==> net.accepted[fd] == []
      ensures Valid() && this.net == net && this.inbound == inbound && |clients| == 1024 && pendingWrites == []
      ensures forall fd :: 0 <= fd < |clients| ==> clients[fd] == DISCONNECTED
    {
      this.net, this.inbound := net, inbound;
      clients := seq(1024, i => DISCONNECTED);
      pendingWrites := [];
      drained := seq(|net.incoming|, i => []);
      ghost var pushed := |inbound.pushed|;
      since := seq(|net.incoming|, i => pushed);
      new;
      forall fd | 0 <= fd < |since|
        ensures LinkOk(fd)
      {
        assert SlotAt(clients, fd) == DISCONNECTED && inbound.pushed[since[fd]..] == [];
      }
    }

    /** accept_client for one connection, on a descriptor used before or not: the table grows when it is too short, and
        the slot starts over. */
    method AcceptClient(fd: nat)
      requires Valid() && fd < |net.incoming|
      modifies this`clients, this`drained, this`since, net`incoming, net`received, net`accepted
      ensures Valid() && |net.incoming| == |old(net.incoming)|
      ensures |clients| == if fd < |old(clients)| then |old(clients)| else Max(2 * |old(clients)|, fd + 1)
      ensures clients[fd] == DISCONNECTED.(active := true)
      ensures forall i :: 0 <= i < |clients| && i != fd ==> clients[i] == SlotAt(old(clients), i)
      ensures drained == old(drained)[fd := []] && since == old(since)[fd := |inbound.pushed|]
    {
      label before:
      net.Open(fd);
      if fd >= |clients| {
        clients := clients + seq(Max(2 * |clients|, fd + 1) - |clients|, i => DISCONNECTED);
      }
      clients := clients[fd := DISCONNECTED.(active := true)];
      drained, since := drained[fd := []], since[fd := |inbound.pushed|];
      forall i | 0 <= i < |since|
        ensures LinkOk(i)
      {
        if i == fd {
          FreshReaderTracks();
          assert inbound.pushed[since[fd]..] == [];
        } else {
          assert old@before(LinkOk(i));
          assert SlotAt(clients, i) == old@before(SlotAt(clients, i));
        }
      }
    }

    /** drain_outbound_queue: `batch` is what try_pop returned before it came back empty. Messages for unknown or
        disconnected clients are skipped, all others are appended in order. */
    method DrainOutboundQueue(batch: seq<Outbound>)
      requires Valid()
      modifies this`clients, this`pendingWrites, this`drained
      ensures Valid() && |clients| == |old(clients)|
      ensures forall fd :: 0 <= fd < |clients| ==> clients[fd] == Extended(old(clients[fd]), BytesFor(batch, fd))
      ensures pendingWrites == old(pendingWrites) + Woken(old(clients), batch)
      ensures drained == Drained(old(clients), old(drained), batch)
    {
      ghost var start, was := clients, drained;
      AppendAll(batch);
      drained := Drained(start, was, batch);
      forall i | 0 <= i < |clients|
        ensures clients[i] == Extended(start[i], BytesFor(batch, i))
      {
        DeliverAllBytes(start, batch, i);
      }
      forall i | 0 <= i < |since|
        ensures LinkOk(i)
      {
        assert old(LinkOk(i));
        ExtendKeeps(SlotAt(start, i), net.accepted[i], was[i], BytesFor(batch, i));
      }
      forall fd | fd in pendingWrites
        ensures fd < |clients|
      {
        if fd in Woken(start, batch) { WokenIff(start, batch, fd); }
      }
    }

    /** The loop of drain_outbound_queue. */
    method AppendAll(batch: seq<Outbound>)
      modifies this`clients, this`pendingWrites
      ensures clients == DeliverAll(old(clients), batch)
      ensures pendingWrites == old(pendingWrites) + Woken(old(clients), batch)
    {
      BeginAppending(clients, pendingWrites, batch);
      var k := 0;
      while k < |batch|
        invariant 0 <= k <= |batch|
        invariant Appending(old(clients), old(pendingWrites), batch, k, clients, pendingWrites)
      {
        AppendingStep(old(clients), old(pendingWrites), batch, k, clients, pendingWrites);
        AppendOne(batch[k]);
        k := k + 1;
      }
      DoneAppending(old(clients), old(pendingWrites), batch, clients, pendingWrites);
    }

    method AppendOne(message: Outbound)
      modifies this`clients, this`pendingWrites
      ensures clients == Deliver(old(clients), message)
      ensures pendingWrites == old(pendingWrites) + WokenBy(old(clients), message)
    {
      if 0 <= message.fd < |clients| && clients[message.fd].active {
        var client := clients[message.fd];
        var writer := client.writer.(buffer := client.writer.buffer + message.payload);
        clients := clients[message.fd := client.(writer := writer)];
        pendingWrites := pendingWrites + [message.fd];
      }
    }

    /** try_send: does nothing without unsent bytes; otherwise sends from the unsent part, clears a finished buffer,
        registers EPOLLOUT after a partial send. */
    method TrySend(fd: nat)
      requires Valid() && fd < |clients|
      modifies this`clients, net`accepted, net`sends
      ensures Valid() && Flushed(old(clients), [fd], old(net.sends), clients, net.sends)
    {
      if !clients[fd].active || clients[fd].writer.buffer == [] {
        FlushedOne(clients, fd, net.sends, Zero);
        return;
      }
      assert LinkOk(fd);
      label before:
      var client, r := SendOut(fd, clients[fd]);
      TrySendKeepsLink(clients[fd], net.received[fd], Heard(inbound.pushed, since[fd], fd),
                       old@before(net.accepted[fd]), drained[fd], r);
      FlushedOne(clients, fd, old@before(net.sends), r);
      clients := clients[fd := client];
      forall i | 0 <= i < |since|
        ensures LinkOk(i)
      {
        assert old@before(LinkOk(i));
      }
    }

    /** The body of try_send once there is something to send. */
    method SendOut(fd: nat, start: ClientState) returns (client: ClientState, r: SendResult)
      requires net.Valid() && fd < |net.accepted| && start.active && start.writer.Ok() && start.writer.buffer != []
      modifies net`accepted, net`sends
      ensures net.Valid() && net.sends == old(net.sends) + [Sent(fd, Offered(start.writer), r)]
      ensures client == Settled(start, Outflow.TrySend(start.writer, r))
      ensures Possible(|start.writer.buffer| - start.writer.sent, r)
      ensures net.accepted == old(net.accepted)[fd := old(net.accepted[fd]) + SentBy(start, r)]
    {
      client := start;
      var w := start.writer;
      r := net.Send(fd, w.buffer[w.sent..]);
      match r {
        case Accepted(n) =>
          w := w.(sent := w.sent + n);
          if w.sent == |w.buffer| {
            w := w.(buffer := [], sent := 0);
          } else {
            w := w.(armed := true);
          }
          client := client.(writer := w);
        case Again =>
        case _ =>
          client := DISCONNECTED;
      }
    }

    /** handle_write: sends whatever is unsent, even nothing, and unregisters EPOLLOUT once the buffer is finished. */
    method HandleWrite(fd: nat)
      requires Valid() && fd < |clients|
      modifies this`clients, net`accepted, net`sends
      ensures Valid() && |clients| == |old(clients)| && clients == old(clients)[fd := clients[fd]]
      ensures old(!clients[fd].active) ==> clients == old(clients) && net.sends == old(net.sends)
      ensures old(clients[fd].active) ==>
        && 0 < |net.sends| && var r := net.sends[|net.sends| - 1].result;
        && net.sends == old(net.sends) + [Sent(fd, Offered(old(clients[fd].writer)), r)]
        && clients[fd] == Settled(old(clients[fd]), Outflow.HandleWrite(old(clients[fd].writer), r))
        && (old(clients[fd].writer.buffer) == [] ==> !clients[fd].active)
    {
      if !clients[fd].active {
        return;
      }
      assert LinkOk(fd);
      label before:
      var client, r := WriteOut(fd, clients[fd]);
      HandleWriteKeepsLink(clients[fd], net.received[fd], Heard(inbound.pushed, since[fd], fd),
                           old@before(net.accepted[fd]), drained[fd], r);
      clients := clients[fd := client];
      forall i | 0 <= i < |since|
        ensures LinkOk(i)
      {
        assert old@before(LinkOk(i));
      }
    }

    method WriteOut(fd: nat, start: ClientState) returns (client: ClientState, r: SendResult)
      requires net.Valid() && fd < |net.accepted| && start.active && start.writer.Ok()
      modifies net`accepted, net`sends
      ensures net.Valid() && net.sends == old(net.sends) + [Sent(fd, Offered(start.writer), r)]
      ensures client == Settled(start, Outflow.HandleWrite(start.writer, r))
      ensures Possible(|start.writer.buffer| - start.writer.sent, r) && (start.writer.buffer == [] ==> r.Zero?)
      ensures net.accepted == old(net.accepted)[fd := old(net.accepted[fd]) + SentBy(start, r)]
    {
      client := start;
      var w := start.writer;
      r := net.Send(fd, w.buffer[w.sent..]);
      match r {
        case Accepted(n) =>
          w := w.(sent := w.sent + n);
          if w.sent >= |w.buffer| {
            w := w.(buffer := [], sent := 0, armed := false);
          }
          client := client.(writer := w);
        case Again =>
        case _ =>
          client := DISCONNECTED;
      }
    }

    /** flush_pending_writes: one try_send per pending entry, duplicates included. */
    method FlushPendingWrites()
      requires Valid()
      modifies this`clients, this`pendingWrites, net`accepted, net`sends
      ensures Valid() && pendingWrites == []
      ensures Flushed(old(clients), old(pendingWrites), old(net.sends), clients, net.sends)
    {
      var k := 0;
      while k < |pendingWrites|
        invariant 0 <= k <= |pendingWrites| && Valid() && |clients| == |old(clients)|
        invariant pendingWrites == old(pendingWrites)
        invariant Flushed(old(clients), pendingWrites[..k], old(net.sends), clients, net.sends)
      {
        assert pendingWrites[k] in pendingWrites;
        ghost var cs, log := clients, net.sends;
        TrySend(pendingWrites[k]);
        FlushedAppend(old(clients), pendingWrites[..k], old(net.sends), cs, log, [pendingWrites[k]], clients,
            net.sends);
        assert pendingWrites[..k + 1] == pendingWrites[..k] + [pendingWrites[k]];
        k := k + 1;
      }
      assert pendingWrites[..k] == pendingWrites;
      label flushed:
      pendingWrites := [];
      forall i | 0 <= i < |since|
        ensures LinkOk(i)
      {
        assert old@flushed(LinkOk(i));
      }
    }

    /** handle_read: pushes each completed message and goes on until the first recv that falls short or the first
        refused push; only a refused push leaves a complete message behind, for the next read event to offer again. The
        client is disconnected if and only if one of the recvs reported a close or an error. */
    method HandleRead(fd: nat)
      requires Valid() && fd < |clients|
      modifies this`clients, net`incoming, net`received, net`shortfalls, net`recvs, inbound
      ensures Valid()
      ensures |clients| == |old(clients)| && clients == old(clients)[fd := clients[fd]]
      ensures if old(clients[fd].active) then Grown(old(net.received), net.received, fd)
              else net.received == old(net.received) && inbound.pushed == old(inbound.pushed)
      ensures OnlyFrom(old(inbound.pushed), inbound.pushed, fd)
      ensures net.shortfalls + inbound.refusals
          == old(net.shortfalls + inbound.refusals) + if old(clients[fd].active) then 1 else 0
      ensures old(clients[fd].active) && clients[fd].active ==>
        && clients[fd].writer == old(clients[fd].writer)
        && (clients[fd].reader.Complete() <==> inbound.refusals > old(inbound.refusals))
      ensures if old(clients[fd].active) then Calls(old(net.recvs), net.recvs, fd, !clients[fd].active)
              else net.recvs == old(net.recvs)
      ensures !clients[fd].active ==> clients[fd] == if old(clients[fd].active) then DISCONNECTED else old(clients[fd])
    {
      if !clients[fd].active {
        return;
      }
      assert LinkOk(fd);
      label before:
      var client := ReadLoop(fd, clients[fd], since[fd]);
      ReadKeepsLink(clients[fd], client, net.received[fd], Heard(inbound.pushed, since[fd], fd),
                    net.accepted[fd], drained[fd]);
      clients := clients[fd := client];
      forall i | 0 <= i < |since|
        ensures LinkOk(i)
      {
        assert old@before(LinkOk(i));
        if i != fd {
          OthersUnseen(old@before(inbound.pushed), inbound.pushed, since[i], fd, i);
        }
      }
    }

    method ReadLoop(fd: nat, start: ClientState, ghost from: nat) returns (client: ClientState)
      requires net.Valid() && fd < |net.incoming| && start.active && from <= |inbound.pushed|
      requires Tracks(start.reader, net.received[fd], Heard(inbound.pushed, from, fd))
      modifies net`incoming, net`received, net`shortfalls, net`recvs, inbound
      ensures net.Valid() && |net.incoming| == |old(net.incoming)|
      ensures from <= |inbound.pushed| && ReadOk(client, net.received[fd], Heard(inbound.pushed, from, fd))
      ensures client.active ==> client.writer == start.writer
      ensures !client.active ==> client == DISCONNECTED
      ensures Grown(old(net.received), net.received, fd)
      ensures OnlyFrom(old(inbound.pushed), inbound.pushed, fd)
      ensures Calls(old(net.recvs), net.recvs, fd, !client.active)
      ensures net.shortfalls + inbound.refusals == old(net.shortfalls + inbound.refusals) + 1
      ensures client.active ==> (client.reader.Complete() <==> inbound.refusals > old(inbound.refusals))
    {
      client := start;
      var more := true;
      while more
        invariant net.Valid() && |net.incoming| == |old(net.incoming)|
        invariant from <= |inbound.pushed| && ReadOk(client, net.received[fd], Heard(inbound.pushed, from, fd))
        invariant if client.active then client.writer == start.writer else client == DISCONNECTED && !more
        invariant Grown(old(net.received), net.received, fd)
        invariant OnlyFrom(old(inbound.pushed), inbound.pushed, fd)
        invariant Calls(old(net.recvs), net.recvs, fd, !client.active)
        invariant net.shortfalls + inbound.refusals == old(net.shortfalls + inbound.refusals) + if more then 0 else 1
        invariant net.shortfalls >= old(net.shortfalls) && inbound.refusals >= old(inbound.refusals)
        invariant client.active && !more ==> (client.reader.Complete() <==> inbound.refusals > old(inbound.refusals))
        decreases more, |net.incoming[fd]|, if client.reader.Complete() then 1 else 0
      {
        ghost var calls := net.recvs;
        client, more := Turn(fd, client, from);
        MoreCalls(old(net.recvs), calls, net.recvs, fd, !client.active);
      }
    }

    /** One turn of the loop: read, and push the message once it is complete. */
    method Turn(fd: nat, start: ClientState, ghost from: nat) returns (client: ClientState, more: bool)
      requires net.Valid() && fd < |net.incoming| && start.active && from <= |inbound.pushed|
      requires Tracks(start.reader, net.received[fd], Heard(inbound.pushed, from, fd))
      modifies net`incoming, net`received, net`shortfalls, net`recvs, inbound
      ensures net.Valid() && |net.incoming| == |old(net.incoming)|
      ensures from <= |inbound.pushed| && ReadOk(client, net.received[fd], Heard(inbound.pushed, from, fd))
      ensures if client.active then client.writer == start.writer else client == DISCONNECTED && !more
      ensures Grown(old(net.received), net.received, fd)
      ensures OnlyFrom(old(inbound.pushed), inbound.pushed, fd)
      ensures Calls(old(net.recvs), net.recvs, fd, !client.active)
      ensures |net.incoming[fd]| <= |old(net.incoming[fd])|
      ensures more ==>
        || |net.incoming[fd]| < |old(net.incoming[fd])|
        || (start.reader.Complete() && !client.reader.Complete())
      ensures net.shortfalls + inbound.refusals == old(net.shortfalls + inbound.refusals) + if more then 0 else 1
      ensures net.shortfalls >= old(net.shortfalls) && inbound.refusals >= old(inbound.refusals)
      ensures client.active && !more ==> (client.reader.Complete() <==> inbound.refusals > old(inbound.refusals))
    {
      client, more := start, false;
      var reader, outcome := ReadSome(fd, client.reader, Heard(inbound.pushed, from, fd));
      if outcome.Drop? {
        client := DISCONNECTED;
        return;
      }
      client := client.(reader := reader);
      if outcome.Wait? {
        return;
      }
      if reader.phase.Payload? {
        var ok := PushMessage(fd, reader, from);
        if !ok {
          return;
        }
        client := client.(reader := reader.(phase := Header, bytesRead := 0));
      }
      more := true;
    }

    /** Offers the completed message to the ring; the reader may forget it only when it was taken. */
    method PushMessage(fd: nat, reader: ReadState, ghost from: nat) returns (ok: bool)
      requires net.Valid() && fd < |net.received| && reader.Complete() && from <= |inbound.pushed|
      requires Tracks(reader, net.received[fd], Heard(inbound.pushed, from, fd))
      modifies inbound
      ensures from <= |inbound.pushed|
      ensures ok ==> Tracks(reader.Reset(), net.received[fd], Heard(inbound.pushed, from, fd))
      ensures !ok ==> inbound.pushed == old(inbound.pushed)
      ensures inbound.refusals == old(inbound.refusals) + if ok then 0 else 1
      ensures OnlyFrom(old(inbound.pushed), inbound.pushed, fd)
    {
      HeardSnoc(inbound.pushed, Inbound(fd, reader.kind, reader.body), from, fd);
      ResetTracks(reader, net.received[fd], Heard(inbound.pushed, from, fd));
      ok := inbound.TryPush(Inbound(fd, reader.kind, reader.body));
    }

    /** The reading part of one turn of the loop: header bytes, then payload bytes. */
    method ReadSome(fd: nat, start: ReadState, ghost frames: seq<RawFrame>)
      returns (reader: ReadState, outcome: Outcome)
      requires net.Valid() && fd < |net.incoming|
      requires Tracks(start, net.received[fd], frames)
      modifies net`incoming, net`received, net`shortfalls, net`recvs
      ensures net.Valid() && |net.incoming| == |old(net.incoming)|
      ensures Grown(old(net.received), net.received, fd)
      ensures Calls(old(net.recvs), net.recvs, fd, outcome.Drop?)
      ensures outcome.Drop? ==> frames <= NonEmpty(ParseAll(net.received[fd]).frames)
      ensures !outcome.Drop? ==> Tracks(reader, net.received[fd], frames)
      ensures outcome.Proceed? && reader.phase.Payload? ==> reader.Complete()
      ensures outcome.Wait? ==> !reader.Complete()
      ensures net.shortfalls == old(net.shortfalls) + if outcome.Proceed? then 0 else 1
      ensures outcome.Proceed? ==> |net.incoming[fd]| < |old(net.incoming[fd])| || (reader == start && start.Complete())
      ensures |net.incoming[fd]| <= |old(net.incoming[fd])|
    {
      reader, outcome := start, Proceed;
      if reader.phase.Header? {
        reader, outcome := ReadHeader(fd, reader, frames);
        OneRecvCalls(old(net.recvs), net.recvs, fd, start.Wanted(), outcome);
      }
      if outcome.Proceed? && reader.phase.Payload? && reader.bytesRead < reader.length {
        ghost var calls, wanted := net.recvs, reader.Wanted();
        reader, outcome := ReadPayload(fd, reader, frames);
        OneRecvCalls(calls, net.recvs, fd, wanted, outcome);
        MoreCalls(old(net.recvs), calls, net.recvs, fd, outcome.Drop?);
      }
    }

    /** One recv into header_buffer; on the fifth byte the payload phase is set up, or skipped for an empty payload. */
    method ReadHeader(fd: nat, start: ReadState, ghost frames: seq<RawFrame>)
      returns (reader: ReadState, outcome: Outcome)
      requires net.Valid() && fd < |net.incoming|
      requires Tracks(start, net.received[fd], frames) && start.phase.Header?
      modifies net`incoming, net`received, net`shortfalls, net`recvs
      ensures Progress(fd, old(net.incoming), old(net.received), start, reader, outcome, frames)
      ensures OneRecv(old(net.recvs), net.recvs, fd, start.Wanted(), outcome)
      ensures net.shortfalls == old(net.shortfalls) + if outcome.Proceed? then 0 else 1
      ensures outcome.Wait? ==> !reader.Complete()
      ensures net.Valid() && |net.incoming| == |old(net.incoming)|
    {
      reader := start;
      var r := net.Recv(fd, 5 - reader.bytesRead);
      match r {
        case Bytes(data) =>
          AbsorbTracks(start, old(net.received[fd]), frames, data);
          reader := reader.(header := CopyAt(reader.header, reader.bytesRead, data),
              bytesRead := reader.bytesRead + |data|);
        case WouldBlock =>
          return start, Wait;
        case _ =>
          TracksIsPrefix(start, net.received[fd], frames);
          return start, Drop;
      }
      if reader.bytesRead < 5 {
        return reader, Wait;
      }
      reader := reader.(kind := reader.header[0], length := FromBE32(reader.header[1..5]));
      reader := reader.(body := Resize(reader.body, reader.length), bytesRead := 0);
      reader := reader.(phase := if reader.length != 0 then Payload else Header);
      outcome := Proceed;
    }

    /** One recv into read_buffer. */
    method ReadPayload(fd: nat, start: ReadState, ghost frames: seq<RawFrame>)
      returns (reader: ReadState, outcome: Outcome)
      requires net.Valid() && fd < |net.incoming|
      requires Tracks(start, net.received[fd], frames) && start.phase.Payload? && start.bytesRead < start.length
      modifies net`incoming, net`received, net`shortfalls, net`recvs
      ensures Progress(fd, old(net.incoming), old(net.received), start, reader, outcome, frames)
      ensures OneRecv(old(net.recvs), net.recvs, fd, start.Wanted(), outcome)
      ensures net.shortfalls == old(net.shortfalls) + if outcome.Proceed? then 0 else 1
      ensures outcome.Wait? ==> !reader.Complete()
      ensures outcome.Proceed? ==> reader.Complete()
      ensures net.Valid() && |net.incoming| == |old(net.incoming)|
    {
      reader := start;
      var r := net.Recv(fd, reader.length - reader.bytesRead);
      match r {
        case Bytes(data) =>
          AbsorbTracks(start, old(net.received[fd]), frames, data);
          reader := reader.(body := CopyAt(reader.body, reader.bytesRead, data),
              bytesRead := reader.bytesRead + |data|);
        case WouldBlock =>
          return start, Wait;
        case _ =>
          TracksIsPrefix(start, net.received[fd], frames);
          return start, Drop;
      }
      outcome := if reader.bytesRead < reader.length then Wait else Proceed;
    }

    /** What one recv may do to a reader and its stream. */
    ghost predicate Progress(fd: nat, incoming: seq<seq<Byte>>, received: seq<seq<Byte>>,
                             start: ReadState, reader: ReadState, outcome: Outcome, frames: seq<RawFrame>)
      requires fd < |incoming| && |incoming| == |received|
      reads net
    {
      && |net.incoming| == |net.received| == |received|
      && Grown(received, net.received, fd)
      && (if outcome.Drop? then frames <= NonEmpty(ParseAll(net.received[fd]).frames)
          else Tracks(reader, net.received[fd], frames))
      && (outcome.Proceed? ==> |net.incoming[fd]| < |incoming[fd]|)
      && |net.incoming[fd]| <= |incoming[fd]|
    }
  }

  /** One recv for everything wanted; only a fatal result drops the client. */
  ghost predicate OneRecv(before: seq<Got>, now: seq<Got>, fd: nat, wanted: int, outcome: Outcome) {
    && |now| == |before| + 1 && before <= now
    && now[|before|].fd == fd && now[|before|].asked == wanted
    && (outcome.Drop? <==> now[|before|].result.Fatal())
  }

  lemma OneRecvCalls(before: seq<Got>, now: seq<Got>, fd: nat, wanted: int, outcome: Outcome)
    requires OneRecv(before, now, fd, wanted, outcome)
    ensures Calls(before, now, fd, outcome.Drop?)
  {
    assert now == before + [now[|before|]];
    OneCall(before, now[|before|]);
  }

  /** Only one connection's stream has grown. */
  ghost predicate Grown(before: seq<seq<Byte>>, now: seq<seq<Byte>>, fd: nat) {
    fd < |before| == |now| && now == before[fd := now[fd]] && before[fd] <= now[fd]
  }

  lemma TracksIsPrefix(st: ReadState, received: seq<Byte>, frames: seq<RawFrame>)
    requires Tracks(st, received, frames)
    ensures frames <= NonEmpty(ParseAll(received).frames)
  {}
}
