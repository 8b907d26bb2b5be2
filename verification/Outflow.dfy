/**
 The writing half of a connection: payloads drained from the outbound queue are appended to a buffer that
 partial sends empty. Safety of the byte stream, when EPOLLOUT is registered, and exactly when a client is dropped.
 */
module Outflow {
  import opened Domain

  /** What send returned: a positive count, zero, EAGAIN, or another error. */
  datatype SendResult = Accepted(n: nat) | Zero | Again | Failed

  /** What recv returned: some bytes, an orderly close, EAGAIN, or another error. */
  datatype RecvResult = Bytes(data: seq<Byte>) | Closed | WouldBlock | Broken
  {
    predicate Fatal() {
      Closed? || Broken?
    }
  }

  /** write_buffer, bytes_sent, and whether EPOLLOUT is registered. */
  datatype WriteState = WriteState(buffer: seq<Byte>, sent: nat, armed: bool)
  {
    predicate Ok() {
      sent <= |buffer| && (buffer != [] ==> sent < |buffer|)
    }

    function Unsent(): seq<Byte>
      requires sent <= |buffer|
    {
      buffer[sent..]
    }
  }

  /** A result send can produce when asked for `length` bytes. */
  predicate Possible(length: nat, r: SendResult) {
    r.Accepted? ==> 0 < r.n <= length
  }

  /** drain_outbound_queue for one payload. */
  function Append(w: WriteState, payload: seq<Byte>): WriteState {
    w.(buffer := w.buffer + payload)
  }

  /** try_send; None means the client is disconnected. */
  function TrySend(w: WriteState, r: SendResult): Option<WriteState> {
    if w.buffer == [] then Some(w)
    else match r
      case Accepted(n) =>
        if w.sent + n == |w.buffer| then Some(w.(buffer := [], sent := 0))
        else Some(w.(sent := w.sent + n, armed := true))
      case Again => Some(w)
      case Zero => None
      case Failed => None
  }

  /** handle_write; unlike try_send it sends even from an empty buffer. */
  function HandleWrite(w: WriteState, r: SendResult): Option<WriteState> {
    match r
    case Accepted(n) =>
      if w.sent + n < |w.buffer| then Some(w.(sent := w.sent + n))
      else Some(WriteState([], 0, false))
    case Again => Some(w)
    case Zero => None
    case Failed => None
  }

  /** handle_read after one recv: only a close or an error other than EAGAIN ends the connection. */
  function AfterRecv(w: WriteState, got: RecvResult): Option<WriteState> {
    match got
    case Bytes(_) => Some(w)
    case WouldBlock => Some(w)
    case Closed => None
    case Broken => None
  }

  /** The bytes a send moved into the socket. */
  function Moved(w: WriteState, r: SendResult): seq<Byte>
    requires w.Ok() && Possible(|w.buffer| - w.sent, r)
  {
    if r.Accepted? then w.buffer[w.sent..w.sent + r.n] else []
  }

  // ---- The life of one connection -------------------------------------------------------------

  /** What can happen to a connection: a payload is drained for it, try_send or handle_write is called, or handle_read
      calls recv. */
  datatype Event =
    | Drain(payload: seq<Byte>)
    | Flush(result: SendResult)
    | Writable(result: SendResult)
    | Readable(got: RecvResult)
  {
    predicate Sends() {
      Flush? || Writable?
    }
  }

  /** A connection with the bytes its socket accepted and the payload bytes drained for it. */
  datatype Outlet = Outlet(active: bool, writer: WriteState, accepted: seq<Byte>, drained: seq<Byte>)

  const FRESH_OUTLET := Outlet(true, WriteState([], 0, false), [], [])

  ghost predicate OutletOk(o: Outlet) {
    && o.writer.Ok()
    && (o.active ==> o.accepted + o.writer.Unsent() == o.drained)
    && (!o.active ==> o.accepted <= o.drained)
  }

  predicate Allowed(o: Outlet, e: Event) {
    o.active && e.Sends() && o.writer.sent <= |o.writer.buffer| ==>
      Possible(|o.writer.buffer| - o.writer.sent, e.result)
  }

  /** disconnect_client resets the state; nothing is written to it any more. */
  function Settle(o: Outlet, w: Option<WriteState>, moved: seq<Byte>): Outlet {
    match w
    case Some(w') => o.(writer := w', accepted := o.accepted + moved)
    case None => o.(active := false, writer := WriteState([], 0, false))
  }

  function Happen(o: Outlet, e: Event): Outlet
    requires o.writer.Ok() && Allowed(o, e)
  {
    if !o.active then o
    else match e
      case Drain(payload) => o.(writer := Append(o.writer, payload), drained := o.drained + payload)
      case Flush(r) => Settle(o, TrySend(o.writer, r), if o.writer.buffer == [] then [] else Moved(o.writer, r))
      case Writable(r) => Settle(o, HandleWrite(o.writer, r), Moved(o.writer, r))
      case Readable(got) => Settle(o, AfterRecv(o.writer, got), [])
  }

  lemma SendKeeps(w: WriteState, r: SendResult)
    requires w.Ok() && Possible(|w.buffer| - w.sent, r)
    ensures TrySend(w, r).Some? && w.buffer != [] ==>
      TrySend(w, r).value.Ok() && Moved(w, r) + TrySend(w, r).value.Unsent() == w.Unsent()
    ensures HandleWrite(w, r).Some? ==>
      HandleWrite(w, r).value.Ok() && Moved(w, r) + HandleWrite(w, r).value.Unsent() == w.Unsent()
  {}

  lemma SettleKeeps(o: Outlet, w: Option<WriteState>, moved: seq<Byte>)
    requires OutletOk(o) && o.active
    requires w.Some? ==> w.value.Ok() && moved + w.value.Unsent() == o.writer.Unsent()
    ensures OutletOk(Settle(o, w, moved))
  {
    if w.Some? {
      Reassociate(o.accepted, moved, w.value.Unsent());
    }
  }

  lemma Reassociate(xs: seq<Byte>, ys: seq<Byte>, zs: seq<Byte>)
    ensures xs + ys + zs == xs + (ys + zs)
  {}

  lemma DrainKeeps(o: Outlet, payload: seq<Byte>)
    requires OutletOk(o) && o.active
    ensures OutletOk(o.(writer := Append(o.writer, payload), drained := o.drained + payload))
  {
    assert Append(o.writer, payload).Unsent() == o.writer.Unsent() + payload;
    Reassociate(o.accepted, o.writer.Unsent(), payload);
  }

  lemma FlushKeeps(o: Outlet, r: SendResult)
    requires OutletOk(o) && o.active && Possible(|o.writer.buffer| - o.writer.sent, r)
    ensures OutletOk(Settle(o, TrySend(o.writer, r), if o.writer.buffer == [] then [] else Moved(o.writer, r)))
  {
    SendKeeps(o.writer, r);
    SettleKeeps(o, TrySend(o.writer, r), if o.writer.buffer == [] then [] else Moved(o.writer, r));
  }

  lemma WritableKeeps(o: Outlet, r: SendResult)
    requires OutletOk(o) && o.active && Possible(|o.writer.buffer| - o.writer.sent, r)
    ensures OutletOk(Settle(o, HandleWrite(o.writer, r), Moved(o.writer, r)))
  {
    SendKeeps(o.writer, r);
    SettleKeeps(o, HandleWrite(o.writer, r), Moved(o.writer, r));
  }

  lemma ReadableKeeps(o: Outlet, got: RecvResult)
    requires OutletOk(o) && o.active
    ensures OutletOk(Settle(o, AfterRecv(o.writer, got), []))
  {
    assert [] + o.writer.Unsent() == o.writer.Unsent();
    SettleKeeps(o, AfterRecv(o.writer, got), []);
  }

  lemma HappenKeeps(o: Outlet, e: Event)
    requires OutletOk(o) && Allowed(o, e)
    ensures OutletOk(Happen(o, e))
  {
    if o.active {
      match e {
        case Drain(payload) => DrainKeeps(o, payload);
        case Flush(r) => FlushKeeps(o, r);
        case Writable(r) => WritableKeeps(o, r);
        case Readable(got) => ReadableKeeps(o, got);
      }
    }
  }

  // ---- Every run ------------------------------------------------------------------------------

  ghost predicate Follows(o: Outlet, e: Event, o': Outlet) {
    o.writer.Ok() && Allowed(o, e) && o' == Happen(o, e)
  }

  /** A connection's history: its states, and the events between them. */
  ghost predicate Life(os: seq<Outlet>, es: seq<Event>) {
    |os| == |es| + 1 && forall i :: 0 <= i < |es| ==> Follows(os[i], es[i], os[i + 1])
  }

  /** For every pattern of partial sends, mixing try_send and handle_write: bytes accepted by the socket followed by
      the unsent part of the buffer are the payloads drained; after a disconnect the accepted bytes are a prefix. */
  lemma {:induction false} StreamIsSafe(os: seq<Outlet>, es: seq<Event>, n: nat)
    requires Life(os, es) && OutletOk(os[0]) && n <= |es|
    ensures OutletOk(os[n])
  {
    if n > 0 {
      StreamIsSafe(os, es, n - 1);
      assert Follows(os[n - 1], es[n - 1], os[n]);
      HappenKeeps(os[n - 1], es[n - 1]);
    }
  }

  // ---- When EPOLLOUT is registered ------------------------------------------------------------

  /** A try_send that sends a part of the buffer and not all of it. */
  predicate SendsPart(o: Outlet, e: Event) {
    && o.active && e.Flush? && o.writer.buffer != []
    && e.result.Accepted? && o.writer.sent + e.result.n < |o.writer.buffer|
  }

  /** A handle_write that sends the last of the buffer. */
  predicate Finishes(o: Outlet, e: Event) {
    && o.active && e.Writable? && e.result.Accepted? && o.writer.sent + e.result.n == |o.writer.buffer|
  }

  /** The j-th event was a partial try_send, and no handle_write has finished the buffer between it and the n-th. */
  ghost predicate Registered(os: seq<Outlet>, es: seq<Event>, j: nat, n: nat)
    requires Life(os, es)
  {
    j < n <= |es| && SendsPart(os[j], es[j]) && forall k :: j < k < n ==> !Finishes(os[k], es[k])
  }

  lemma ArmedStep(o: Outlet, e: Event)
    requires o.writer.Ok() && Allowed(o, e) && Happen(o, e).active
    ensures Happen(o, e).writer.armed <==> SendsPart(o, e) || (o.writer.armed && !Finishes(o, e))
  {}

  lemma ActiveBefore(o: Outlet, e: Event)
    requires o.writer.Ok() && Allowed(o, e) && Happen(o, e).active
    ensures o.active
  {}

  lemma {:induction false} ArmedIsRegistered(os: seq<Outlet>, es: seq<Event>, n: nat) returns (j: nat)
    requires Life(os, es) && os[0] == FRESH_OUTLET && n <= |es| && os[n].active && os[n].writer.armed
    ensures Registered(os, es, j, n)
  {
    var i := n - 1;
    assert Follows(os[i], es[i], os[n]);
    ArmedStep(os[i], es[i]);
    if SendsPart(os[i], es[i]) {
      j := i;
    } else {
      ActiveBefore(os[i], es[i]);
      j := ArmedIsRegistered(os, es, i);
    }
  }

  lemma {:induction false} RegisteredIsArmed(os: seq<Outlet>, es: seq<Event>, j: nat, n: nat)
    requires Life(os, es) && n <= |es| && os[n].active && Registered(os, es, j, n)
    ensures os[n].writer.armed
  {
    var i := n - 1;
    assert Follows(os[i], es[i], os[n]);
    ArmedStep(os[i], es[i]);
    if j < i {
      ActiveBefore(os[i], es[i]);
      RegisteredIsArmed(os, es, j, i);
    }
  }

  /** Over every history, EPOLLOUT is registered for a client if and only if some try_send sent only a part and no
      handle_write has finished the buffer since. */
  lemma EpolloutIff(os: seq<Outlet>, es: seq<Event>, n: nat)
    requires Life(os, es) && os[0] == FRESH_OUTLET && n <= |es| && os[n].active
    ensures os[n].writer.armed <==> exists j: nat :: Registered(os, es, j, n)
  {
    if os[n].writer.armed {
      var j := ArmedIsRegistered(os, es, n);
    }
    forall j: nat | Registered(os, es, j, n)
      ensures os[n].writer.armed
    {
      RegisteredIsArmed(os, es, j, n);
    }
  }

  /** Writable events come only while EPOLLOUT is registered. */
  predicate Polled(o: Outlet, e: Event) {
    o.active && e.Writable? ==> o.writer.armed
  }

  /** Whatever the peer does: the rest of a buffer sent in part always has EPOLLOUT registered, so a writable event can
      come for it. */
  lemma {:induction false} UnsentRestIsArmed(os: seq<Outlet>, es: seq<Event>, n: nat)
    requires Life(os, es) && os[0] == FRESH_OUTLET && n <= |es|
    requires forall i :: 0 <= i < |es| ==> Polled(os[i], es[i])
    ensures os[n].active && os[n].writer.sent > 0 ==> os[n].writer.armed
  {
    if n > 0 {
      UnsentRestIsArmed(os, es, n - 1);
      assert Follows(os[n - 1], es[n - 1], os[n]) && Polled(os[n - 1], es[n - 1]);
    }
  }

  // ---- When a client is dropped ---------------------------------------------------------------

  /** The calls that end a connection: a send that returns zero or fails, except that try_send does not send from an
      empty buffer, and a recv that reports a close or an error. */
  predicate Ends(o: Outlet, e: Event) {
    match e
    case Drain(_) => false
    case Flush(r) => o.writer.buffer != [] && (r.Zero? || r.Failed?)
    case Writable(r) => r.Zero? || r.Failed?
    case Readable(got) => got.Fatal()
  }

  lemma EndStep(o: Outlet, e: Event)
    requires o.writer.Ok() && Allowed(o, e)
    ensures !Happen(o, e).active <==> !o.active || Ends(o, e)
  {}

  /** Over every history, a client is gone if and only if one of those calls was made for it. */
  lemma {:induction false} ClientIsDroppedIff(os: seq<Outlet>, es: seq<Event>, n: nat)
    requires Life(os, es) && os[0].active && n <= |es|
    ensures !os[n].active <==> exists i :: 0 <= i < n && os[i].active && Ends(os[i], es[i])
  {
    if n > 0 {
      ClientIsDroppedIff(os, es, n - 1);
      assert Follows(os[n - 1], es[n - 1], os[n]);
      EndStep(os[n - 1], es[n - 1]);
    }
  }

  // ---- Dropping healthy clients ---------------------------------------------------------------

  /** A live peer: a non-empty send accepts something or would block; an empty send returns zero. */
  predicate Healthy(length: nat, r: SendResult) {
    if length == 0 then r.Zero? else r.Again? || (r.Accepted? && 0 < r.n <= length)
  }

  /** The event of a live peer under epoll: it neither closes nor errors. */
  predicate Benign(o: Outlet, e: Event) {
    && Polled(o, e)
    && (o.active && e.Sends() && o.writer.sent <= |o.writer.buffer| ==>
          Healthy(|o.writer.buffer| - o.writer.sent, e.result))
    && (e.Readable? ==> !e.got.Fatal())
  }

  /** The history of a connection whose peer is alive throughout. */
  ghost predicate BenignLife(os: seq<Outlet>, es: seq<Event>) {
    Life(os, es) && os[0] == FRESH_OUTLET && forall i :: 0 <= i < |es| ==> Benign(os[i], es[i])
  }

  /** A try_send that empties the buffer while EPOLLOUT is registered: it leaves the registration as it is. */
  predicate FinishesArmed(o: Outlet, e: Event) {
    && o.active && e.Flush? && o.writer.armed && o.writer.buffer != []
    && e.result.Accepted? && o.writer.sent + e.result.n == |o.writer.buffer|
  }

  predicate Refills(e: Event) {
    e.Drain? && e.payload != []
  }

  /** The j-th event was such a try_send, and nothing has been drained between it and the n-th. */
  ghost predicate Exposed(os: seq<Outlet>, es: seq<Event>, j: nat, n: nat)
    requires Life(os, es)
  {
    j < n <= |es| && FinishesArmed(os[j], es[j]) && forall k :: j < k < n ==> !Refills(es[k])
  }

  /** EPOLLOUT is registered over an empty buffer. */
  predicate Hollow(o: Outlet) {
    o.active && o.writer.armed && o.writer.buffer == []
  }

  /** With a healthy peer, handle_write disconnects exactly when it is called with nothing to send, and try_send
      never. */
  lemma HandleWriteDropsIff(w: WriteState, r: SendResult)
    requires w.Ok() && Healthy(|w.buffer| - w.sent, r)
    ensures HandleWrite(w, r).None? <==> w.buffer == []
    ensures TrySend(w, r).Some?
  {}

  /** What one event of a live peer does to the danger of being dropped. */
  lemma BenignStep(o: Outlet, e: Event)
    requires o.writer.Ok() && Allowed(o, e) && Benign(o, e)
    ensures var o' := Happen(o, e);
            && (!o'.active <==> !o.active || (e.Writable? && Hollow(o)))
            && (Hollow(o') <==> FinishesArmed(o, e) || (Hollow(o) && !Refills(e) && !e.Writable?))
  {
    if o.active && e.Sends() {
      HandleWriteDropsIff(o.writer, e.result);
    }
  }

  lemma {:induction false} HollowIsExposed(os: seq<Outlet>, es: seq<Event>, n: nat) returns (j: nat)
    requires BenignLife(os, es) && n <= |es| && Hollow(os[n])
    ensures Exposed(os, es, j, n)
  {
    assert Follows(os[n - 1], es[n - 1], os[n]);
    BenignStep(os[n - 1], es[n - 1]);
    if FinishesArmed(os[n - 1], es[n - 1]) {
      j := n - 1;
    } else {
      j := HollowIsExposed(os, es, n - 1);
    }
  }

  lemma {:induction false} ExposedIsHollow(os: seq<Outlet>, es: seq<Event>, j: nat, n: nat)
    requires BenignLife(os, es) && Exposed(os, es, j, n)
    ensures Hollow(os[n]) || !os[n].active
  {
    assert Follows(os[n - 1], es[n - 1], os[n]);
    BenignStep(os[n - 1], es[n - 1]);
    if n > j + 1 {
      ExposedIsHollow(os, es, j, n - 1);
    }
  }

  /** The i-th event, a writable one, finds the client as the j-th left it. */
  ghost predicate Struck(os: seq<Outlet>, es: seq<Event>, j: nat, i: nat)
    requires Life(os, es)
  {
    i < |es| && es[i].Writable? && Exposed(os, es, j, i)
  }

  lemma {:induction false} DroppedIsStruck(os: seq<Outlet>, es: seq<Event>, n: nat) returns (j: nat, i: nat)
    requires BenignLife(os, es) && n <= |es| && !os[n].active
    ensures i < n && Struck(os, es, j, i)
  {
    i := n - 1;
    assert Follows(os[i], es[i], os[n]);
    BenignStep(os[i], es[i]);
    if os[i].active {
      j := HollowIsExposed(os, es, i);
    } else {
      j, i := DroppedIsStruck(os, es, i);
    }
  }

  lemma {:induction false} StruckIsDropped(os: seq<Outlet>, es: seq<Event>, j: nat, i: nat, n: nat)
    requires BenignLife(os, es) && i < n <= |es| && Struck(os, es, j, i)
    ensures !os[n].active
  {
    assert Follows(os[n - 1], es[n - 1], os[n]);
    BenignStep(os[n - 1], es[n - 1]);
    if i == n - 1 {
      ExposedIsHollow(os, es, j, i);
    } else {
      StruckIsDropped(os, es, j, i, n - 1);
    }
  }

  /** A client whose peer is alive throughout, neither closing nor erring, is never dropped by reading, and is dropped
      at all if and only if some writable event comes after a try_send that emptied the buffer while EPOLLOUT was
      registered, with nothing drained for the client in between. */
  lemma HealthyClientIsDroppedIff(os: seq<Outlet>, es: seq<Event>, n: nat)
    requires BenignLife(os, es) && n <= |es|
    ensures !os[n].active <==> exists j: nat, i: nat :: i < n && Struck(os, es, j, i)
  {
    if !os[n].active {
      var j, i := DroppedIsStruck(os, es, n);
    }
    forall j: nat, i: nat | i < n && Struck(os, es, j, i)
      ensures !os[n].active
    {
      StruckIsDropped(os, es, j, i, n);
    }
  }
}
