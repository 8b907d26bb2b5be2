/**
 What clients observe of the processor: what each response decodes to, and to whom executions are reported.
 */
module Routing {
  import opened Domain
  import opened BookSpec
  import opened BookInvariants
  import opened BookTheorems
  import opened WireCodec
  import opened Framing
  import opened Messages
  import opened Processor

  // ---- Responses ------------------------------------------------------------------------------

  /** The bytes are whole frames that decode to exactly these messages. */
  ghost predicate Says(bytes: seq<Byte>, ms: seq<WireMessage>) {
    ParseAll(bytes).leftover == [] && DecodeAll(ParseAll(bytes).frames) == Somes(ms)
  }

  lemma EncodedSays(ms: seq<WireMessage>)
    requires AllEncodable(ms)
    ensures Says(EncodeAll(ms), ms)
  {
    BatchRoundTrip([], ms);
    assert [] + EncodeAll(ms) == EncodeAll(ms);
    assert ParseAll(EncodeAll(ms)).frames[0..] == ParseAll(EncodeAll(ms)).frames;
  }

  lemma {:induction false} ReportsEncodable(ts: seq<Trade>)
    ensures AllEncodable(Reports(ts))
  {
    if ts != [] { ReportsEncodable(ts[1..]); }
  }

  lemma RejectionEncodable(p: seq<Byte>, id: OrderId)
    requires |p| >= 22 && DeserializeOrder(p).Failure?
    ensures AllEncodable([Rejection(id, Ascii(DeserializeOrder(p).error))])
  {
    OrderRead(p);
  }

  /** A message throws out of process exactly when its type byte is neither 1 (NEW_ORDER) nor 2 (CANCEL_ORDER). */
  lemma ThrowsIff(d: Desk, m: Inbound, now: nat -> Timestamp)
    requires WellFormedMessage(m)
    ensures Respond(d, m, now).None? <==> m.kind != 1 && m.kind != 2
  {}

  /** A NEW_ORDER is all or nothing. One without a quantity, a LIMIT one without a price and a MARKET one with a
      price change neither book nor routing and are answered by one rejection to their sender alone, with the
      reason. Any other keeps the book well-formed, and its sender's response, pushed last, decodes to its trades in
      order and then the acknowledgement. With an unlisted side it is acknowledged all the same, but there are no
      trades and the book does not change. */
  lemma NewOrderIsAllOrNothing(d: Desk, m: Inbound, now: nat -> Timestamp)
    requires WellFormedMessage(m) && m.kind == NEW_ORDER && WellFormed(d.book)
    ensures Respond(d, m, now).Some?
    ensures var r, p := Respond(d, m, now).value, m.payload;
            if Refused(p) then
              && r.desk == d && |r.outputs| == 1 && r.outputs[0].fd == m.fd
              && Says(r.outputs[0].payload, [Rejection(DeserializeId(p), Ascii(Reason(p)))])
            else if p[20] > 1 then
              && r.desk == Desk(d.book, d.routing[DeserializeId(p) := m.fd])
              && |r.outputs| == 1 && r.outputs[0].fd == m.fd
              && Says(r.outputs[0].payload, [OrderAck(DeserializeId(p))])
            else
              var order, ts := OrderIn(p), TradesFor(d.book, OrderIn(p), now);
              && r.desk.book == Match(d.book, order) && WellFormed(r.desk.book) && |r.outputs| == |ts| + 1
              && r.outputs[|ts|].fd == m.fd && Says(r.outputs[|ts|].payload, Reports(ts) + [OrderAck(order.id)])
  {
    OrderRead(m.payload);
    match DeserializeOrder(m.payload) {
      case Failure(error) =>
        RejectionEncodable(m.payload, DeserializeId(m.payload));
        EncodedSays([Rejection(DeserializeId(m.payload), Ascii(error))]);
      case Success(Inert(id)) =>
        EncodedSays([OrderAck(id)]);
      case Success(Live(order)) =>
        LiveResponse(d, m.fd, order, now);
    }
  }

  lemma LiveResponse(d: Desk, fd: int, order: Order, now: nat -> Timestamp)
    requires WellFormed(d.book) && order.Valid()
    ensures var ts := TradesFor(d.book, order, now);
            && WellFormed(Match(d.book, order)) && |AcceptedMakers(d, fd, order, now)| == |ts|
            && Says(AcceptedBatch(d, order, now), Reports(ts) + [OrderAck(order.id)])
  {
    var ts := TradesFor(d.book, order, now);
    MatchKeepsWellFormed(d.book, order);
    ReportsEncodable(ts);
    EncodedSays(Reports(ts) + [OrderAck(order.id)]);
    MakerMessagesAt(d.routing[order.id := fd], order.side, ts);
  }

  /** A type byte above 1 makes an order that trades like a MARKET order of its side and quantity, whatever its
      price. */
  lemma UnlistedTypeHasNoLimit(d: Desk, m: Inbound, now: nat -> Timestamp)
    requires WellFormedMessage(m) && m.kind == NEW_ORDER && m.payload[20] <= 1 && m.payload[21] > 1
    requires QuantityIn(m.payload) > 0
    ensures var market := Order(DeserializeId(m.payload), 0, QuantityIn(m.payload),
                                if m.payload[20] == 0 then Bid else Ask, Market);
            && Respond(d, m, now).Some?
            && Respond(d, m, now).value.desk.book == Match(d.book, market)
            && !Rests(d.book, market)
            && forall price :: Crosses(market, price)
  {}

  /** A cancellation of a known id takes it out of book and routing and is acknowledged; of an unknown id it is
      acknowledged and then rejected, with book and routing unchanged. Either way exactly one message goes to the
      sender. */
  lemma CancelResponse(d: Desk, m: Inbound, now: nat -> Timestamp)
    requires WellFormedMessage(m) && m.kind == CANCEL_ORDER
    ensures Respond(d, m, now).Some?
    ensures var r, id := Respond(d, m, now).value, DeserializeId(m.payload);
            && |r.outputs| == 1 && r.outputs[0].fd == m.fd
            && (id in d.book.index ==>
                  && Some(r.desk.book) == Cancel(d.book, id) && r.desk.routing == d.routing - {id}
                  && Says(r.outputs[0].payload, [CancelAck(id)]))
            && (id !in d.book.index ==> r.desk == d && Says(r.outputs[0].payload,
                  [CancelAck(id), Rejection(id, Ascii("order id not found in the book"))]))
  {
    var id := DeserializeId(m.payload);
    EncodedSays([CancelAck(id)]);
    EncodedSays([CancelAck(id), Rejection(id, Ascii("order id not found in the book"))]);
  }

  // ---- Routing --------------------------------------------------------------------------------

  function Known(routing: map<OrderId, int>, id: OrderId): int {
    Touch(routing, id)[id]
  }

  /** Each trade yields one maker frame, addressed by the routing map. */
  lemma {:induction false} MakerMessagesAt(routing: map<OrderId, int>, side: Side, ts: seq<Trade>)
    ensures |MakerMessages(routing, side, ts)| == |ts|
    ensures forall i :: 0 <= i < |ts| ==>
      MakerMessages(routing, side, ts)[i]
          == Outbound(Known(routing, Counterparty(side, ts[i])), Encode(TradeReport(ts[i])))
    decreases |ts|
  {
    if ts != [] {
      var routing' := Touch(routing, Counterparty(side, ts[0]));
      MakerMessagesAt(routing', side, ts[1..]);
      forall i | 1 <= i < |ts|
        ensures Known(routing', Counterparty(side, ts[i])) == Known(routing, Counterparty(side, ts[i]))
      {}
    }
  }

  lemma {:induction false} RoutedUnchanged(routing: map<OrderId, int>, side: Side, ts: seq<Trade>)
    requires forall i :: 0 <= i < |ts| ==> Counterparty(side, ts[i]) in routing
    ensures Routed(routing, side, ts) == routing
    decreases |ts|
  {
    if ts != [] {
      assert Counterparty(side, ts[0]) in routing;
      RoutedUnchanged(routing, side, ts[1..]);
    }
  }

  /** The map after looking up the counterparties: every entry as before, and descriptor 0 for each missing id. */
  lemma {:induction false} LookupsInsert(routing: map<OrderId, int>, side: Side, ts: seq<Trade>, id: OrderId)
    ensures var routing' := Routed(routing, side, ts);
            && (id in routing' <==> id in routing || exists i :: 0 <= i < |ts| && Counterparty(side, ts[i]) == id)
            && (id in routing' ==> routing'[id] == if id in routing then routing[id] else 0)
    decreases |ts|
  {
    if ts != [] {
      LookupsInsert(Touch(routing, Counterparty(side, ts[0])), side, ts[1..], id);
      assert forall i :: 0 <= i < |ts| - 1 ==> ts[1..][i] == ts[i + 1];
      assert forall i :: 1 <= i < |ts| ==> ts[i] == ts[1..][i - 1];
    }
  }

  /** Who submitted each resting order, by list node. */
  type Owners = map<nat, int>

  ghost predicate NodeRouted(d: Desk, owners: Owners, n: Node) {
    && n.handle in owners && n.order.id in d.routing
    && d.routing[n.order.id] == owners[n.handle]
  }

  ghost predicate SideRouted(d: Desk, owners: Owners, nodes: seq<Node>) {
    forall n :: n in nodes ==> NodeRouted(d, owners, n)
  }

  /** Every resting order's id leads to the client that submitted it. */
  ghost predicate RoutingOk(d: Desk, owners: Owners) {
    SideRouted(d, owners, d.book.bids) && SideRouted(d, owners, d.book.asks)
  }

  function OwnersAfter(d: Desk, owners: Owners, fd: int, order: Order): Owners {
    if Rests(d.book, order) then owners[d.book.next := fd] else owners
  }

  /** Each trade is reported to the client that submitted its maker. */
  ghost predicate MakersNotified(d: Desk, owners: Owners, fd: int, order: Order, now: nat -> Timestamp) {
    var fills, out := SweepBook(d.book, order).fills, AcceptedMakers(d, fd, order, now);
    && |out| == |fills|
    && forall i :: 0 <= i < |fills| ==>
         && fills[i].maker.handle in owners
         && out[i] == Outbound(owners[fills[i].maker.handle], Encode(TradeReport(TradesFor(d.book, order, now)[i])))
  }

  ghost predicate Foreign(owners: Owners, fd: int, id: OrderId, n: Node) {
    n.order.id == id && n.handle in owners && owners[n.handle] != fd
  }

  /** Another client's order with this id is resting. */
  ghost predicate ForeignDuplicate(d: Desk, owners: Owners, fd: int, id: OrderId) {
    || (exists n :: n in d.book.bids && Foreign(owners, fd, id, n))
    || (exists n :: n in d.book.asks && Foreign(owners, fd, id, n))
  }

  lemma OnSide(d: Desk, owners: Owners, fd: int, id: OrderId, side: Side, n: Node)
    requires RoutingOk(d, owners) && n in d.book.On(side)
    ensures NodeRouted(d, owners, n)
    ensures Foreign(owners, fd, id, n) ==> ForeignDuplicate(d, owners, fd, id)
  {}

  lemma MakersAreResting(d: Desk, order: Order, i: nat)
    requires WellFormed(d.book) && i < |SweepBook(d.book, order).fills|
    ensures SweepBook(d.book, order).fills[i].maker in d.book.On(order.side.Opposite())
  {
    var makers := d.book.On(order.side.Opposite());
    PositiveSide(d.book, order.side.Opposite());
    SweepIsWaterfall(order, order.quantity, makers);
    assert FillFits(order.quantity, makers, SweepBook(d.book, order).fills, i);
  }

  lemma TradeAt(d: Desk, order: Order, now: nat -> Timestamp, i: nat)
    requires i < |SweepBook(d.book, order).fills|
    ensures Counterparty(order.side, TradesFor(d.book, order, now)[i])
        == SweepBook(d.book, order).fills[i].maker.order.id
  {}

  lemma MakerAddress(d: Desk, owners: Owners, fd: int, order: Order, now: nat -> Timestamp, i: nat)
    requires WellFormed(d.book) && RoutingOk(d, owners) && i < |SweepBook(d.book, order).fills|
    ensures var maker := SweepBook(d.book, order).fills[i].maker;
            && |AcceptedMakers(d, fd, order, now)| == |SweepBook(d.book, order).fills|
            && maker.handle in owners
            && Counterparty(order.side, TradesFor(d.book, order, now)[i]) in d.routing[order.id := fd]
            && AcceptedMakers(d, fd, order, now)[i].fd
               == if maker.order.id == order.id then fd else owners[maker.handle]
  {
    var maker := SweepBook(d.book, order).fills[i].maker;
    MakersAreResting(d, order, i);
    OnSide(d, owners, fd, order.id, order.side.Opposite(), maker);
    TradeAt(d, order, now, i);
    MakerMessagesAt(d.routing[order.id := fd], order.side, TradesFor(d.book, order, now));
  }

  /** Looking up the counterparties never inserts a default entry. */
  lemma NoDefaultInsert(d: Desk, owners: Owners, fd: int, order: Order, now: nat -> Timestamp)
    requires WellFormed(d.book) && RoutingOk(d, owners)
    ensures AcceptedDesk(d, fd, order, now).routing == d.routing[order.id := fd]
  {
    var ts := TradesFor(d.book, order, now);
    forall i | 0 <= i < |ts|
      ensures Counterparty(order.side, ts[i]) in d.routing[order.id := fd]
    {
      MakerAddress(d, owners, fd, order, now, i);
    }
    RoutedUnchanged(d.routing[order.id := fd], order.side, ts);
  }

  /** A node resting after the match is the taker's remainder or was resting before under the same id and handle. */
  lemma AfterMatchOrigin(b: Book, order: Order, side: Side, n: Node)
    requires WellFormed(b) && order.Valid() && n in Match(b, order).On(side)
    ensures (Rests(b, order) && n.handle == b.next && n.order.id == order.id) || Survives(n, b.On(side))
  {
    var a, opp := AfterSweep(b, order), order.side.Opposite();
    SweepKeepsOrder(order, order.quantity, opp, b.On(opp), b.next);
    assert forall x :: x in b.On(side) ==> SamePlace(x, x);
    if Rests(b, order) && side == order.side {
      AfterSweepKeepsWellFormed(b, order);
      InsertKeepsSide(order.side, a.On(order.side), Node(b.next, order.(quantity := SweepBook(b, order).left)), b.next);
    }
  }

  lemma AfterMatchSurvivor(b: Book, order: Order, side: Side, n: Node)
    requires WellFormed(b) && order.Valid() && n in b.On(side)
    ensures Survives(n, Match(b, order).On(side))
        || (exists i :: 0 <= i < |SweepBook(b, order).fills| && SweepBook(b, order).fills[i].maker == n)
  {
    var a, opp := AfterSweep(b, order), order.side.Opposite();
    assert SamePlace(n, n);
    if side == opp {
      SweepAccountsForMaker(order, order.quantity, b.On(opp), n);
    }
    if Rests(b, order) && side == order.side {
      AfterSweepKeepsWellFormed(b, order);
      InsertKeepsSide(order.side, a.On(order.side), Node(b.next, order.(quantity := SweepBook(b, order).left)), b.next);
      assert n in Match(b, order).On(side);
    }
  }

  lemma FreshKeepsRouting(d: Desk, owners: Owners, fd: int, order: Order, now: nat -> Timestamp, side: Side, n: Node)
    requires WellFormed(d.book) && RoutingOk(d, owners) && order.Valid()
    requires !ForeignDuplicate(d, owners, fd, order.id) && n in Match(d.book, order).On(side)
    ensures NodeRouted(AcceptedDesk(d, fd, order, now), OwnersAfter(d, owners, fd, order), n)
  {
    NoDefaultInsert(d, owners, fd, order, now);
    AfterMatchOrigin(d.book, order, side, n);
    if Survives(n, d.book.On(side)) {
      var m :| m in d.book.On(side) && SamePlace(n, m);
      OnSide(d, owners, fd, order.id, side, m);
      assert NodeOk(side, d.book.next, m);
    }
  }

  lemma DuplicateBreaksRouting(d: Desk, owners: Owners, fd: int, order: Order, now: nat -> Timestamp, side: Side,
      n: Node)
    requires WellFormed(d.book) && RoutingOk(d, owners) && order.Valid()
    requires n in d.book.On(side) && Foreign(owners, fd, order.id, n)
    ensures !(RoutingOk(AcceptedDesk(d, fd, order, now), OwnersAfter(d, owners, fd, order))
              && MakersNotified(d, owners, fd, order, now))
  {
    AfterMatchSurvivor(d.book, order, side, n);
    NoDefaultInsert(d, owners, fd, order, now);
    assert NodeOk(side, d.book.next, n);
    if Survives(n, Match(d.book, order).On(side)) {
      var m :| m in Match(d.book, order).On(side) && SamePlace(n, m);
      assert !NodeRouted(AcceptedDesk(d, fd, order, now), OwnersAfter(d, owners, fd, order), m);
    } else {
      var i :| 0 <= i < |SweepBook(d.book, order).fills| && SweepBook(d.book, order).fills[i].maker == n;
      MakerAddress(d, owners, fd, order, now, i);
    }
  }

  /** An accepted order reports every trade to the client behind its maker, and leaves every resting id leading to
      its submitter, if and only if no other client has an order resting under the same id. */
  lemma AcceptRoutesIff(d: Desk, owners: Owners, fd: int, order: Order, now: nat -> Timestamp)
    requires WellFormed(d.book) && RoutingOk(d, owners) && order.Valid()
    ensures RoutingOk(AcceptedDesk(d, fd, order, now), OwnersAfter(d, owners, fd, order))
        && MakersNotified(d, owners, fd, order, now)
       <==> !ForeignDuplicate(d, owners, fd, order.id)
  {
    var d', owners' := AcceptedDesk(d, fd, order, now), OwnersAfter(d, owners, fd, order);
    if ForeignDuplicate(d, owners, fd, order.id) {
      if n :| n in d.book.bids && Foreign(owners, fd, order.id, n) {
        DuplicateBreaksRouting(d, owners, fd, order, now, Bid, n);
      } else {
        var n :| n in d.book.asks && Foreign(owners, fd, order.id, n);
        DuplicateBreaksRouting(d, owners, fd, order, now, Ask, n);
      }
    } else {
      forall n | n in d'.book.bids ensures NodeRouted(d', owners', n) {
        FreshKeepsRouting(d, owners, fd, order, now, Bid, n);
      }
      forall n | n in d'.book.asks ensures NodeRouted(d', owners', n) {
        FreshKeepsRouting(d, owners, fd, order, now, Ask, n);
      }
      var fills := SweepBook(d.book, order).fills;
      MakerMessagesAt(d.routing[order.id := fd], order.side, TradesFor(d.book, order, now));
      forall i | 0 <= i < |fills|
        ensures fills[i].maker.handle in owners
        ensures AcceptedMakers(d, fd, order, now)[i] ==
                Outbound(owners[fills[i].maker.handle], Encode(TradeReport(TradesFor(d.book, order, now)[i])))
      {
        MakerAddress(d, owners, fd, order, now, i);
        MakersAreResting(d, order, i);
        OnSide(d, owners, fd, order.id, order.side.Opposite(), fills[i].maker);
      }
    }
  }

  /** An acknowledged order with an unlisted side keeps the routing right under the same condition. */
  lemma InertRoutesIff(d: Desk, owners: Owners, fd: int, id: OrderId)
    requires RoutingOk(d, owners)
    ensures RoutingOk(InertDesk(d, fd, id), owners) <==> !ForeignDuplicate(d, owners, fd, id)
  {
    var d' := InertDesk(d, fd, id);
    if ForeignDuplicate(d, owners, fd, id) {
      if n :| n in d.book.bids && Foreign(owners, fd, id, n) {
        assert !NodeRouted(d', owners, n);
      } else {
        var n :| n in d.book.asks && Foreign(owners, fd, id, n);
        assert !NodeRouted(d', owners, n);
      }
    } else {
      forall n | n in d'.book.bids ensures NodeRouted(d', owners, n) { OnSide(d, owners, fd, id, Bid, n); }
      forall n | n in d'.book.asks ensures NodeRouted(d', owners, n) { OnSide(d, owners, fd, id, Ask, n); }
    }
  }

  ghost predicate SoleOn(b: Book, side: Side, id: OrderId)
    requires id in b.index
  {
    forall n :: n in b.On(side) && n.order.id == id ==> n.handle == b.index[id].handle
  }

  /** The indexed order is the only one resting under its id. */
  ghost predicate Sole(b: Book, id: OrderId)
    requires id in b.index
  {
    SoleOn(b, Bid, id) && SoleOn(b, Ask, id)
  }

  /** A cancellation leaves every resting id leading to its submitter if and only if the order it cancels is the
      only one resting under its id. */
  lemma CancelRoutesIff(d: Desk, owners: Owners, id: OrderId)
    requires WellFormed(d.book) && RoutingOk(d, owners) && id in d.book.index
    ensures RoutingOk(WithdrawnDesk(d, id), owners) <==> Sole(d.book, id)
  {
    WithdrawRoutesSideIff(d, owners, id, Bid);
    WithdrawRoutesSideIff(d, owners, id, Ask);
  }

  lemma WithdrawRoutesSideIff(d: Desk, owners: Owners, id: OrderId, side: Side)
    requires WellFormed(d.book) && RoutingOk(d, owners) && id in d.book.index
    ensures SideRouted(WithdrawnDesk(d, id), owners, WithdrawnDesk(d, id).book.On(side)) <==> SoleOn(d.book, side, id)
  {
    var d', loc := WithdrawnDesk(d, id), d.book.index[id];
    RemoveKeepsSide(loc.side, d.book.On(loc.side), loc.handle, d.book.next);
    assert EntryLive(d.book, id, loc);
    if SoleOn(d.book, side, id) {
      forall n | n in d'.book.On(side)
        ensures NodeRouted(d', owners, n)
      {
        OnSide(d, owners, 0, id, side, n);
        if n.order.id == id { IndexedHandleIsElsewhere(d.book, id, side, n); }
      }
    } else {
      var n :| n in d.book.On(side) && n.order.id == id && n.handle != loc.handle;
      assert n in d'.book.On(side) && !NodeRouted(d', owners, n);
    }
  }

  /** The handle of an index entry is found on the entry's side only. */
  lemma IndexedHandleIsElsewhere(b: Book, id: OrderId, side: Side, n: Node)
    requires WellFormed(b) && id in b.index && n in b.On(side) && n.handle == b.index[id].handle
    ensures side == b.index[id].side
  {
    assert EntryLive(b, id, b.index[id]);
  }

  lemma SoleWhenIndexed(b: Book, id: OrderId)
    requires WellFormed(b) && AllIndexed(b) && id in b.index
    ensures Sole(b, id)
  {
    forall n | n in b.On(Bid) && n.order.id == id ensures n.handle == b.index[id].handle { assert Indexed(b, Bid, n); }
    forall n | n in b.On(Ask) && n.order.id == id ensures n.handle == b.index[id].handle { assert Indexed(b, Ask, n); }
  }

  // ---- One message ----------------------------------------------------------------------------

  /** The order a message submits, if the constructor accepts it. */
  function TicketOf(m: Inbound): Option<Ticket>
    requires WellFormedMessage(m)
  {
    if m.kind == NEW_ORDER && DeserializeOrder(m.payload).Success? then
      Some(DeserializeOrder(m.payload).value)
    else None
  }

  function TicketId(t: Ticket): OrderId {
    match t
    case Live(order) => order.id
    case Inert(id) => id
  }

  /** The message submits no order under the id of one then resting. */
  ghost predicate FreshId(d: Desk, m: Inbound)
    requires WellFormedMessage(m)
  {
    TicketOf(m).Some? ==> !RestingId(d.book, TicketId(TicketOf(m).value))
  }

  function OwnersAfterMessage(d: Desk, owners: Owners, m: Inbound): Owners
    requires WellFormedMessage(m)
  {
    match TicketOf(m)
    case Some(Live(order)) => OwnersAfter(d, owners, m.fd, order)
    case _ => owners
  }

  /** Every resting order is indexed and leads to its submitter. */
  ghost predicate InOrder(d: Desk, owners: Owners) {
    WellFormed(d.book) && AllIndexed(d.book) && RoutingOk(d, owners)
  }

  lemma FreshIsNotForeign(d: Desk, owners: Owners, fd: int, id: OrderId)
    requires !RestingId(d.book, id)
    ensures !ForeignDuplicate(d, owners, fd, id)
  {
    assert forall n :: n in d.book.bids ==> n.order.id != id;
    assert forall n :: n in d.book.asks ==> n.order.id != id;
  }

  lemma LiveRoutes(d: Desk, owners: Owners, fd: int, order: Order, now: nat -> Timestamp)
    requires InOrder(d, owners) && order.Valid() && !RestingId(d.book, order.id)
    ensures InOrder(AcceptedDesk(d, fd, order, now), OwnersAfter(d, owners, fd, order))
    ensures MakersNotified(d, owners, fd, order, now)
  {
    MatchKeepsWellFormed(d.book, order);
    FreshDoesNotCollide(d.book, order);
    MatchKeepsIndexedIff(d.book, order);
    FreshIsNotForeign(d, owners, fd, order.id);
    AcceptRoutesIff(d, owners, fd, order, now);
  }

  lemma WithdrawRoutes(d: Desk, owners: Owners, id: OrderId)
    requires InOrder(d, owners) && id in d.book.index
    ensures InOrder(WithdrawnDesk(d, id), owners)
  {
    CancelKeepsWellFormed(d.book, id);
    CancelKeepsIndexed(d.book, id);
    SoleWhenIndexed(d.book, id);
    CancelRoutesIff(d, owners, id);
  }

  /** A message that reuses no resting id leaves every resting order indexed and routed, and reports every trade to the
      client that submitted its maker. */
  lemma MessageRoutes(d: Desk, owners: Owners, m: Inbound, now: nat -> Timestamp)
    requires WellFormedMessage(m) && InOrder(d, owners) && FreshId(d, m) && Respond(d, m, now).Some?
    ensures InOrder(Respond(d, m, now).value.desk, OwnersAfterMessage(d, owners, m))
    ensures TicketOf(m).Some? && TicketOf(m).value.Live? ==>
      MakersNotified(d, owners, m.fd, TicketOf(m).value.order, now)
  {
    match TicketOf(m) {
      case Some(Live(order)) =>
        LiveRoutes(d, owners, m.fd, order, now);
      case Some(Inert(id)) =>
        FreshIsNotForeign(d, owners, m.fd, id);
        InertRoutesIff(d, owners, m.fd, id);
      case None =>
        if m.kind == CANCEL_ORDER && DeserializeId(m.payload) in d.book.index {
          WithdrawRoutes(d, owners, DeserializeId(m.payload));
        }
    }
  }

  // ---- Where reuse goes wrong -----------------------------------------------------------------

  /** Two bids under id 7, the second of them worse. */
  lemma TwoBids(fd: int, fd': int, now: nat -> Timestamp) returns (d2: Desk)
    ensures var first, second := Order(7, 100, 5, Bid, Limit), Order(7, 99, 5, Bid, Limit);
            var d1 := AcceptedDesk(EMPTY_DESK, fd, first, now);
            && OwnersAfter(EMPTY_DESK, map[], fd, first) == map[0 := fd]
            && OwnersAfter(d1, map[0 := fd], fd', second) == map[0 := fd, 1 := fd']
            && d2 == AcceptedDesk(d1, fd', second, now)
            && d2 == Desk(Book([Node(0, first), Node(1, second)], [], map[7 := Location(Bid, 99, 1)], 2), map[7 := fd'])
  {
    var first, second := Order(7, 100, 5, Bid, Limit), Order(7, 99, 5, Bid, Limit);
    var m, n := Node(0, first), Node(1, second);
    var d1 := AcceptedDesk(EMPTY_DESK, fd, first, now);
    assert SweepBook(EMPTY_BOOK, first) == Swept([], [], 5);
    assert d1.book == Book([m], [], map[7 := Location(Bid, 100, 0)], 1) && d1.routing == map[7 := fd];
    assert SweepBook(d1.book, second) == Swept([], [], 5);
    d2 := AcceptedDesk(d1, fd', second, now);
    assert Insert(Bid, [m], n) == [m] + Insert(Bid, [], n);
    assert d2.book == Book([m, n], [], map[7 := Location(Bid, 99, 1)], 2) && d2.routing == map[7 := fd'];
  }

  /** Reusing another client's resting id does misroute: clients 3 and 4 both bid under id 7, an ask of client 5
      executes against client 3's order, and the report goes to client 4. */
  lemma DuplicateIdMisroutes(now: nat -> Timestamp)
    ensures var first, second := Order(7, 100, 5, Bid, Limit), Order(7, 99, 5, Bid, Limit);
            var ask := Order(8, 100, 5, Ask, Limit);
            var d1 := AcceptedDesk(EMPTY_DESK, 3, first, now);
            var d2 := AcceptedDesk(d1, 4, second, now);
            && OwnersAfter(d1, OwnersAfter(EMPTY_DESK, map[], 3, first), 4, second) == map[0 := 3, 1 := 4]
            && SweepBook(d2.book, ask).fills == [Fill(Node(0, first), 5)]
            && |AcceptedMakers(d2, 5, ask, now)| == 1 && AcceptedMakers(d2, 5, ask, now)[0].fd == 4
  {
    var first, second, ask := Order(7, 100, 5, Bid, Limit), Order(7, 99, 5, Bid, Limit), Order(8, 100, 5, Ask, Limit);
    var m, n := Node(0, first), Node(1, second);
    var d2 := TwoBids(3, 4, now);
    assert Sweep(ask, 0, [m, n][1..]) == Swept([], [m, n][1..], 0);
    assert SweepBook(d2.book, ask).fills == [Fill(m, 5)] + [];
    MakerMessagesAt(d2.routing[8 := 5], Ask, TradesFor(d2.book, ask, now));
  }

  /** Cancelling under a reused id is worse: client 3 bids twice under id 7 and cancels 7, which removes the second
      bid and the routing entry of both. An ask of client 5 then executes against the first bid; the lookup inserts
      descriptor 0 and the report goes there. */
  lemma CancelOrphansDuplicate(now: nat -> Timestamp)
    ensures var first, second := Order(7, 100, 5, Bid, Limit), Order(7, 99, 5, Bid, Limit);
            var ask := Order(8, 100, 5, Ask, Limit);
            var d2 := AcceptedDesk(AcceptedDesk(EMPTY_DESK, 3, first, now), 3, second, now);
            var d3 := WithdrawnDesk(d2, 7);
            && 7 in d2.book.index && !Sole(d2.book, 7)
            && 7 !in d3.routing && d3.book.bids == [Node(0, first)]
            && SweepBook(d3.book, ask).fills == [Fill(Node(0, first), 5)]
            && |AcceptedMakers(d3, 5, ask, now)| == 1 && AcceptedMakers(d3, 5, ask, now)[0].fd == 0
  {
    var first, second := Order(7, 100, 5, Bid, Limit), Order(7, 99, 5, Bid, Limit);
    var ask := Order(8, 100, 5, Ask, Limit);
    var m, n := Node(0, first), Node(1, second);
    var d2 := TwoBids(3, 3, now);
    assert m in d2.book.On(Bid) && m.order.id == 7 && m.handle != d2.book.index[7].handle;
    var d3 := WithdrawnDesk(d2, 7);
    assert Remove([m, n], 1) == [m] + Remove([m, n][1..], 1);
    assert d3 == Desk(Book([m], [], map[], 2), map[]);
    assert Sweep(ask, 0, [m][1..]) == Swept([], [m][1..], 0);
    assert SweepBook(d3.book, ask).fills == [Fill(m, 5)] + [];
    MakerMessagesAt(d3.routing[8 := 5], Ask, TradesFor(d3.book, ask, now));
  }
}
