/**
 OrderProcessor: one inbound message in, the book and the routing map updated, outbound messages out.
 Respond is the sequential meaning of a message; the class below is the source's code proved equal to it.
 */
module Processor {
  import opened Domain
  import opened BookSpec
  import opened Engine
  import opened WireCodec
  import opened Framing
  import opened Serializer
  import opened Messages
  import opened Environment

  /** The processor's state: the book and order_to_client_fd_. */
  datatype Desk = Desk(book: Book, routing: map<OrderId, int>)

  const EMPTY_DESK := Desk(EMPTY_BOOK, map[])

  datatype Reply = Reply(desk: Desk, outputs: seq<Outbound>)

  /** Payloads long enough for their type. */
  predicate WellFormedMessage(m: Inbound) {
    && (m.kind == NEW_ORDER ==> |m.payload| >= 22)
    && (m.kind == CANCEL_ORDER ==> |m.payload| >= 8)
  }

  /** An exception's what() as bytes. */
  function Ascii(s: string): (b: seq<Byte>)
    ensures |b| == |s| && forall i :: 0 <= i < |s| && s[i] as int < 256 ==> b[i] == s[i] as int
  {
    seq(|s|, i requires 0 <= i < |s| => (s[i] as int) % 256)
  }

  /** For instance, what the sender of an unknown id's cancellation reads. */
  lemma ReasonBytes()
    ensures Ascii("order id not found in the book") ==
      [111, 114, 100, 101, 114, 32, 105, 100, 32, 110, 111, 116, 32, 102, 111, 117, 110, 100, 32,
       105, 110, 32, 116, 104, 101, 32, 98, 111, 111, 107]
  {}

  // ---- Trades and routing ---------------------------------------------------------------------

  /** The maker's id in a trade, by the taker's side. */
  function Counterparty(side: Side, t: Trade): OrderId {
    if side.Ask? then t.buyer else t.seller
  }

  /** operator[] on the routing map: a missing id is inserted with descriptor 0. */
  function Touch(routing: map<OrderId, int>, id: OrderId): map<OrderId, int> {
    if id in routing then routing else routing[id := 0]
  }

  /** The routing map after looking up the counterparties of the trades. */
  function Routed(routing: map<OrderId, int>, side: Side, ts: seq<Trade>): map<OrderId, int>
    decreases |ts|
  {
    if ts == [] then routing else Routed(Touch(routing, Counterparty(side, ts[0])), side, ts[1..])
  }

  /** A trade's frame for the client that the map names for its maker. */
  function MakerMessage(routing: map<OrderId, int>, side: Side, t: Trade): Outbound {
    var id := Counterparty(side, t);
    Outbound(Touch(routing, id)[id], Encode(TradeReport(t)))
  }

  /** One frame per trade for the makers' clients. */
  function MakerMessages(routing: map<OrderId, int>, side: Side, ts: seq<Trade>): seq<Outbound>
    decreases |ts|
  {
    if ts == [] then []
    else
      [MakerMessage(routing, side, ts[0])] + MakerMessages(Touch(routing, Counterparty(side, ts[0])), side, ts[1..])
  }

  function Reports(ts: seq<Trade>): seq<WireMessage> {
    if ts == [] then [] else [TradeReport(ts[0])] + Reports(ts[1..])
  }

  // ---- One message ----------------------------------------------------------------------------

  function TradesFor(b: Book, order: Order, now: nat -> Timestamp): seq<Trade> {
    TradesOf(order, SweepBook(b, order).fills, 0, now)
  }

  /** The state after an accepted order: the submitter is recorded before the counterparties are looked up. */
  function AcceptedDesk(d: Desk, fd: int, order: Order, now: nat -> Timestamp): Desk {
    Desk(Match(d.book, order), Routed(d.routing[order.id := fd], order.side, TradesFor(d.book, order, now)))
  }

  function AcceptedMakers(d: Desk, fd: int, order: Order, now: nat -> Timestamp): seq<Outbound> {
    MakerMessages(d.routing[order.id := fd], order.side, TradesFor(d.book, order, now))
  }

  /** The taker's response: its trades in order, then the acknowledgement. */
  function AcceptedBatch(d: Desk, order: Order, now: nat -> Timestamp): seq<Byte> {
    EncodeAll(Reports(TradesFor(d.book, order, now)) + [OrderAck(order.id)])
  }

  /** An order with an unlisted side reaches the routing map only. */
  function InertDesk(d: Desk, fd: int, id: OrderId): Desk {
    d.(routing := d.routing[id := fd])
  }

  function WithdrawnDesk(d: Desk, id: OrderId): Desk {
    if id in d.book.index then Desk(Cancel(d.book, id).value, d.routing - {id}) else d
  }

  /** A failed cancellation is acknowledged first and rejected in the same response. */
  function WithdrawnBatch(d: Desk, id: OrderId): seq<Byte> {
    if id in d.book.index then EncodeAll([CancelAck(id)])
    else EncodeAll([CancelAck(id), Rejection(id, Ascii("order id not found in the book"))])
  }

  /** process; None is the exception that leaves it for an unknown message type. */
  function Respond(d: Desk, m: Inbound, now: nat -> Timestamp): Option<Reply>
    requires WellFormedMessage(m)
  {
    if m.kind == NEW_ORDER then
      match DeserializeOrder(m.payload)
      case Success(Live(order)) =>
        Some(Reply(AcceptedDesk(d, m.fd, order, now),
                   AcceptedMakers(d, m.fd, order, now) + [Outbound(m.fd, AcceptedBatch(d, order, now))]))
      case Success(Inert(id)) =>
        Some(Reply(InertDesk(d, m.fd, id), [Outbound(m.fd, EncodeAll([OrderAck(id)]))]))
      case Failure(error) =>
        Some(Reply(d, [Outbound(m.fd, EncodeAll([Rejection(DeserializeId(m.payload), Ascii(error))]))]))
    else if m.kind == CANCEL_ORDER then
      var id := DeserializeId(m.payload);
      Some(Reply(WithdrawnDesk(d, id), [Outbound(m.fd, WithdrawnBatch(d, id))]))
    else
      None
  }

  // ---- The class ------------------------------------------------------------------------------

  lemma {:induction false} ReportsAppend(xs: seq<Trade>, ys: seq<Trade>)
    ensures Reports(xs + ys) == Reports(xs) + Reports(ys)
  {
    if xs == [] {
      assert xs + ys == ys;
    } else {
      assert (xs + ys)[1..] == xs[1..] + ys;
      ReportsAppend(xs[1..], ys);
    }
  }

  lemma EncodeSnoc(ms: seq<WireMessage>, m: WireMessage)
    ensures EncodeAll(ms + [m]) == EncodeAll(ms) + Encode(m)
  {
    EncodeAllAppend(ms, [m]);
    EncodeOne(m);
  }

  lemma EncodeOne(m: WireMessage)
    ensures EncodeAll([m]) == Encode(m)
  {
    assert [m][1..] == [];
    assert EncodeAll([m]) == Encode(m) + [];
  }

  lemma EncodeTwo(m: WireMessage, n: WireMessage)
    ensures EncodeAll([m, n]) == Encode(m) + Encode(n)
  {
    assert [m, n][1..] == [n];
    EncodeOne(n);
  }

  lemma FromNothing(ts: seq<Trade>)
    ensures [] + ts == ts
  {}

  lemma Regroup(xs: seq<Outbound>, ys: seq<Outbound>, zs: seq<Outbound>)
    ensures xs + ys + zs == xs + (ys + zs)
  {}

  method Acknowledged(id: OrderId) returns (buffer: seq<Byte>)
    ensures buffer == EncodeAll([OrderAck(id)])
  {
    EncodeOne(OrderAck(id));
    buffer := SerializeAcknowledgement(id, []);
    assert buffer == Encode(OrderAck(id));
  }

  method Rejected(id: OrderId, error: string) returns (buffer: seq<Byte>)
    ensures buffer == EncodeAll([Rejection(id, Ascii(error))])
  {
    EncodeOne(Rejection(id, Ascii(error)));
    buffer := SerializeRejection(id, Ascii(error), []);
    assert buffer == Encode(Rejection(id, Ascii(error)));
  }

  class OrderProcessor {
    const book: OrderBook
    const engine: MatchingEngine
    const outbound: OutboundQueue
    var routing: map<OrderId, int>

    ghost predicate Valid()
      reads this, book
    {
      book.Valid() && engine.book == book
    }

    ghost function State(): Desk
      reads this, book
    {
      Desk(book.View(), routing)
    }

    constructor (book: OrderBook, engine: MatchingEngine, outbound: OutboundQueue)
      requires book.Valid() && engine.book == book
      ensures Valid() && this.book == book && this.outbound == outbound && routing == map[]
    {
      this.book, this.engine, this.outbound := book, engine, outbound;
      routing := map[];
    }

    /** process: a new state and new outbound messages as specified, or an exception that changes nothing. */
    method Process(m: Inbound, now: nat -> Timestamp) returns (thrown: bool)
      requires Valid() && WellFormedMessage(m)
      modifies this, book, outbound
      ensures Valid()
      ensures var r := Respond(old(State()), m, now);
              && (thrown <==> r.None?)
              && (thrown ==> State() == old(State()) && outbound.pushed == old(outbound.pushed))
              && (!thrown ==> State() == r.value.desk && outbound.pushed == old(outbound.pushed) + r.value.outputs)
    {
      thrown := false;
      var buffer: seq<Byte>;
      if m.kind == NEW_ORDER {
        buffer := TakeNewOrder(m, now);
      } else if m.kind == CANCEL_ORDER {
        buffer := TakeCancel(DeserializeId(m.payload));
      } else {
        return true;
      }
      Push(Outbound(m.fd, buffer));
    }

    /** Retries until the outbound ring takes the message. */
    method Push(m: Outbound)
      modifies outbound
      ensures outbound.pushed == old(outbound.pushed) + [m]
    {
      var ok := outbound.TryPush(m);
      while !ok
        invariant outbound.pushed == if ok then old(outbound.pushed) + [m] else old(outbound.pushed)
        decreases if ok then 0 else 1 + outbound.patience
      {
        ok := outbound.TryPush(m);
      }
    }

    /** The NEW_ORDER case up to the sender's own message: `buffer` is the response it will carry. */
    method TakeNewOrder(m: Inbound, now: nat -> Timestamp) returns (buffer: seq<Byte>)
      requires Valid() && WellFormedMessage(m) && m.kind == NEW_ORDER
      modifies this, book, outbound
      ensures Valid()
      ensures Respond(old(State()), m, now).Some?
      ensures var r := Respond(old(State()), m, now).value;
              && State() == r.desk
              && outbound.pushed + [Outbound(m.fd, buffer)] == old(outbound.pushed) + r.outputs
    {
      var rawId := DeserializeId(m.payload);
      match DeserializeOrder(m.payload) {
        case Success(Live(order)) =>
          ghost var d, first := State(), outbound.pushed;
          buffer := TakeOrder(order, m.fd, now);
          Regroup(first, AcceptedMakers(d, m.fd, order, now), [Outbound(m.fd, buffer)]);
        case Success(Inert(id)) =>
          routing := routing[id := m.fd];
          buffer := Acknowledged(id);
        case Failure(error) =>
          buffer := Rejected(rawId, error);
      }
    }

    /** A live order: match, record the submitter, then one frame per trade for each side. */
    method TakeOrder(order: Order, fd: int, now: nat -> Timestamp) returns (buffer: seq<Byte>)
      requires Valid() && order.Valid()
      modifies this, book, outbound
      ensures Valid()
      ensures State() == AcceptedDesk(old(State()), fd, order, now)
      ensures outbound.pushed == old(outbound.pushed) + AcceptedMakers(old(State()), fd, order, now)
      ensures buffer == AcceptedBatch(old(State()), order, now)
    {
      ghost var d := State();
      var trades := MatchFresh(order, now);
      routing := routing[order.id := fd];
      buffer := SendTrades(order.side, trades);
      EncodeSnoc(Reports(trades), OrderAck(order.id));
      buffer := SerializeAcknowledgement(order.id, buffer);
    }

    /** match, with a new vector of trades. */
    method MatchFresh(order: Order, now: nat -> Timestamp) returns (trades: seq<Trade>)
      requires Valid() && order.Valid()
      modifies book
      ensures Valid() && book.View() == Match(old(book.View()), order)
      ensures trades == TradesFor(old(book.View()), order, now)
    {
      ghost var expected := TradesFor(book.View(), order, now);
      FromNothing(expected);
      trades := engine.MatchOrder(order, [], now);
    }

    /** The loop over trades: the taker's batch grows by one frame, the maker's frame is pushed at once. */
    method SendTrades(side: Side, trades: seq<Trade>) returns (buffer: seq<Byte>)
      modifies this`routing, outbound
      ensures buffer == EncodeAll(Reports(trades))
      ensures routing == Routed(old(routing), side, trades)
      ensures outbound.pushed == old(outbound.pushed) + MakerMessages(old(routing), side, trades)
    {
      buffer := [];
      ghost var makers := [];
      BeginNotify(routing, side, trades);
      var k := 0;
      while k < |trades|
        invariant 0 <= k <= |trades|
        invariant outbound.pushed == old(outbound.pushed) + makers
        invariant Notified(old(routing), side, trades, k, buffer, routing, makers)
      {
        NotifyStep(old(routing), side, trades, k, buffer, routing, makers);
        ghost var maker;
        buffer, maker := SendTrade(side, trades[k], buffer);
        assert outbound.pushed == old(outbound.pushed) + (makers + [maker]);
        makers := makers + [maker];
        k := k + 1;
      }
      AllNotified(old(routing), side, trades, buffer, routing, makers);
    }

    /** One trade: a frame in the taker's batch, and a frame pushed to the client the map names for the maker. */
    method SendTrade(side: Side, trade: Trade, sofar: seq<Byte>) returns (buffer: seq<Byte>, maker: Outbound)
      modifies this`routing, outbound
      ensures buffer == sofar + Encode(TradeReport(trade))
      ensures routing == Touch(old(routing), Counterparty(side, trade))
      ensures maker == MakerMessage(old(routing), side, trade) && outbound.pushed == old(outbound.pushed) + [maker]
    {
      buffer := SerializeTrade(trade, sofar);
      var counterparty := SerializeTrade(trade, []);
      assert counterparty == Encode(TradeReport(trade));
      var id := if side.Ask? then trade.buyer else trade.seller;
      if id !in routing {
        routing := routing[id := 0];
      }
      maker := Outbound(routing[id], counterparty);
      Push(maker);
    }

    /** The CANCEL_ORDER case: the acknowledgement is written before the cancellation can fail. */
    method TakeCancel(id: OrderId) returns (buffer: seq<Byte>)
      requires Valid()
      modifies this`routing, book
      ensures Valid()
      ensures State() == WithdrawnDesk(old(State()), id)
      ensures buffer == WithdrawnBatch(old(State()), id)
    {
      EncodeOne(CancelAck(id));
      buffer := SerializeCancelAck(id, []);
      assert buffer == Encode(CancelAck(id));
      var r := book.CancelOrder(id);
      if r.Success? {
        routing := routing - {id};
      } else {
        EncodeTwo(CancelAck(id), Rejection(id, Ascii(r.error)));
        buffer := SerializeRejection(id, Ascii(r.error), buffer);
      }
    }
  }

  /** After the first k trades the batch is `buffer`, the map is `now` and the makers' messages are `makers`. */
  ghost predicate Notified(routing: map<OrderId, int>, side: Side, trades: seq<Trade>, k: nat,
                           buffer: seq<Byte>, now: map<OrderId, int>, makers: seq<Outbound>)
    requires k <= |trades|
  {
    && buffer == EncodeAll(Reports(trades[..k]))
    && Routed(now, side, trades[k..]) == Routed(routing, side, trades)
    && makers + MakerMessages(now, side, trades[k..]) == MakerMessages(routing, side, trades)
  }

  lemma BeginNotify(routing: map<OrderId, int>, side: Side, trades: seq<Trade>)
    ensures Notified(routing, side, trades, 0, [], routing, [])
  {
    assert trades[0..] == trades && trades[..0] == [];
    assert [] + MakerMessages(routing, side, trades) == MakerMessages(routing, side, trades);
  }

  lemma NotifyStep(routing: map<OrderId, int>, side: Side, trades: seq<Trade>, k: nat,
                   buffer: seq<Byte>, now: map<OrderId, int>, makers: seq<Outbound>)
    requires k < |trades| && Notified(routing, side, trades, k, buffer, now, makers)
    ensures Notified(routing, side, trades, k + 1, buffer + Encode(TradeReport(trades[k])),
                     Touch(now, Counterparty(side, trades[k])), makers + [MakerMessage(now, side, trades[k])])
  {
    TradeStep(trades, k);
    MakerStep(now, side, trades, k, makers);
  }

  lemma MakerStep(now: map<OrderId, int>, side: Side, trades: seq<Trade>, k: nat, makers: seq<Outbound>)
    requires k < |trades|
    ensures var now' := Touch(now, Counterparty(side, trades[k]));
            && Routed(now, side, trades[k..]) == Routed(now', side, trades[k + 1..])
            && makers + MakerMessages(now, side, trades[k..])
               == makers + [MakerMessage(now, side, trades[k])] + MakerMessages(now', side, trades[k + 1..])
  {
    assert trades[k..][0] == trades[k] && trades[k..][1..] == trades[k + 1..];
    var now' := Touch(now, Counterparty(side, trades[k]));
    Regroup(makers, [MakerMessage(now, side, trades[k])], MakerMessages(now', side, trades[k + 1..]));
  }

  lemma AllNotified(routing: map<OrderId, int>, side: Side, trades: seq<Trade>,
                    buffer: seq<Byte>, now: map<OrderId, int>, makers: seq<Outbound>)
    requires Notified(routing, side, trades, |trades|, buffer, now, makers)
    ensures buffer == EncodeAll(Reports(trades))
    ensures now == Routed(routing, side, trades) && makers == MakerMessages(routing, side, trades)
  {
    assert trades[..|trades|] == trades && trades[|trades|..] == [];
    assert makers + [] == makers;
  }

  lemma TradeStep(trades: seq<Trade>, k: nat)
    requires k < |trades|
    ensures EncodeAll(Reports(trades[..k + 1])) == EncodeAll(Reports(trades[..k])) + Encode(TradeReport(trades[k]))
  {
    assert trades[..k + 1] == trades[..k] + [trades[k]];
    ReportsAppend(trades[..k], [trades[k]]);
    assert [trades[k]][1..] == [];
    assert Reports([trades[k]]) == [TradeReport(trades[k])];
    EncodeSnoc(Reports(trades[..k]), TradeReport(trades[k]));
  }
}
