/**
 What clients can read of the processor's work: every byte sent belongs to a frame that decodes, every trade is reported
 twice, once to each side, and the ledger balances against the reports.
 */
module Reporting {
  import opened Domain
  import opened BookSpec
  import opened Ledger
  import opened WireCodec
  import opened Framing
  import opened Messages
  import opened Processor
  import opened Routing
  import opened Sequential

  // ---- Everything sent decodes ----------------------------------------------------------------

  /** The payload is a batch of serialized messages. */
  ghost predicate Spoken(o: Outbound) {
    exists ms :: AllEncodable(ms) && o.payload == EncodeAll(ms)
  }

  ghost predicate AllSpoken(os: seq<Outbound>) {
    forall o :: o in os ==> Spoken(o)
  }

  lemma Speaks(fd: int, ms: seq<WireMessage>)
    requires AllEncodable(ms)
    ensures Spoken(Outbound(fd, EncodeAll(ms)))
  {}

  lemma {:induction false} MakersSpeak(routing: map<OrderId, int>, side: Side, ts: seq<Trade>)
    ensures AllSpoken(MakerMessages(routing, side, ts))
    decreases |ts|
  {
    if ts != [] {
      EncodeOne(TradeReport(ts[0]));
      Speaks(MakerMessage(routing, side, ts[0]).fd, [TradeReport(ts[0])]);
      MakersSpeak(Touch(routing, Counterparty(side, ts[0])), side, ts[1..]);
    }
  }

  lemma LiveSpeaks(d: Desk, fd: int, order: Order, now: nat -> Timestamp)
    ensures AllSpoken(LiveOutputs(d, fd, order, now))
  {
    var ts := TradesFor(d.book, order, now);
    MakersSpeak(d.routing[order.id := fd], order.side, ts);
    ReportsEncodable(ts);
    Speaks(fd, Reports(ts) + [OrderAck(order.id)]);
  }

  lemma RespondSpeaks(d: Desk, m: Inbound, now: nat -> Timestamp)
    requires WellFormedMessage(m) && Respond(d, m, now).Some?
    ensures AllSpoken(Respond(d, m, now).value.outputs)
  {
    var id := DeserializeId(m.payload);
    if m.kind == NEW_ORDER {
      match DeserializeOrder(m.payload)
      case Success(Live(order)) => LiveSpeaks(d, m.fd, order, now);
      case Success(Inert(i)) => Speaks(m.fd, [OrderAck(i)]);
      case Failure(error) =>
        RejectionEncodable(m.payload, id);
        Speaks(m.fd, [Rejection(id, Ascii(error))]);
    } else {
      Speaks(m.fd, [CancelAck(id)]);
      Speaks(m.fd, [CancelAck(id), Rejection(id, Ascii("order id not found in the book"))]);
    }
  }

  lemma {:induction false} ServeSpeaks(ms: seq<Inbound>, clock: Clock)
    requires AllWellFormed(ms)
    ensures AllSpoken(Serve(ms, clock).outputs)
    decreases |ms|
  {
    if ms != [] {
      var last := |ms| - 1;
      FrontWellFormed(ms);
      ServeSpeaks(ms[..last], clock);
      var before := Serve(ms[..last], clock);
      if !before.halted && Respond(before.desk, ms[last], clock(last)).Some? {
        RespondSpeaks(before.desk, ms[last], clock(last));
      }
    }
  }

  /** The bytes for one connection are a batch of messages. */
  lemma {:induction false} ConnectionSpeaks(os: seq<Outbound>, fd: int) returns (ms: seq<WireMessage>)
    requires AllSpoken(os)
    ensures AllEncodable(ms) && BytesFor(os, fd) == EncodeAll(ms)
    decreases |os|
  {
    if os == [] {
      ms := [];
    } else {
      assert os[0] in os && forall o :: o in os[1..] ==> o in os;
      ms := ConnectionSpeaks(os[1..], fd);
      if os[0].fd == fd {
        var first :| AllEncodable(first) && os[0].payload == EncodeAll(first);
        EncodeAllAppend(first, ms);
        ms := first + ms;
      }
    }
  }

  lemma {:induction false} DecodePrefix(xs: seq<RawFrame>, ys: seq<RawFrame>)
    requires xs <= ys
    ensures DecodeAll(xs) <= DecodeAll(ys)
  {
    if xs != [] {
      DecodePrefix(xs[1..], ys[1..]);
    }
  }

  lemma FramesOfPrefix(a: seq<Byte>, b: seq<Byte>)
    requires a <= b
    ensures ParseAll(a).frames <= ParseAll(b).frames
  {
    assert b == a + b[|a|..];
    ParseAppend(a, b[|a|..]);
  }

  /** Whatever part of a batch has arrived, its whole frames decode to the first messages of the batch. */
  lemma PrefixDecodes(bytes: seq<Byte>, ms: seq<WireMessage>)
    requires AllEncodable(ms) && bytes <= EncodeAll(ms)
    ensures DecodeAll(ParseAll(bytes).frames) <= Somes(ms)
  {
    FramesOfPrefix(bytes, EncodeAll(ms));
    DecodePrefix(ParseAll(bytes).frames, ParseAll(EncodeAll(ms)).frames);
    EncodedSays(ms);
  }

  // ---- Every trade is reported twice ----------------------------------------------------------

  /** The trades reported by decoded frames. */
  function TradesAmong(ds: seq<Option<WireMessage>>): seq<Trade> {
    if ds == [] then []
    else (match ds[0] case Some(TradeReport(t)) => [t] case _ => []) + TradesAmong(ds[1..])
  }

  function TradesIn(bytes: seq<Byte>): seq<Trade> {
    TradesAmong(DecodeAll(ParseAll(bytes).frames))
  }

  /** The trades that a reader of all outbound messages finds in them. */
  function Reported(os: seq<Outbound>): seq<Trade> {
    if os == [] then [] else TradesIn(os[0].payload) + Reported(os[1..])
  }

  lemma {:induction false} ReportedAppend(xs: seq<Outbound>, ys: seq<Outbound>)
    ensures Reported(xs + ys) == Reported(xs) + Reported(ys)
  {
    if xs == [] {
      assert xs + ys == ys;
    } else {
      assert (xs + ys)[1..] == xs[1..] + ys;
      ReportedAppend(xs[1..], ys);
    }
  }

  lemma ReportedOne(fd: int, ms: seq<WireMessage>)
    requires AllEncodable(ms)
    ensures Reported([Outbound(fd, EncodeAll(ms))]) == TradesAmong(Somes(ms))
  {
    EncodedSays(ms);
    var os := [Outbound(fd, EncodeAll(ms))];
    assert os[1..] == [];
    assert Reported(os) == TradesIn(EncodeAll(ms)) + [];
  }

  lemma {:induction false} BatchTrades(ts: seq<Trade>, id: OrderId)
    ensures TradesAmong(Somes(Reports(ts) + [OrderAck(id)])) == ts
  {
    var ms := Reports(ts) + [OrderAck(id)];
    if ts == [] {
      assert ms == [OrderAck(id)] && ms[1..] == [];
      assert Somes(ms) == [Some(OrderAck(id))];
    } else {
      BatchTrades(ts[1..], id);
      assert ms[1..] == Reports(ts[1..]) + [OrderAck(id)];
      assert Somes(ms)[1..] == Somes(ms[1..]);
    }
  }

  lemma OneTrade(t: Trade)
    ensures TradesAmong(Somes([TradeReport(t)])) == [t]
  {
    assert [TradeReport(t)][1..] == [];
    assert Somes([TradeReport(t)]) == [Some(TradeReport(t))];
    assert TradesAmong([Some(TradeReport(t))]) == [t] + TradesAmong([Some(TradeReport(t))][1..]);
  }

  lemma OneReport(fd: int, t: Trade)
    ensures Reported([Outbound(fd, Encode(TradeReport(t)))]) == [t]
  {
    EncodeOne(TradeReport(t));
    ReportedOne(fd, [TradeReport(t)]);
    OneTrade(t);
  }

  lemma {:induction false} MakersReport(routing: map<OrderId, int>, side: Side, ts: seq<Trade>)
    ensures Reported(MakerMessages(routing, side, ts)) == ts
    decreases |ts|
  {
    if ts != [] {
      var routing' := Touch(routing, Counterparty(side, ts[0]));
      var first := MakerMessage(routing, side, ts[0]);
      MakersReport(routing', side, ts[1..]);
      var later := MakerMessages(routing', side, ts[1..]);
      ReportFirst(first, ts[0], later, ts[1..]);
      assert ts == [ts[0]] + ts[1..];
    }
  }

  lemma ReportFirst(first: Outbound, t: Trade, later: seq<Outbound>, ts: seq<Trade>)
    requires first.payload == Encode(TradeReport(t)) && Reported(later) == ts
    ensures Reported([first] + later) == [t] + ts
  {
    OneReport(first.fd, t);
    ReportedAppend([first], later);
  }

  /** An order's trades are reported once by the makers' messages and once by its own response, in order. */
  lemma LiveReportsTwice(d: Desk, fd: int, order: Order, now: nat -> Timestamp)
    ensures Reported(LiveOutputs(d, fd, order, now)) == TradesFor(d.book, order, now) + TradesFor(d.book, order, now)
  {
    var ts := TradesFor(d.book, order, now);
    var ms := Reports(ts) + [OrderAck(order.id)];
    MakersReport(d.routing[order.id := fd], order.side, ts);
    ReportsEncodable(ts);
    ReportedOne(fd, ms);
    BatchTrades(ts, order.id);
    ReportedAppend(AcceptedMakers(d, fd, order, now), [Outbound(fd, EncodeAll(ms))]);
  }

  /** The trades a message makes. */
  function TradesBy(d: Desk, m: Inbound, now: nat -> Timestamp): seq<Trade>
    requires WellFormedMessage(m)
  {
    match TicketOf(m)
    case Some(Live(order)) => TradesFor(d.book, order, now)
    case _ => []
  }

  lemma NoTradesAmong(ms: seq<WireMessage>)
    requires |ms| <= 2 && forall m :: m in ms ==> !m.TradeReport?
    ensures TradesAmong(Somes(ms)) == []
  {
    if |ms| > 0 {
      assert ms[0] in ms;
      assert Somes(ms)[1..] == Somes(ms[1..]);
      if |ms| > 1 {
        assert ms[1] in ms && ms[1..][0] == ms[1];
        assert Somes(ms[1..])[1..] == Somes(ms[1..][1..]);
      }
    }
  }

  lemma QuietReply(fd: int, ms: seq<WireMessage>)
    requires AllEncodable(ms) && |ms| <= 2 && forall m :: m in ms ==> !m.TradeReport?
    ensures Reported([Outbound(fd, EncodeAll(ms))]) == []
  {
    ReportedOne(fd, ms);
    NoTradesAmong(ms);
  }

  lemma RespondReportsTwice(d: Desk, m: Inbound, now: nat -> Timestamp)
    requires WellFormedMessage(m) && Respond(d, m, now).Some?
    ensures Reported(Respond(d, m, now).value.outputs) == TradesBy(d, m, now) + TradesBy(d, m, now)
  {
    var id := DeserializeId(m.payload);
    if m.kind == NEW_ORDER {
      match DeserializeOrder(m.payload)
      case Success(Live(order)) => LiveReportsTwice(d, m.fd, order, now);
      case Success(Inert(i)) => QuietReply(m.fd, [OrderAck(i)]);
      case Failure(error) =>
        RejectionEncodable(m.payload, id);
        QuietReply(m.fd, [Rejection(id, Ascii(error))]);
    } else {
      QuietReply(m.fd, [CancelAck(id)]);
      QuietReply(m.fd, [CancelAck(id), Rejection(id, Ascii("order id not found in the book"))]);
    }
  }

  /** All trades of a run, as they happened. */
  ghost function TradesOfRun(ms: seq<Inbound>, clock: Clock): seq<Trade>
    requires AllWellFormed(ms)
    decreases |ms|
  {
    if ms == [] then []
    else
      var last := |ms| - 1;
      FrontWellFormed(ms);
      var before := Serve(ms[..last], clock);
      TradesOfRun(ms[..last], clock) + if before.halted then [] else TradesBy(before.desk, ms[last], clock(last))
  }

  /** Everything sent reports every trade exactly twice. */
  lemma {:induction false} ReportedTwice(ms: seq<Inbound>, clock: Clock, id: OrderId)
    requires AllWellFormed(ms)
    ensures Legs(Reported(Serve(ms, clock).outputs), id) == 2 * Legs(TradesOfRun(ms, clock), id)
    decreases |ms|
  {
    if ms != [] {
      var last := |ms| - 1;
      FrontWellFormed(ms);
      var before := Serve(ms[..last], clock);
      ReportedTwice(ms[..last], clock, id);
      if before.halted {
        assert TradesOfRun(ms[..last], clock) + [] == TradesOfRun(ms[..last], clock);
      } else {
        ReportStep(before, ms[last], clock(last), TradesOfRun(ms[..last], clock), id);
      }
    }
  }

  lemma ReportStep(s: Served, m: Inbound, now: nat -> Timestamp, trades: seq<Trade>, id: OrderId)
    requires WellFormedMessage(m) && !s.halted
    requires Legs(Reported(s.outputs), id) == 2 * Legs(trades, id)
    ensures Legs(Reported(ServeOne(s, m, now).outputs), id) == 2 * Legs(trades + TradesBy(s.desk, m, now), id)
  {
    var ts := TradesBy(s.desk, m, now);
    LegsAppend(trades, ts, id);
    match Respond(s.desk, m, now) {
      case Some(r) =>
        RespondReportsTwice(s.desk, m, now);
        ReportedAppend(s.outputs, r.outputs);
        LegsAppend(Reported(s.outputs), ts + ts, id);
        LegsAppend(ts, ts, id);
      case None =>
        assert ts == [];
    }
  }

  // ---- The ledger -----------------------------------------------------------------------------

  lemma {:induction false} RunTradesAppend(b: Book, xs: seq<Command>, ys: seq<Command>, ts: seq<Trade>,
      now: nat -> Timestamp)
    ensures RunTrades(b, xs + ys, ts, now) == RunTrades(Run(b, xs), ys, RunTrades(b, xs, ts, now), now)
    decreases |xs|
  {
    if xs == [] {
      assert xs + ys == ys;
    } else {
      assert (xs + ys)[1..] == xs[1..] + ys;
      var more := match xs[0]
        case Submit(order) => TradesOf(order, SweepBook(b, order).fills, |ts|, now)
        case Withdraw(_) => [];
      RunTradesAppend(Apply(b, xs[0]), xs[1..], ys, ts + more, now);
    }
  }

  /** Legs do not depend on when trades happen. */
  lemma CommandLegs(d: Desk, m: Inbound, ts: seq<Trade>, at: nat -> Timestamp, now: nat -> Timestamp, id: OrderId)
    requires WellFormedMessage(m)
    ensures Legs(RunTrades(d.book, CommandOf(m), ts, now), id) == Legs(ts, id) + Legs(TradesBy(d, m, at), id)
  {
    match TicketOf(m) {
      case Some(Live(order)) =>
        var fills := SweepBook(d.book, order).fills;
        TradeLegs(order, fills, 0, at, id);
        TradeLegs(order, fills, |ts|, now, id);
        LegsAppend(ts, TradesOf(order, fills, |ts|, now), id);
        assert [Submit(order)][1..] == [];
      case Some(Inert(_)) =>
      case None =>
        if m.kind == CANCEL_ORDER {
          assert CommandOf(m)[1..] == [] && ts + [] == ts;
        }
    }
  }

  lemma {:induction false} RunLegs(ms: seq<Inbound>, clock: Clock, now: nat -> Timestamp, id: OrderId)
    requires AllWellFormed(ms) && RanToEnd(ms, clock)
    ensures Legs(RunTrades(EMPTY_BOOK, CommandsOf(ms), [], now), id) == Legs(TradesOfRun(ms, clock), id)
    decreases |ms|
  {
    if ms != [] {
      var last := |ms| - 1;
      FrontWellFormed(ms);
      RanBefore(ms, clock);
      var before := Serve(ms[..last], clock);
      RunLegs(ms[..last], clock, now, id);
      ServeRunsCommands(ms[..last], clock);
      RunTradesAppend(EMPTY_BOOK, CommandsOf(ms[..last]), CommandOf(ms[last]), [], now);
      CommandLegs(before.desk, ms[last], RunTrades(EMPTY_BOOK, CommandsOf(ms[..last]), [], now), clock(last), now, id);
      LegsAppend(TradesOfRun(ms[..last], clock), TradesBy(before.desk, ms[last], clock(last)), id);
    }
  }

  /** What clients submitted, against what all reports sent say was traded: twice the quantity submitted under an id is
      what the reports account for under it, plus twice what is resting, cancelled or discarded. */
  lemma LedgerBalancesWithReports(ms: seq<Inbound>, clock: Clock, id: OrderId)
    requires AllWellFormed(ms) && RanToEnd(ms, clock)
    ensures var s, cs := Serve(ms, clock), CommandsOf(ms);
            2 * Submitted(cs, id) == Legs(Reported(s.outputs), id)
              + 2 * (Held(s.desk.book, id) + Withdrawn(EMPTY_BOOK, cs, id) + Discarded(EMPTY_BOOK, cs, id))
  {
    ServeRunsCommands(ms, clock);
    NothingIsLostOrCreated(CommandsOf(ms), _ => 0, id);
    RunLegs(ms, clock, _ => 0, id);
    ReportedTwice(ms, clock, id);
  }
}
