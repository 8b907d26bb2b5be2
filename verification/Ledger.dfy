/**
 Conservation of quantity over whole runs: whatever is submitted under an id is traded, still resting,
 cancelled, or dropped as the unfilled part of a MARKET order. Duplicate ids are allowed.
 */
module Ledger {
  import opened Domain
  import opened BookSpec
  import opened BookInvariants

  function If(c: bool, q: nat): nat {
    if c then q else 0
  }

  /** Quantity resting under an id on one side. */
  function Resting(nodes: seq<Node>, id: OrderId): nat {
    if nodes == [] then 0 else If(nodes[0].order.id == id, nodes[0].order.quantity) + Resting(nodes[1..], id)
  }

  function Held(b: Book, id: OrderId): nat {
    Resting(b.bids, id) + Resting(b.asks, id)
  }

  /** Quantity traded under an id: every trade has a buying and a selling leg. */
  function Legs(trades: seq<Trade>, id: OrderId): nat {
    if trades == [] then 0
    else If(trades[0].buyer == id, trades[0].quantity) + If(trades[0].seller == id, trades[0].quantity)
         + Legs(trades[1..], id)
  }

  // ---- The accounts of a run ------------------------------------------------------------------

  function Submitted(cs: seq<Command>, id: OrderId): nat {
    if cs == [] then 0
    else If(cs[0].Submit? && cs[0].order.id == id, if cs[0].Submit? then cs[0].order.quantity else 0)
         + Submitted(cs[1..], id)
  }

  /** All submissions of a run append to one vector of trades. */
  function RunTrades(b: Book, cs: seq<Command>, trades: seq<Trade>, now: nat -> Timestamp): seq<Trade>
    decreases |cs|
  {
    if cs == [] then trades
    else
      var more := match cs[0]
        case Submit(order) => TradesOf(order, SweepBook(b, order).fills, |trades|, now)
        case Withdraw(_) => [];
      RunTrades(Apply(b, cs[0]), cs[1..], trades + more, now)
  }

  function QuantityAt(nodes: seq<Node>, handle: nat): nat {
    if nodes == [] then 0
    else if nodes[0].handle == handle then nodes[0].order.quantity
    else QuantityAt(nodes[1..], handle)
  }

  function WithdrawnBy(b: Book, c: Command, id: OrderId): nat {
    if c.Withdraw? && c.id == id && id in b.index then
      QuantityAt(b.On(b.index[id].side), b.index[id].handle)
    else 0
  }

  function Withdrawn(b: Book, cs: seq<Command>, id: OrderId): nat
    decreases |cs|
  {
    if cs == [] then 0 else WithdrawnBy(b, cs[0], id) + Withdrawn(Apply(b, cs[0]), cs[1..], id)
  }

  /** The part of a MARKET order that found no counterparty. */
  function DiscardedBy(b: Book, c: Command, id: OrderId): nat {
    if c.Submit? && c.order.orderType.Market? && c.order.id == id then SweepBook(b, c.order).left else 0
  }

  function Discarded(b: Book, cs: seq<Command>, id: OrderId): nat
    decreases |cs|
  {
    if cs == [] then 0 else DiscardedBy(b, cs[0], id) + Discarded(Apply(b, cs[0]), cs[1..], id)
  }

  // ---- One sweep ------------------------------------------------------------------------------

  function MakerFilled(fills: seq<Fill>, id: OrderId): nat {
    if fills == [] then 0 else If(fills[0].maker.order.id == id, fills[0].quantity) + MakerFilled(fills[1..], id)
  }

  function TakerFilled(fills: seq<Fill>): nat {
    if fills == [] then 0 else fills[0].quantity + TakerFilled(fills[1..])
  }

  /** What a sweep takes from the makers and from the taker is exactly what it records as fills. */
  lemma {:induction false} SweepConserves(taker: Order, quantity: Quantity, makers: seq<Node>, id: OrderId)
    ensures var s := Sweep(taker, quantity, makers);
            && Resting(makers, id) == Resting(s.rest, id) + MakerFilled(s.fills, id)
            && quantity == TakerFilled(s.fills) + s.left
  {
    if quantity > 0 && makers != [] && Crosses(taker, makers[0].order.price) {
      var m := makers[0];
      if m.order.quantity <= quantity {
        var t := Sweep(taker, quantity - m.order.quantity, makers[1..]);
        SweepConserves(taker, quantity - m.order.quantity, makers[1..], id);
        assert ([Fill(m, m.order.quantity)] + t.fills)[1..] == t.fills;
      } else {
        assert ([Reduced(m, quantity)] + makers[1..])[1..] == makers[1..];
        assert [Fill(m, quantity)][1..] == [];
      }
    }
  }

  lemma {:induction false} LegsAppend(xs: seq<Trade>, ys: seq<Trade>, id: OrderId)
    ensures Legs(xs + ys, id) == Legs(xs, id) + Legs(ys, id)
  {
    if xs == [] {
      assert xs + ys == ys;
    } else {
      assert (xs + ys)[1..] == xs[1..] + ys;
      LegsAppend(xs[1..], ys, id);
    }
  }

  /** Each fill is one trade with one leg for the maker and one for the taker. */
  lemma {:induction false} TradeLegs(taker: Order, fills: seq<Fill>, base: nat, now: nat -> Timestamp, id: OrderId)
    ensures Legs(TradesOf(taker, fills, base, now), id)
        == MakerFilled(fills, id) + If(taker.id == id, TakerFilled(fills))
  {
    if fills != [] {
      TradeLegs(taker, fills[1..], base + 1, now, id);
      assert TradesOf(taker, fills, base, now)[1..] == TradesOf(taker, fills[1..], base + 1, now);
    }
  }

  lemma {:induction false} InsertConserves(side: Side, nodes: seq<Node>, n: Node, id: OrderId)
    ensures Resting(Insert(side, nodes, n), id) == Resting(nodes, id) + If(n.order.id == id, n.order.quantity)
  {
    if nodes == [] || Ahead(side, n.order.price, nodes[0].order.price) {
      assert ([n] + nodes)[1..] == nodes;
    } else {
      InsertConserves(side, nodes[1..], n, id);
      assert ([nodes[0]] + Insert(side, nodes[1..], n))[1..] == Insert(side, nodes[1..], n);
    }
  }

  lemma {:induction false} RemoveConserves(nodes: seq<Node>, c: Node, id: OrderId)
    requires UniqueHandles(nodes) && c in nodes
    ensures Resting(nodes, id) == Resting(Remove(nodes, c.handle), id) + If(c.order.id == id, c.order.quantity)
    ensures QuantityAt(nodes, c.handle) == c.order.quantity
  {
    if nodes[0].handle == c.handle {
      HandleIsIdentity(nodes, nodes[0], c);
    } else {
      RemoveConserves(nodes[1..], c, id);
      assert ([nodes[0]] + Remove(nodes[1..], c.handle))[1..] == Remove(nodes[1..], c.handle);
    }
  }

  // ---- One command ----------------------------------------------------------------------------

  lemma SubmitConserves(b: Book, taker: Order, id: OrderId)
    ensures var s := SweepBook(b, taker);
            Held(b, id) + If(taker.id == id, taker.quantity)
            == Held(Match(b, taker), id) + MakerFilled(s.fills, id) + If(taker.id == id, TakerFilled(s.fills))
               + DiscardedBy(b, Submit(taker), id)
  {
    var s, a := SweepBook(b, taker), AfterSweep(b, taker);
    SweepConserves(taker, taker.quantity, b.On(taker.side.Opposite()), id);
    if Rests(b, taker) {
      InsertConserves(taker.side, a.On(taker.side), Node(a.next, taker.(quantity := s.left)), id);
    }
  }

  lemma WithdrawConserves(b: Book, c: Command, id: OrderId)
    requires WellFormed(b) && c.Withdraw?
    ensures Held(b, id) == Held(Apply(b, c), id) + WithdrawnBy(b, c, id)
  {
    if c.id in b.index {
      var loc := b.index[c.id];
      assert EntryLive(b, c.id, loc);
      var n :| n in b.On(loc.side) && n.handle == loc.handle && n.order.id == c.id && n.order.price == loc.price;
      RemoveConserves(b.On(loc.side), n, id);
    }
  }

  // ---- Every run ------------------------------------------------------------------------------

  lemma {:induction false} RunConserves(b: Book, cs: seq<Command>, trades: seq<Trade>, now: nat -> Timestamp,
      id: OrderId)
    requires WellFormed(b) && ValidRun(cs)
    ensures Held(b, id) + Submitted(cs, id) + Legs(trades, id)
         == Held(Run(b, cs), id) + Legs(RunTrades(b, cs, trades, now), id) + Withdrawn(b, cs, id) + Discarded(b, cs, id)
    decreases |cs|
  {
    if cs != [] {
      assert cs[0] in cs && forall c :: c in cs[1..] ==> c in cs;
      ApplyKeepsWellFormed(b, cs[0]);
      match cs[0] {
        case Submit(order) =>
          var more := TradesOf(order, SweepBook(b, order).fills, |trades|, now);
          SubmitConserves(b, order, id);
          TradeLegs(order, SweepBook(b, order).fills, |trades|, now, id);
          LegsAppend(trades, more, id);
          RunConserves(Apply(b, cs[0]), cs[1..], trades + more, now, id);
        case Withdraw(_) =>
          WithdrawConserves(b, cs[0], id);
          assert trades + [] == trades;
          RunConserves(Apply(b, cs[0]), cs[1..], trades, now, id);
      }
    }
  }

  lemma ApplyKeepsWellFormed(b: Book, c: Command)
    requires WellFormed(b) && c.Valid()
    ensures WellFormed(Apply(b, c))
  {
    match c
    case Submit(order) => MatchKeepsWellFormed(b, order);
    case Withdraw(id) => if id in b.index { CancelKeepsWellFormed(b, id); }
  }

  /** From the empty book: submitted = traded + resting + cancelled + discarded, for every id and every run. */
  lemma NothingIsLostOrCreated(cs: seq<Command>, now: nat -> Timestamp, id: OrderId)
    requires ValidRun(cs)
    ensures Submitted(cs, id)
         == Legs(RunTrades(EMPTY_BOOK, cs, [], now), id) + Held(Run(EMPTY_BOOK, cs), id)
            + Withdrawn(EMPTY_BOOK, cs, id) + Discarded(EMPTY_BOOK, cs, id)
  {
    RunConserves(EMPTY_BOOK, cs, [], now, id);
  }
}
