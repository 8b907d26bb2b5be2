/**
 The order book and the matching engine as the source writes them: two ordered maps of FIFO lists, an
 id index and nested loops, updated in place. Every method is proved equal to one operation of BookSpec.
 */
module Engine {
  import opened Domain
  import opened BookSpec
  import opened BookInvariants
  import opened PriceLevels

  /** The flat book that the stored maps stand for. */
  ghost function BookOf(bids: Levels, asks: Levels, index: map<OrderId, Location>, next: nat): Book {
    Book(Flatten(Bid, bids), Flatten(Ask, asks), index, next)
  }

  ghost predicate Stored(bids: Levels, asks: Levels, index: map<OrderId, Location>, next: nat) {
    LevelsOk(bids) && LevelsOk(asks) && WellFormed(BookOf(bids, asks, index, next))
  }

  /** list.erase(position), then erasing the level if its list became empty. */
  method EraseAt(levels: Levels, price: Price, handle: nat) returns (levels': Levels)
    requires price in levels
    ensures levels' == EraseNode(levels, price, handle)
  {
    levels' := levels[price := Remove(levels[price], handle)];
    if levels'[price] == [] {
      levels' := levels' - {price};
    }
  }

  class OrderBook {
    var bids: Levels
    var asks: Levels
    var orderMap: map<OrderId, Location>
    var nextHandle: nat

    ghost function View(): Book
      reads this
    {
      BookOf(bids, asks, orderMap, nextHandle)
    }

    ghost predicate Valid()
      reads this
    {
      Stored(bids, asks, orderMap, nextHandle)
    }

    constructor ()
      ensures Valid() && View() == EMPTY_BOOK
    {
      bids, asks, orderMap, nextHandle := map[], map[], map[], 0;
    }

    method BestBid() returns (r: Option<Price>)
      requires Valid()
      ensures IsBest(Bid, r, View().bids)
    {
      FrontPrice(Bid, bids);
      FrontIsBest(Bid, View().bids, nextHandle);
      if bids != map[] {
        r := Some(Begin(Bid, bids));
      } else {
        r := None;
      }
    }

    method BestAsk() returns (r: Option<Price>)
      requires Valid()
      ensures IsBest(Ask, r, View().asks)
    {
      FrontPrice(Ask, asks);
      FrontIsBest(Ask, View().asks, nextHandle);
      if asks != map[] {
        r := Some(Begin(Ask, asks));
      } else {
        r := None;
      }
    }

    method AddOrder(order: Order)
      requires Valid() && order.Valid()
      modifies this
      ensures Valid() && View() == Add(old(View()), order)
    {
      if order.orderType.Limit? {
        var node := Node(nextHandle, order);
        AddRefines(bids, asks, orderMap, nextHandle, order);
        if order.side.Ask? {
          asks := PushBack(asks, node);
          orderMap := orderMap[order.id := Location(Ask, order.price, nextHandle)];
        } else {
          bids := PushBack(bids, node);
          orderMap := orderMap[order.id := Location(Bid, order.price, nextHandle)];
        }
        nextHandle := nextHandle + 1;
      }
    }

    method CancelOrder(id: OrderId) returns (r: Result<()>)
      requires Valid()
      modifies this
      ensures Valid()
      ensures r.Success? <==> Cancel(old(View()), id).Some?
      ensures View() == if r.Success? then Cancel(old(View()), id).value else old(View())
      ensures r.Failure? ==> r.error == "order id not found in the book"
    {
      if id in orderMap {
        var location := orderMap[id];
        CancelRefines(bids, asks, orderMap, nextHandle, id);
        if location.side.Ask? {
          asks := EraseAt(asks, location.price, location.handle);
        } else {
          bids := EraseAt(bids, location.price, location.handle);
        }
        orderMap := orderMap - {id};
        r := Success(());
      } else {
        r := Failure("order id not found in the book");
      }
    }
  }

  lemma PushBackOk(levels: Levels, n: Node)
    requires LevelsOk(levels) && n.order.quantity > 0
    ensures LevelsOk(PushBack(levels, n))
  {
    var p := n.order.price;
    if p in levels { assert ListOk(p, levels[p]); }
    assert ListOk(p, PushBack(levels, n)[p]);
  }

  lemma AddRefines(bids: Levels, asks: Levels, index: map<OrderId, Location>, next: nat, order: Order)
    requires Stored(bids, asks, index, next) && order.Valid() && order.orderType.Limit?
    ensures var n, index' := Node(next, order), index[order.id := Location(order.side, order.price, next)];
            var bids' := if order.side.Bid? then PushBack(bids, n) else bids;
            var asks' := if order.side.Ask? then PushBack(asks, n) else asks;
            && Stored(bids', asks', index', next + 1)
            && BookOf(bids', asks', index', next + 1) == Add(BookOf(bids, asks, index, next), order)
  {
    var n := Node(next, order);
    var levels := if order.side.Bid? then bids else asks;
    PushBackOk(levels, n);
    FlattenPushBack(order.side, levels, n);
    AddKeepsWellFormed(BookOf(bids, asks, index, next), order);
  }

  lemma EraseOk(levels: Levels, p: Price, handle: nat)
    requires LevelsOk(levels) && p in levels
    ensures LevelsOk(EraseNode(levels, p, handle))
  {
    RemoveMembers(levels[p], handle);
    assert ListOk(p, levels[p]);
  }

  lemma CancelRefines(bids: Levels, asks: Levels, index: map<OrderId, Location>, next: nat, id: OrderId)
    requires Stored(bids, asks, index, next) && id in index
    ensures var loc := index[id];
            && (if loc.side.Bid? then loc.price in bids else loc.price in asks)
            && var bids' := if loc.side.Bid? then EraseNode(bids, loc.price, loc.handle) else bids;
            var asks' := if loc.side.Ask? then EraseNode(asks, loc.price, loc.handle) else asks;
            && Stored(bids', asks', index - {id}, next)
            && BookOf(bids', asks', index - {id}, next) == Cancel(BookOf(bids, asks, index, next), id).value
  {
    var b, loc := BookOf(bids, asks, index, next), index[id];
    var levels := if loc.side.Bid? then bids else asks;
    EntryInLevels(loc.side, levels, b, id);
    EraseOk(levels, loc.price, loc.handle);
    FlattenErase(loc.side, levels, loc.price, loc.handle);
    CancelKeepsWellFormed(b, id);
  }

  lemma {:induction false} RemoveMembers(nodes: seq<Node>, handle: nat)
    ensures forall n :: n in Remove(nodes, handle) ==> n in nodes
  {
    if nodes != [] {
      RemoveMembers(nodes[1..], handle);
    }
  }

  /** An index entry's price names the one level whose list holds the entry's node. */
  lemma EntryInLevels(side: Side, levels: Levels, b: Book, id: OrderId)
    requires WellFormed(b) && id in b.index && b.index[id].side == side
    requires LevelsOk(levels) && b.On(side) == Flatten(side, levels)
    ensures var loc := b.index[id];
            && loc.price in levels && HasHandle(levels[loc.price], loc.handle)
            && forall q :: q in levels && q != loc.price ==> !HasHandle(levels[q], loc.handle)
  {
    var loc := b.index[id];
    assert EntryLive(b, id, loc);
    var n :| n in b.On(side) && n.handle == loc.handle && n.order.id == id && n.order.price == loc.price;
    FlatNodeLevel(side, levels, n);
    forall q | q in levels && HasHandle(levels[q], loc.handle)
      ensures q == loc.price
    {
      var m :| m in levels[q] && m.handle == loc.handle;
      LevelNodeFlat(side, levels, q, m);
      HandleIsIdentity(b.On(side), m, n);
      assert ListOk(q, levels[q]);
    }
  }

  // ---- The nested loops -----------------------------------------------------------------------

  /** After the fills `done`, sweeping what is left of the taker along `nodes` completes `total`. */
  ghost predicate Continues(order: Order, total: Swept, done: seq<Fill>, remaining: Quantity, nodes: seq<Node>) {
    var s := Sweep(order, remaining, nodes);
    total.fills == done + s.fills && total.rest == s.rest && total.left == s.left
  }

  lemma FillStep(order: Order, total: Swept, done: seq<Fill>, remaining: Quantity, m: Node, tail: seq<Node>)
    requires Continues(order, total, done, remaining, [m] + tail)
    requires remaining > 0 && Crosses(order, m.order.price)
    ensures var f: Quantity := Min(m.order.quantity, remaining);
            var front := if f == m.order.quantity then [] else [Reduced(m, f)];
            Continues(order, total, done + [Fill(m, f)], remaining - f, front + tail)
  {
    var f: Quantity := Min(m.order.quantity, remaining);
    assert ([m] + tail)[1..] == tail;
    if f == m.order.quantity {
      var t := Sweep(order, remaining - f, tail);
      assert [] + tail == tail;
      assert done + ([Fill(m, f)] + t.fills) == done + [Fill(m, f)] + t.fills;
    } else {
      assert done + [Fill(m, f)] == done + [Fill(m, f)] + [];
    }
  }

  /** What one execution leaves of the front level. */
  function AfterFill(list: seq<Node>, f: Quantity): seq<Node>
    requires list != [] && f <= list[0].order.quantity
  {
    if f == list[0].order.quantity then list[1..] else [Reduced(list[0], f)] + list[1..]
  }

  /** The inner loop's invariant: `best` is the front level, its list may be running empty, every other
      level is intact, and what remains of the flat side completes the sweep. */
  ghost predicate Filling(side: Side, levels: Levels, best: Price, order: Order, total: Swept,
                          done: seq<Fill>, remaining: Quantity) {
    && IsBegin(side, levels, best)
    && ListOk(best, levels[best])
    && LevelsOk(levels - {best})
    && Continues(order, total, done, remaining, Flatten(side, levels))
  }

  lemma FrontOut(list: seq<Node>, f: Quantity, others: seq<Node>)
    requires list != [] && f <= list[0].order.quantity
    ensures list + others == [list[0]] + (list[1..] + others)
    ensures AfterFill(list, f) + others
         == (if f == list[0].order.quantity then [] else [Reduced(list[0], f)]) + (list[1..] + others)
  {}

  lemma FillFront(side: Side, levels: Levels, best: Price, order: Order, total: Swept,
                  done: seq<Fill>, remaining: Quantity)
    requires Filling(side, levels, best, order, total, done, remaining)
    requires remaining > 0 && levels[best] != [] && Crosses(order, best)
    ensures var m := levels[best][0];
            var f: Quantity := Min(m.order.quantity, remaining);
            && f > 0
            && Filling(side, levels[best := AfterFill(levels[best], f)], best, order, total,
                       done + [Fill(m, f)], remaining - f)
  {
    var list := levels[best];
    var m := list[0];
    assert m in list;
    var f: Quantity := Min(m.order.quantity, remaining);
    var others := Flatten(side, levels - {best});
    FlattenAtBegin(side, levels, best);
    FrontOut(list, f, others);
    FillStep(order, total, done, remaining, m, list[1..] + others);
    var list' := AfterFill(list, f);
    FlattenUpdateBegin(side, levels, best, list');
    assert ListOk(best, list') by {
      assert forall n :: n in list[1..] ==> n in list;
    }
  }

  lemma TradesOfSnoc(order: Order, done: seq<Fill>, f: Fill, base: nat, now: nat -> Timestamp)
    ensures TradesOf(order, done + [f], base, now)
        == TradesOf(order, done, base, now) + [TradeOf(order, f, now(base + |done|))]
  {}

  lemma ExhaustedIdsSnoc(done: seq<Fill>, f: Fill)
    ensures ExhaustedIds(done + [f]) == ExhaustedIds(done) + if f.Exhausts() then {f.maker.order.id} else {}
  {
    assert forall g :: g in done + [f] <==> g in done || g == f;
  }

  /** What one call of match started from: the side it sweeps, the index, the trades already collected. */
  datatype Start = Start(side: Side, order: Order, levels: Levels, index: map<OrderId, Location>,
                         trades: seq<Trade>, now: nat -> Timestamp)
  {
    ghost function Total(): Swept {
      Sweep(order, order.quantity, Flatten(side, levels))
    }

    /** Index and trades after the fills `done`. */
    ghost predicate Booked(done: seq<Fill>, index': map<OrderId, Location>, trades': seq<Trade>) {
      && index' == index - ExhaustedIds(done)
      && trades' == trades + TradesOf(order, done, |trades|, now)
    }
  }

  /** The outer loop's invariant. */
  ghost predicate Sweeping(start: Start, done: seq<Fill>, remaining: Quantity,
                           levels: Levels, index: map<OrderId, Location>, trades: seq<Trade>) {
    && LevelsOk(levels)
    && Continues(start.order, start.Total(), done, remaining, Flatten(start.side, levels))
    && start.Booked(done, index, trades)
  }

  /** The inner loop's invariant, while the list at `best` is being consumed. */
  ghost predicate Executing(start: Start, best: Price, done: seq<Fill>, remaining: Quantity,
                            levels: Levels, index: map<OrderId, Location>, trades: seq<Trade>) {
    && Filling(start.side, levels, best, start.order, start.Total(), done, remaining)
    && start.Booked(done, index, trades)
  }

  lemma BeginSweep(start: Start)
    requires LevelsOk(start.levels)
    ensures Sweeping(start, [], start.order.quantity, start.levels, start.index, start.trades)
  {
    assert [] + start.Total().fills == start.Total().fills;
    assert start.trades + [] == start.trades;
    assert start.index - {} == start.index;
  }

  lemma EnterLevel(start: Start, done: seq<Fill>, remaining: Quantity,
                   levels: Levels, index: map<OrderId, Location>, trades: seq<Trade>)
    requires Sweeping(start, done, remaining, levels, index, trades) && levels != map[]
    ensures var best := Begin(start.side, levels);
            Executing(start, best, done, remaining, levels, index, trades) && levels[best] != []
  {}

  /** One execution against the front order: a step of the inner loop. */
  lemma ExecuteFront(start: Start, best: Price, done: seq<Fill>, remaining: Quantity,
                     levels: Levels, index: map<OrderId, Location>, trades: seq<Trade>)
    requires Executing(start, best, done, remaining, levels, index, trades)
    requires remaining > 0 && levels[best] != [] && Crosses(start.order, best)
    ensures var m := levels[best][0];
            var f: Quantity := Min(m.order.quantity, remaining);
            && f > 0 && m.order.price == best
            && Executing(start, best, done + [Fill(m, f)], remaining - f,
                         levels[best := AfterFill(levels[best], f)],
                         if f == m.order.quantity then index - {m.order.id} else index,
                         trades + [TradeOf(start.order, Fill(m, f), start.now(|trades|))])
  {
    var m := levels[best][0];
    assert m in levels[best];
    var f: Quantity := Min(m.order.quantity, remaining);
    FillFront(start.side, levels, best, start.order, start.Total(), done, remaining);
    TradesOfSnoc(start.order, done, Fill(m, f), |start.trades|, start.now);
    ExhaustedIdsSnoc(done, Fill(m, f));
    assert index - {m.order.id} == start.index - (ExhaustedIds(done) + {m.order.id});
  }

  /** Dropping an emptied front level does not change the flat side. */
  lemma LeaveLevel(start: Start, best: Price, done: seq<Fill>, remaining: Quantity,
                   levels: Levels, index: map<OrderId, Location>, trades: seq<Trade>)
    requires Executing(start, best, done, remaining, levels, index, trades)
    ensures Sweeping(start, done, remaining, if levels[best] == [] then levels - {best} else levels, index, trades)
  {
    FlattenAtBegin(start.side, levels, best);
    if levels[best] == [] {
      assert [] + Flatten(start.side, levels - {best}) == Flatten(start.side, levels - {best});
    } else {
      forall p | p in levels
        ensures levels[p] != [] && ListOk(p, levels[p])
      {
        if p != best { assert p in levels - {best}; }
      }
    }
  }

  /** The outer loop stops exactly where the sweep stops. */
  lemma SweepDone(start: Start, done: seq<Fill>, remaining: Quantity,
                  levels: Levels, index: map<OrderId, Location>, trades: seq<Trade>)
    requires Sweeping(start, done, remaining, levels, index, trades)
    requires remaining == 0 || levels == map[] || !Crosses(start.order, Begin(start.side, levels))
    ensures start.Total() == Swept(done, Flatten(start.side, levels), remaining)
  {
    FrontPrice(start.side, levels);
    assert Sweep(start.order, remaining, Flatten(start.side, levels))
        == Swept([], Flatten(start.side, levels), remaining);
    assert done + [] == done;
  }

  /** pop_front for an order filled completely, reduce_quantity for one filled in part, which cannot throw. */
  method TakeFromFront(orders: seq<Node>, filled: Quantity) returns (orders': seq<Node>)
    requires orders != [] && filled <= orders[0].order.quantity
    ensures orders' == AfterFill(orders, filled)
  {
    var matched := orders[0].order;
    if matched.quantity == filled {
      orders' := orders[1..];
    } else {
      var reduced := matched.ReduceQuantity(filled);
      assert reduced.Success?;
      orders' := [orders[0].(order := reduced.value)] + orders[1..];
    }
  }

  class MatchingEngine {
    const book: OrderBook

    constructor (book: OrderBook)
      ensures this.book == book
    {
      this.book := book;
    }

    /** MatchingEngine::match: appends the trades of one taker and leaves the book as the greedy sweep does.
        Neither the reduction of a maker nor the construction of the remainder can throw. */
    method MatchOrder(order: Order, before: seq<Trade>, now: nat -> Timestamp) returns (trades: seq<Trade>)
      requires book.Valid() && order.Valid()
      modifies book
      ensures book.Valid() && book.View() == Match(old(book.View()), order)
      ensures trades == before + TradesOf(order, SweepBook(old(book.View()), order).fills, |before|, now)
      ensures TradesAppended(old(book.View()), order, before, trades, now)
    {
      TradesExecute(book.View(), order, before, now);
      if order.side.Bid? {
        trades := MatchBid(order, before, now);
      } else {
        trades := MatchAsk(order, before, now);
      }
    }

    /** The Side::BID branch of match: sweeps asks_ level by level from its best price. */
    method MatchBid(order: Order, before: seq<Trade>, now: nat -> Timestamp) returns (trades: seq<Trade>)
      requires book.Valid() && order.Valid() && order.side.Bid?
      modifies book
      ensures book.Valid() && book.View() == Match(old(book.View()), order)
      ensures trades == before + TradesOf(order, SweepBook(old(book.View()), order).fills, |before|, now)
    {
      trades := before;
      var remaining: Quantity := order.quantity;
      ghost var start, done: seq<Fill> := Start(Ask, order, book.asks, book.orderMap, before, now), [];
      BeginSweep(start);
      while remaining > 0 && book.asks != map[]
        invariant book.bids == old(book.bids) && book.nextHandle == old(book.nextHandle)
        invariant Sweeping(start, done, remaining, book.asks, book.orderMap, trades)
        decreases remaining
      {
        var best := Begin(Ask, book.asks);
        if order.orderType.Limit? && order.price < best {
          break;
        }
        EnterLevel(start, done, remaining, book.asks, book.orderMap, trades);
        remaining, trades, done := FillAskLevel(order, best, remaining, trades, now, start, done);
        LeaveLevel(start, best, done, remaining, book.asks, book.orderMap, trades);
        if book.asks[best] == [] {
          book.asks := book.asks - {best};
        }
      }
      SweepDone(start, done, remaining, book.asks, book.orderMap, trades);
      AfterSweepKeepsWellFormed(old(book.View()), order);
      if remaining > 0 && order.orderType.Limit? {
        var rest := MakeOrder(order.id, order.price, remaining, order.side, order.orderType);
        assert rest.Success?;
        book.AddOrder(rest.value);
      }
    }

    /** The inner loop of the BID branch: fills against the front of one list until the taker or the list runs out. */
    method FillAskLevel(order: Order, best: Price, quantity: Quantity, sofar: seq<Trade>, now: nat -> Timestamp,
                        ghost start: Start, ghost entry: seq<Fill>)
      returns (remaining: Quantity, trades: seq<Trade>, ghost done: seq<Fill>)
      requires start.side == Ask && start.order == order && start.now == now
      requires order.side.Bid? && Crosses(order, best) && quantity > 0
      requires Executing(start, best, entry, quantity, book.asks, book.orderMap, sofar) && book.asks[best] != []
      modifies book`asks, book`orderMap
      ensures Executing(start, best, done, remaining, book.asks, book.orderMap, trades)
      ensures remaining < quantity && (remaining == 0 || book.asks[best] == [])
    {
      remaining, trades, done := quantity, sofar, entry;
      while remaining > 0 && book.asks[best] != []
        invariant Executing(start, best, done, remaining, book.asks, book.orderMap, trades)
        invariant remaining < quantity || (remaining == quantity && book.asks[best] != [])
        decreases remaining
      {
        remaining, trades, done := FillAskFront(order, best, remaining, trades, now, start, done);
      }
    }

    /** One turn of that loop: a trade with the front order. */
    method FillAskFront(order: Order, best: Price, quantity: Quantity, sofar: seq<Trade>, now: nat -> Timestamp,
                        ghost start: Start, ghost entry: seq<Fill>)
      returns (remaining: Quantity, trades: seq<Trade>, ghost done: seq<Fill>)
      requires start.side == Ask && start.order == order && start.now == now
      requires order.side.Bid? && Crosses(order, best) && quantity > 0
      requires Executing(start, best, entry, quantity, book.asks, book.orderMap, sofar) && book.asks[best] != []
      modifies book`asks, book`orderMap
      ensures Executing(start, best, done, remaining, book.asks, book.orderMap, trades) && remaining < quantity
    {
      var orders := book.asks[best];
      var matched := orders[0].order;
      var filled: Quantity := Min(matched.quantity, quantity);
      ExecuteFront(start, best, entry, quantity, book.asks, book.orderMap, sofar);
      done := entry + [Fill(orders[0], filled)];

      var trade := Trade(best, order.id, matched.id, filled, now(|sofar|));
      assert trade == TradeOf(order, Fill(orders[0], filled), now(|sofar|));
      trades := sofar + [trade];
      remaining := quantity - filled;
      if matched.quantity == filled {
        book.orderMap := book.orderMap - {matched.id};
      }
      orders := TakeFromFront(orders, filled);
      book.asks := book.asks[best := orders];
    }

    /** The Side::ASK branch of match: sweeps bids_ level by level from its best price. */
    method MatchAsk(order: Order, before: seq<Trade>, now: nat -> Timestamp) returns (trades: seq<Trade>)
      requires book.Valid() && order.Valid() && order.side.Ask?
      modifies book
      ensures book.Valid() && book.View() == Match(old(book.View()), order)
      ensures trades == before + TradesOf(order, SweepBook(old(book.View()), order).fills, |before|, now)
    {
      trades := before;
      var remaining: Quantity := order.quantity;
      ghost var start, done: seq<Fill> := Start(Bid, order, book.bids, book.orderMap, before, now), [];
      BeginSweep(start);
      while remaining > 0 && book.bids != map[]
        invariant book.asks == old(book.asks) && book.nextHandle == old(book.nextHandle)
        invariant Sweeping(start, done, remaining, book.bids, book.orderMap, trades)
        decreases remaining
      {
        var best := Begin(Bid, book.bids);
        if order.orderType.Limit? && order.price > best {
          break;
        }
        EnterLevel(start, done, remaining, book.bids, book.orderMap, trades);
        remaining, trades, done := FillBidLevel(order, best, remaining, trades, now, start, done);
        LeaveLevel(start, best, done, remaining, book.bids, book.orderMap, trades);
        if book.bids[best] == [] {
          book.bids := book.bids - {best};
        }
      }
      SweepDone(start, done, remaining, book.bids, book.orderMap, trades);
      AfterSweepKeepsWellFormed(old(book.View()), order);
      if remaining > 0 && order.orderType.Limit? {
        var rest := MakeOrder(order.id, order.price, remaining, order.side, order.orderType);
        assert rest.Success?;
        book.AddOrder(rest.value);
      }
    }

    /** The inner loop of the ASK branch: fills against the front of one list until the taker or the list runs out. */
    method FillBidLevel(order: Order, best: Price, quantity: Quantity, sofar: seq<Trade>, now: nat -> Timestamp,
                        ghost start: Start, ghost entry: seq<Fill>)
      returns (remaining: Quantity, trades: seq<Trade>, ghost done: seq<Fill>)
      requires start.side == Bid && start.order == order && start.now == now
      requires order.side.Ask? && Crosses(order, best) && quantity > 0
      requires Executing(start, best, entry, quantity, book.bids, book.orderMap, sofar) && book.bids[best] != []
      modifies book`bids, book`orderMap
      ensures Executing(start, best, done, remaining, book.bids, book.orderMap, trades)
      ensures remaining < quantity && (remaining == 0 || book.bids[best] == [])
    {
      remaining, trades, done := quantity, sofar, entry;
      while remaining > 0 && book.bids[best] != []
        invariant Executing(start, best, done, remaining, book.bids, book.orderMap, trades)
        invariant remaining < quantity || (remaining == quantity && book.bids[best] != [])
        decreases remaining
      {
        remaining, trades, done := FillBidFront(order, best, remaining, trades, now, start, done);
      }
    }

    /** One turn of that loop: a trade with the front order. */
    method FillBidFront(order: Order, best: Price, quantity: Quantity, sofar: seq<Trade>, now: nat -> Timestamp,
                        ghost start: Start, ghost entry: seq<Fill>)
      returns (remaining: Quantity, trades: seq<Trade>, ghost done: seq<Fill>)
      requires start.side == Bid && start.order == order && start.now == now
      requires order.side.Ask? && Crosses(order, best) && quantity > 0
      requires Executing(start, best, entry, quantity, book.bids, book.orderMap, sofar) && book.bids[best] != []
      modifies book`bids, book`orderMap
      ensures Executing(start, best, done, remaining, book.bids, book.orderMap, trades) && remaining < quantity
    {
      var orders := book.bids[best];
      var matched := orders[0].order;
      var filled: Quantity := Min(matched.quantity, quantity);
      ExecuteFront(start, best, entry, quantity, book.bids, book.orderMap, sofar);
      done := entry + [Fill(orders[0], filled)];

      var trade := Trade(best, matched.id, order.id, filled, now(|sofar|));
      assert trade == TradeOf(order, Fill(orders[0], filled), now(|sofar|));
      trades := sofar + [trade];
      remaining := quantity - filled;
      if matched.quantity == filled {
        book.orderMap := book.orderMap - {matched.id};
      }
      orders := TakeFromFront(orders, filled);
      book.bids := book.bids[best := orders];
    }
  }
}
