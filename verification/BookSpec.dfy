/**
 The order book as a mathematical object: each side is one flat sequence of list nodes, best first,
 and a taker is filled greedily along the opposite side. The price-level maps and nested loops of
 the implementation are proved to compute exactly this (module Engine).
 */
module BookSpec {
  import opened Domain

  /** A list node. The handle is what a std::list iterator denotes; handles are handed out in
      allocation order, so a smaller handle means an earlier arrival. */
  datatype Node = Node(handle: nat, order: Order)

  /** What order_map_ stores for an id. */
  datatype Location = Location(side: Side, price: Price, handle: nat)

  datatype Book = Book(bids: seq<Node>, asks: seq<Node>, index: map<OrderId, Location>, next: nat)
  {
    function On(side: Side): seq<Node> {
      if side.Bid? then bids else asks
    }

    function With(side: Side, nodes: seq<Node>): Book {
      if side.Bid? then this.(bids := nodes) else this.(asks := nodes)
    }
  }

  const EMPTY_BOOK := Book([], [], map[], 0)

  // ---- Priority -----------------------------------------------------------------------------

  /** Price p has strictly better priority than q: bids high to low, asks low to high. */
  predicate Ahead(side: Side, p: Price, q: Price) {
    if side.Bid? then p > q else p < q
  }

  /** Price-time priority: better price first, earlier arrival first within a price. */
  predicate Before(side: Side, a: Node, b: Node) {
    Ahead(side, a.order.price, b.order.price) || (a.order.price == b.order.price && a.handle < b.handle)
  }

  ghost predicate Sorted(side: Side, nodes: seq<Node>) {
    forall i, j :: 0 <= i < j < |nodes| ==> Before(side, nodes[i], nodes[j])
  }

  /** A taker may trade at a resting price: always for MARKET, up to its limit for LIMIT. */
  predicate Crosses(taker: Order, price: Price) {
    taker.orderType.Market? || (if taker.side.Bid? then price <= taker.price else taker.price <= price)
  }

  // ---- Greedy matching ----------------------------------------------------------------------

  /** One execution against a maker, recorded as it stood before the execution. */
  datatype Fill = Fill(maker: Node, quantity: Quantity)
  {
    predicate Exhausts() {
      quantity == maker.order.quantity
    }
  }

  datatype Swept = Swept(fills: seq<Fill>, rest: seq<Node>, left: Quantity)

  function Reduced(m: Node, amount: Quantity): Node
    requires amount <= m.order.quantity
  {
    m.(order := m.order.(quantity := m.order.quantity - amount))
  }

  /** Fills `quantity` of the taker along `makers`, best first, while prices cross. */
  function Sweep(taker: Order, quantity: Quantity, makers: seq<Node>): Swept {
    if quantity == 0 || makers == [] || !Crosses(taker, makers[0].order.price) then
      Swept([], makers, quantity)
    else
      var m := makers[0];
      var f: Quantity := Min(m.order.quantity, quantity);
      if f == m.order.quantity then
        var s := Sweep(taker, quantity - f, makers[1..]);
        Swept([Fill(m, f)] + s.fills, s.rest, s.left)
      else
        Swept([Fill(m, f)], [Reduced(m, f)] + makers[1..], quantity - f)
  }

  /** Ids whose index entries the fills erase. */
  function ExhaustedIds(fills: seq<Fill>): set<OrderId> {
    set f | f in fills && f.Exhausts() :: f.maker.order.id
  }

  // ---- Book operations ----------------------------------------------------------------------

  /** Places n behind every node of equal or better price. */
  function Insert(side: Side, nodes: seq<Node>, n: Node): seq<Node> {
    if nodes == [] || Ahead(side, n.order.price, nodes[0].order.price) then
      [n] + nodes
    else
      [nodes[0]] + Insert(side, nodes[1..], n)
  }

  function Remove(nodes: seq<Node>, handle: nat): seq<Node> {
    if nodes == [] then []
    else if nodes[0].handle == handle then nodes[1..]
    else [nodes[0]] + Remove(nodes[1..], handle)
  }

  /** OrderBook::add_order. MARKET orders are ignored; a duplicate id overwrites its index entry. */
  function Add(b: Book, order: Order): Book {
    if order.orderType.Market? then b
    else
      var n := Node(b.next, order);
      b.With(order.side, Insert(order.side, b.On(order.side), n)).(
        index := b.index[order.id := Location(order.side, order.price, b.next)],
        next := b.next + 1)
  }

  /** OrderBook::cancel_order; None is the thrown "order id not found in the book". */
  function Cancel(b: Book, id: OrderId): Option<Book> {
    if id !in b.index then None
    else
      var loc := b.index[id];
      Some(b.With(loc.side, Remove(b.On(loc.side), loc.handle)).(index := b.index - {id}))
  }

  function SweepBook(b: Book, taker: Order): Swept {
    Sweep(taker, taker.quantity, b.On(taker.side.Opposite()))
  }

  /** The book once the opposite side has been swept, before any remainder rests. */
  function AfterSweep(b: Book, taker: Order): Book {
    var s := SweepBook(b, taker);
    b.With(taker.side.Opposite(), s.rest).(index := b.index - ExhaustedIds(s.fills))
  }

  predicate Rests(b: Book, taker: Order) {
    taker.orderType.Limit? && SweepBook(b, taker).left > 0
  }

  /** MatchingEngine::match. */
  function Match(b: Book, taker: Order): Book {
    if Rests(b, taker) then
      Add(AfterSweep(b, taker), taker.(quantity := SweepBook(b, taker).left))
    else
      AfterSweep(b, taker)
  }

  /** Executions happen at the maker's price; the taker's side decides who bought. */
  function TradeOf(taker: Order, f: Fill, stamp: Timestamp): Trade {
    var maker := f.maker.order;
    if taker.side.Bid? then
      Trade(maker.price, taker.id, maker.id, f.quantity, stamp)
    else
      Trade(maker.price, maker.id, taker.id, f.quantity, stamp)
  }

  /** The trades of one call: `now(i)` is the clock reading for the i-th element of the vector. */
  function TradesOf(taker: Order, fills: seq<Fill>, base: nat, now: nat -> Timestamp): (ts: seq<Trade>)
    ensures |ts| == |fills|
  {
    seq(|fills|, i requires 0 <= i < |fills| => TradeOf(taker, fills[i], now(base + i)))
  }

  function BestPrice(nodes: seq<Node>): Option<Price> {
    if nodes == [] then None else Some(nodes[0].order.price)
  }

  // ---- Runs ---------------------------------------------------------------------------------

  datatype Command = Submit(order: Order) | Withdraw(id: OrderId)
  {
    predicate Valid() {
      Submit? ==> order.Valid()
    }
  }

  function Apply(b: Book, c: Command): Book {
    match c
    case Submit(order) => Match(b, order)
    case Withdraw(id) => if id in b.index then Cancel(b, id).value else b
  }

  function Run(b: Book, cs: seq<Command>): Book
    decreases |cs|
  {
    if cs == [] then b else Run(Apply(b, cs[0]), cs[1..])
  }

  ghost predicate ValidRun(cs: seq<Command>) {
    forall c :: c in cs ==> c.Valid()
  }

  // ---- Invariants ---------------------------------------------------------------------------

  ghost predicate NodeOk(side: Side, next: nat, n: Node) {
    n.order.Valid() && n.order.orderType.Limit? && n.order.side == side && n.handle < next
  }

  ghost predicate UniqueHandles(nodes: seq<Node>) {
    forall i, j :: 0 <= i < j < |nodes| ==> nodes[i].handle != nodes[j].handle
  }

  ghost predicate SideOk(side: Side, nodes: seq<Node>, next: nat) {
    && Sorted(side, nodes)
    && UniqueHandles(nodes)
    && forall n :: n in nodes ==> NodeOk(side, next, n)
  }

  /** An index entry denotes a live list node with that id, side and price. */
  ghost predicate EntryLive(b: Book, id: OrderId, loc: Location) {
    exists n :: n in b.On(loc.side) && n.handle == loc.handle && n.order.id == id && n.order.price == loc.price
  }

  ghost predicate IndexLive(b: Book) {
    forall id :: id in b.index ==> EntryLive(b, id, b.index[id])
  }

  ghost predicate DistinctHandles(b: Book) {
    forall m, n :: m in b.bids && n in b.asks ==> m.handle != n.handle
  }

  ghost predicate WellFormed(b: Book) {
    && SideOk(Bid, b.bids, b.next)
    && SideOk(Ask, b.asks, b.next)
    && DistinctHandles(b)
    && IndexLive(b)
  }

  /** No resting bid could trade with a resting ask. */
  ghost predicate Uncrossed(b: Book) {
    forall m, n :: m in b.bids && n in b.asks ==> m.order.price < n.order.price
  }
}
