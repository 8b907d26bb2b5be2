/**
 Two algebraic laws of match: the BID and ASK branches are mirror images of each other, and splitting a
 taker in two changes nothing for the makers.
 */
module Symmetry {
  import opened Domain
  import opened BookSpec
  import opened BookInvariants

  // ---- Side duality ---------------------------------------------------------------------------

  /** Reverses the price scale and keeps 0, the price of MARKET orders. */
  function MirrorPrice(p: Price): Price {
    if p == 0 then 0 else TWO64 - p
  }

  function MirrorOrder(o: Order): Order {
    o.(price := MirrorPrice(o.price), side := o.side.Opposite())
  }

  function MirrorNode(n: Node): Node {
    n.(order := MirrorOrder(n.order))
  }

  function MirrorNodes(ns: seq<Node>): (r: seq<Node>)
    ensures |r| == |ns|
  {
    seq(|ns|, i requires 0 <= i < |ns| => MirrorNode(ns[i]))
  }

  function MirrorLocation(l: Location): Location {
    Location(l.side.Opposite(), MirrorPrice(l.price), l.handle)
  }

  function MirrorBook(b: Book): Book {
    Book(MirrorNodes(b.asks), MirrorNodes(b.bids), map id | id in b.index :: MirrorLocation(b.index[id]), b.next)
  }

  function MirrorFills(fs: seq<Fill>): (r: seq<Fill>)
    ensures |r| == |fs|
  {
    seq(|fs|, i requires 0 <= i < |fs| => MirrorFill(fs[i]))
  }

  function MirrorTrades(ts: seq<Trade>): (r: seq<Trade>)
    ensures |r| == |ts|
  {
    seq(|ts|, i requires 0 <= i < |ts| =>
      Trade(MirrorPrice(ts[i].price), ts[i].seller, ts[i].buyer, ts[i].quantity, ts[i].timestamp))
  }

  ghost predicate Priced(ns: seq<Node>) {
    forall n :: n in ns ==> n.order.price > 0
  }

  lemma MirrorIsInvolution(b: Book)
    ensures MirrorBook(MirrorBook(b)) == b
  {}

  lemma MirrorTail(ns: seq<Node>)
    requires ns != []
    ensures MirrorNodes(ns)[1..] == MirrorNodes(ns[1..])
  {}

  lemma MirrorCons(n: Node, ns: seq<Node>)
    ensures MirrorNodes([n] + ns) == [MirrorNode(n)] + MirrorNodes(ns)
  {}

  function MirrorFill(f: Fill): Fill {
    Fill(MirrorNode(f.maker), f.quantity)
  }

  lemma MirrorFillsCons(f: Fill, fs: seq<Fill>)
    ensures MirrorFills([f] + fs) == [MirrorFill(f)] + MirrorFills(fs)
  {}

  lemma CrossesMirrors(taker: Order, price: Price)
    requires taker.Valid() && price > 0
    ensures Crosses(MirrorOrder(taker), MirrorPrice(price)) <==> Crosses(taker, price)
  {}

  ghost predicate Mirrored(s: Swept, m: Swept) {
    m.fills == MirrorFills(s.fills) && m.rest == MirrorNodes(s.rest) && m.left == s.left
  }

  lemma MirrorsExhausting(taker: Order, quantity: Quantity, makers: seq<Node>, s: Swept, m: Swept)
    requires makers != [] && 0 < quantity && makers[0].order.quantity <= quantity
        && Crosses(taker, makers[0].order.price)
    requires Crosses(MirrorOrder(taker), MirrorPrice(makers[0].order.price))
    requires s == Sweep(taker, quantity - makers[0].order.quantity, makers[1..])
    requires m == Sweep(MirrorOrder(taker), quantity - makers[0].order.quantity, MirrorNodes(makers[1..]))
    requires Mirrored(s, m)
    ensures Mirrored(Sweep(taker, quantity, makers), Sweep(MirrorOrder(taker), quantity, MirrorNodes(makers)))
  {
    MirrorTail(makers);
    SweepExhausts(taker, quantity, makers);
    SweepExhausts(MirrorOrder(taker), quantity, MirrorNodes(makers));
    MirrorFillsCons(Fill(makers[0], makers[0].order.quantity), s.fills);
  }

  lemma MirrorsPartial(taker: Order, quantity: Quantity, makers: seq<Node>)
    requires makers != [] && 0 < quantity < makers[0].order.quantity && Crosses(taker, makers[0].order.price)
    requires Crosses(MirrorOrder(taker), MirrorPrice(makers[0].order.price))
    ensures Mirrored(Sweep(taker, quantity, makers), Sweep(MirrorOrder(taker), quantity, MirrorNodes(makers)))
  {
    MirrorTail(makers);
    SweepStopsInside(taker, quantity, makers);
    SweepStopsInside(MirrorOrder(taker), quantity, MirrorNodes(makers));
    MirrorCons(Reduced(makers[0], quantity), makers[1..]);
    MirrorFillsCons(Fill(makers[0], quantity), []);
  }

  lemma SweepStopsInside(x: Order, a: Quantity, makers: seq<Node>)
    requires makers != [] && Crosses(x, makers[0].order.price) && 0 < a < makers[0].order.quantity
    ensures Sweep(x, a, makers) == Swept([Fill(makers[0], a)], [Reduced(makers[0], a)] + makers[1..], 0)
  {}

  lemma {:induction false} SweepMirrors(taker: Order, quantity: Quantity, makers: seq<Node>)
    requires taker.Valid() && Priced(makers)
    ensures Mirrored(Sweep(taker, quantity, makers), Sweep(MirrorOrder(taker), quantity, MirrorNodes(makers)))
  {
    if quantity > 0 && makers != [] {
      var n := makers[0];
      assert n in makers && MirrorNodes(makers)[0] == MirrorNode(n);
      CrossesMirrors(taker, n.order.price);
      MirrorTail(makers);
      assert forall x :: x in makers[1..] ==> x in makers;
      if Crosses(taker, n.order.price) {
        if n.order.quantity <= quantity {
          var left: Quantity := quantity - n.order.quantity;
          SweepMirrors(taker, left, makers[1..]);
          MirrorsExhausting(taker, quantity, makers, Sweep(taker, left, makers[1..]),
                            Sweep(MirrorOrder(taker), left, MirrorNodes(makers[1..])));
        } else {
          MirrorsPartial(taker, quantity, makers);
        }
      }
    }
  }

  lemma {:induction false} InsertMirrors(side: Side, nodes: seq<Node>, n: Node)
    requires Priced(nodes) && n.order.price > 0
    ensures Insert(side.Opposite(), MirrorNodes(nodes), MirrorNode(n)) == MirrorNodes(Insert(side, nodes, n))
  {
    if nodes != [] {
      assert nodes[0] in nodes;
      if !Ahead(side, n.order.price, nodes[0].order.price) {
        MirrorTail(nodes);
        assert forall x :: x in nodes[1..] ==> x in nodes;
        InsertMirrors(side, nodes[1..], n);
      }
    }
  }

  lemma AddMirrors(b: Book, order: Order)
    requires order.Valid() && Priced(b.bids) && Priced(b.asks)
    ensures Add(MirrorBook(b), MirrorOrder(order)) == MirrorBook(Add(b, order))
  {
    if order.orderType.Limit? {
      InsertMirrors(order.side, b.On(order.side), Node(b.next, order));
    }
  }

  lemma ExhaustedIdsMirror(fs: seq<Fill>)
    ensures ExhaustedIds(MirrorFills(fs)) == ExhaustedIds(fs)
  {
    var ms := MirrorFills(fs);
    forall id | id in ExhaustedIds(fs)
      ensures id in ExhaustedIds(ms)
    {
      var i :| 0 <= i < |fs| && fs[i].Exhausts() && fs[i].maker.order.id == id;
      assert ms[i] in ms && ms[i].Exhausts();
    }
    forall id | id in ExhaustedIds(ms)
      ensures id in ExhaustedIds(fs)
    {
      var i :| 0 <= i < |ms| && ms[i].Exhausts() && ms[i].maker.order.id == id;
      assert fs[i] in fs && fs[i].Exhausts();
    }
  }

  lemma SweepBookMirrors(b: Book, taker: Order)
    requires taker.Valid() && Priced(b.bids) && Priced(b.asks)
    ensures var s := SweepBook(b, taker);
            Mirrored(s, SweepBook(MirrorBook(b), MirrorOrder(taker)))
  {
    SweepMirrors(taker, taker.quantity, b.On(taker.side.Opposite()));
    assert MirrorBook(b).On(taker.side) == MirrorNodes(b.On(taker.side.Opposite()));
  }

  lemma AfterSweepMirrors(b: Book, taker: Order)
    requires taker.Valid() && Priced(b.bids) && Priced(b.asks)
    ensures AfterSweep(MirrorBook(b), MirrorOrder(taker)) == MirrorBook(AfterSweep(b, taker))
  {
    SweepBookMirrors(b, taker);
    ExhaustedIdsMirror(SweepBook(b, taker).fills);
  }

  /** Matching a mirrored taker against the mirrored book gives the mirrored book. */
  lemma MatchMirrors(b: Book, taker: Order)
    requires WellFormed(b) && taker.Valid()
    ensures Match(MirrorBook(b), MirrorOrder(taker)) == MirrorBook(Match(b, taker))
  {
    WellFormedIsPriced(b);
    SweepBookMirrors(b, taker);
    AfterSweepMirrors(b, taker);
    if Rests(b, taker) {
      var rest := taker.(quantity := SweepBook(b, taker).left);
      AfterSweepKeepsWellFormed(b, taker);
      WellFormedIsPriced(AfterSweep(b, taker));
      AddMirrors(AfterSweep(b, taker), rest);
      assert MirrorOrder(rest) == MirrorOrder(taker).(quantity := rest.quantity);
    }
  }

  /** So either branch of match is the other one seen in the mirror. */
  lemma BranchFromMirror(b: Book, taker: Order)
    requires WellFormed(b) && taker.Valid()
    ensures Match(b, taker) == MirrorBook(Match(MirrorBook(b), MirrorOrder(taker)))
  {
    MatchMirrors(b, taker);
    MirrorIsInvolution(Match(b, taker));
  }

  /** ... and the mirrored trades: same quantities and clock, buyer and seller exchanged. */
  lemma TradesMirror(b: Book, taker: Order, base: nat, now: nat -> Timestamp)
    requires WellFormed(b) && taker.Valid()
    ensures TradesOf(MirrorOrder(taker), SweepBook(MirrorBook(b), MirrorOrder(taker)).fills, base, now)
         == MirrorTrades(TradesOf(taker, SweepBook(b, taker).fills, base, now))
  {
    WellFormedIsPriced(b);
    SweepBookMirrors(b, taker);
    TradesOfMirrored(taker, SweepBook(b, taker).fills, base, now);
  }

  lemma TradesOfMirrored(taker: Order, fills: seq<Fill>, base: nat, now: nat -> Timestamp)
    ensures TradesOf(MirrorOrder(taker), MirrorFills(fills), base, now)
        == MirrorTrades(TradesOf(taker, fills, base, now))
  {
    var ts := TradesOf(taker, fills, base, now);
    forall i | 0 <= i < |fills|
      ensures TradesOf(MirrorOrder(taker), MirrorFills(fills), base, now)[i] == MirrorTrades(ts)[i]
    {
      assert ts[i] == TradeOf(taker, fills[i], now(base + i));
    }
  }

  lemma WellFormedIsPriced(b: Book)
    requires WellFormed(b)
    ensures Priced(b.bids) && Priced(b.asks)
  {
    forall n | n in b.bids ensures n.order.price > 0 { assert NodeOk(Bid, b.next, n); }
    forall n | n in b.asks ensures n.order.price > 0 { assert NodeOk(Ask, b.next, n); }
  }

  // ---- Taker additivity -----------------------------------------------------------------------

  /** Quantity filled against one list node. */
  function FilledAt(fills: seq<Fill>, handle: nat): nat {
    if fills == [] then 0
    else (if fills[0].maker.handle == handle then fills[0].quantity else 0) + FilledAt(fills[1..], handle)
  }

  lemma {:induction false} FilledAtCons(f: Fill, fills: seq<Fill>, handle: nat)
    ensures FilledAt([f] + fills, handle)
        == (if f.maker.handle == handle then f.quantity else 0) + FilledAt(fills, handle)
  {
    assert ([f] + fills)[1..] == fills;
  }

  ghost predicate SamePriceTerms(x: Order, y: Order) {
    x.side == y.side && x.orderType == y.orderType && x.price == y.price
  }

  /** Two sweeps in a row amount to one. */
  ghost predicate AddsUp(first: Swept, second: Swept, whole: Swept, handle: nat) {
    && whole.rest == second.rest
    && whole.left == first.left + second.left
    && FilledAt(whole.fills, handle) == FilledAt(first.fills, handle) + FilledAt(second.fills, handle)
  }

  lemma PrependBoth(f: Fill, first: Swept, second: Swept, whole: Swept, handle: nat)
    requires AddsUp(first, second, whole, handle)
    ensures AddsUp(first.(fills := [f] + first.fills), second, whole.(fills := [f] + whole.fills), handle)
  {
    FilledAtCons(f, first.fills, handle);
    FilledAtCons(f, whole.fills, handle);
  }

  /** Sweeping a + b is sweeping a, then b over what is left. */
  lemma {:induction false} SweepAdds(x: Order, y: Order, a: Quantity, b: Quantity, makers: seq<Node>, handle: nat)
    returns (first: Swept, second: Swept, whole: Swept)
    requires SamePriceTerms(x, y) && a + b < TWO32
    ensures first == Sweep(x, a, makers) && second == Sweep(y, b, first.rest) && whole == Sweep(x, a + b, makers)
    ensures AddsUp(first, second, whole, handle)
    decreases |makers|
  {
    if makers != [] && Crosses(x, makers[0].order.price) && 0 < a && makers[0].order.quantity <= a {
      var q := makers[0].order.quantity;
      first, second, whole := SweepAdds(x, y, a - q, b, makers[1..], handle);
      first, whole := AddsExhausting(x, y, a, b, makers, handle, first, second, whole);
    } else {
      first, second, whole := AddsStopping(x, y, a, b, makers, handle);
    }
  }

  /** The case where the first part exhausts the front maker: the sweeps of the rest add up, and so do these. */
  lemma {:induction false} AddsExhausting(x: Order, y: Order, a: Quantity, b: Quantity, makers: seq<Node>, handle: nat,
                                          first: Swept, second: Swept, whole: Swept)
    returns (first': Swept, whole': Swept)
    requires SamePriceTerms(x, y) && a + b < TWO32 && a > 0
    requires makers != [] && Crosses(x, makers[0].order.price) && makers[0].order.quantity <= a
    requires first == Sweep(x, a - makers[0].order.quantity, makers[1..])
    requires whole == Sweep(x, a + b - makers[0].order.quantity, makers[1..])
    requires AddsUp(first, second, whole, handle)
    ensures first' == Sweep(x, a, makers) && whole' == Sweep(x, a + b, makers) && first'.rest == first.rest
    ensures AddsUp(first', second, whole', handle)
  {
    var f := Fill(makers[0], makers[0].order.quantity);
    PrependBoth(f, first, second, whole, handle);
    SweepExhausts(x, a, makers);
    SweepExhausts(x, a + b, makers);
    first', whole' := first.(fills := [f] + first.fills), whole.(fills := [f] + whole.fills);
  }

  /** The case where the first part ends at or inside the front maker. */
  lemma {:induction false} AddsStopping(x: Order, y: Order, a: Quantity, b: Quantity, makers: seq<Node>, handle: nat)
    returns (first: Swept, second: Swept, whole: Swept)
    requires SamePriceTerms(x, y) && a + b < TWO32
    requires makers == [] || !Crosses(x, makers[0].order.price) || a == 0 || a < makers[0].order.quantity
    ensures first == Sweep(x, a, makers) && second == Sweep(y, b, first.rest) && whole == Sweep(x, a + b, makers)
    ensures AddsUp(first, second, whole, handle)
  {
    first := Sweep(x, a, makers);
    second, whole := Sweep(y, b, first.rest), Sweep(x, a + b, makers);
    if makers == [] || !Crosses(x, makers[0].order.price) || a == 0 {
      SweepTermsOnly(x, y, b, makers);
    } else {
      AddsSplitting(x, y, a, b, makers, handle);
    }
  }

  /** The case where the first part ends inside the front maker. */
  lemma {:induction false} AddsSplitting(x: Order, y: Order, a: Quantity, b: Quantity, makers: seq<Node>, handle: nat)
    requires SamePriceTerms(x, y) && a + b < TWO32 && a > 0
    requires makers != [] && Crosses(x, makers[0].order.price) && a < makers[0].order.quantity
    ensures AddsUp(Sweep(x, a, makers), Sweep(y, b, Sweep(x, a, makers).rest), Sweep(x, a + b, makers), handle)
  {
    SweepStopsInside(x, a, makers);
    if b > 0 {
      assert [makers[0]] + makers[1..] == makers;
      SplitFront(x, y, a, b, makers[0], makers[1..], handle);
    }
  }

  lemma SweepExhausts(x: Order, a: Quantity, makers: seq<Node>)
    requires makers != [] && Crosses(x, makers[0].order.price) && makers[0].order.quantity <= a && a > 0
    ensures var q := makers[0].order.quantity;
            var t := Sweep(x, a - q, makers[1..]);
            Sweep(x, a, makers) == Swept([Fill(makers[0], q)] + t.fills, t.rest, t.left)
  {}

  lemma {:induction false} SweepTermsOnly(x: Order, y: Order, q: Quantity, makers: seq<Node>)
    requires SamePriceTerms(x, y)
    ensures Sweep(x, q, makers) == Sweep(y, q, makers)
  {
    if makers != [] && q > 0 && makers[0].order.quantity <= q {
      SweepTermsOnly(x, y, q - makers[0].order.quantity, makers[1..]);
    }
  }

  /** The second part continues inside the front maker, of which the first part took a. */
  lemma {:induction false} SplitFront(x: Order, y: Order, a: Quantity, b: Quantity, m: Node, tail: seq<Node>,
      handle: nat)
    requires SamePriceTerms(x, y) && a + b < TWO32 && a > 0 && b > 0
    requires Crosses(x, m.order.price) && a < m.order.quantity
    ensures AddsUp(Swept([Fill(m, a)], [Reduced(m, a)] + tail, 0), Sweep(y, b, [Reduced(m, a)] + tail),
                   Sweep(x, a + b, [m] + tail), handle)
  {
    var q, r := m.order.quantity, Reduced(m, a);
    var first := Swept([Fill(m, a)], [r] + tail, 0);
    if q <= a + b {
      var t := Sweep(x, a + b - q, tail);
      SweepTermsOnly(x, y, a + b - q, tail);
      ExhaustsCons(x, a + b, m, tail, t);
      ExhaustsCons(y, b, r, tail, t);
      PartsAddUp(first, m, a, q, t, handle);
    } else {
      StopsInsideCons(x, a + b, m, tail);
      StopsInsideCons(y, b, r, tail);
      PartsAddUp(first, m, a, a + b, Swept([], [Reduced(m, a + b)] + tail, 0), handle);
    }
  }

  /** Taking a and then the rest of c from one maker is taking c from it. */
  lemma PartsAddUp(first: Swept, m: Node, a: Quantity, c: Quantity, t: Swept, handle: nat)
    requires a <= c <= m.order.quantity && first.fills == [Fill(m, a)] && first.left == 0
    ensures AddsUp(first, Swept([Fill(Reduced(m, a), c - a)] + t.fills, t.rest, t.left),
                   Swept([Fill(m, c)] + t.fills, t.rest, t.left), handle)
  {
    FilledAtCons(Fill(m, a), [], handle);
    FilledAtCons(Fill(m, c), t.fills, handle);
    FilledAtCons(Fill(Reduced(m, a), c - a), t.fills, handle);
  }

  lemma ExhaustsCons(x: Order, a: Quantity, m: Node, tail: seq<Node>, t: Swept)
    requires Crosses(x, m.order.price) && m.order.quantity <= a && a > 0 && t == Sweep(x, a - m.order.quantity, tail)
    ensures Sweep(x, a, [m] + tail) == Swept([Fill(m, m.order.quantity)] + t.fills, t.rest, t.left)
  {
    assert ([m] + tail)[1..] == tail;
    SweepExhausts(x, a, [m] + tail);
  }

  lemma StopsInsideCons(x: Order, a: Quantity, m: Node, tail: seq<Node>)
    requires Crosses(x, m.order.price) && 0 < a < m.order.quantity
    ensures Sweep(x, a, [m] + tail) == Swept([Fill(m, a)], [Reduced(m, a)] + tail, 0)
  {
    assert ([m] + tail)[1..] == tail;
    SweepStopsInside(x, a, [m] + tail);
  }

  /** Quantity a match leaves resting for its taker. */
  function RestedQuantity(b: Book, taker: Order): nat {
    if Rests(b, taker) then SweepBook(b, taker).left else 0
  }

  lemma OppositeAfterMatch(b: Book, taker: Order)
    ensures Match(b, taker).On(taker.side.Opposite()) == SweepBook(b, taker).rest
  {}

  /** Submitting a + b at once, or a and then b under another id, gives the makers the same fills, leaves the
      same opposite side and rests the same total. */
  lemma TakerIsAdditive(b: Book, whole: Order, x: Order, y: Order, handle: nat)
    requires whole.Valid() && x.Valid() && y.Valid()
    requires SamePriceTerms(whole, x) && SamePriceTerms(whole, y)
    requires whole.quantity == x.quantity + y.quantity
    ensures var opp, b1 := whole.side.Opposite(), Match(b, x);
            && Match(b, whole).On(opp) == Match(b1, y).On(opp)
            && FilledAt(SweepBook(b, whole).fills, handle)
               == FilledAt(SweepBook(b, x).fills, handle) + FilledAt(SweepBook(b1, y).fills, handle)
            && RestedQuantity(b, whole) == RestedQuantity(b, x) + RestedQuantity(b1, y)
  {
    var makers := b.On(whole.side.Opposite());
    SweepTermsOnly(whole, x, whole.quantity, makers);
    OppositeAfterMatch(b, x);
    OppositeAfterMatch(b, whole);
    OppositeAfterMatch(Match(b, x), y);
    var first, second, all := SweepAdds(x, y, x.quantity, y.quantity, makers, handle);
    assert SweepBook(b, x) == first && SweepBook(b, whole) == all && SweepBook(Match(b, x), y) == second;
  }
}
