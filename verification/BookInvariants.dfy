/**
 Greedy matching in closed form, and the invariants that every run of match and cancel_order keeps:
 price-time priority, live index entries, an uncrossed book.
 */
module BookInvariants {
  import opened Domain
  import opened BookSpec

  // ---- The waterfall: what greedy matching computes -------------------------------------------

  /** Length of the price-eligible prefix. */
  function Eligible(taker: Order, makers: seq<Node>): (e: nat)
    ensures e <= |makers|
  {
    if makers == [] || !Crosses(taker, makers[0].order.price) then 0 else 1 + Eligible(taker, makers[1..])
  }

  /** Total quantity of the first k makers. */
  function Depth(makers: seq<Node>, k: nat): nat
    requires k <= |makers|
  {
    if k == 0 then 0 else makers[0].order.quantity + Depth(makers[1..], k - 1)
  }

  ghost predicate AllPositive(makers: seq<Node>) {
    forall n :: n in makers ==> n.order.quantity > 0
  }

  /** The i-th fill takes what is left of the taker after the makers ahead of it, up to the maker's size. */
  ghost predicate FillFits(quantity: Quantity, makers: seq<Node>, fills: seq<Fill>, i: nat)
    requires i < |fills| <= |makers|
  {
    && fills[i].maker == makers[i]
    && fills[i].quantity == Min(makers[i].order.quantity, quantity - Depth(makers, i))
    && fills[i].quantity > 0
  }

  ghost predicate FillsFit(quantity: Quantity, makers: seq<Node>, fills: seq<Fill>)
    requires |fills| <= |makers|
  {
    forall i :: 0 <= i < |fills| ==> FillFits(quantity, makers, fills, i)
  }

  /** What n fills leave behind: only the last maker can be partly filled, and it keeps its place in front. */
  function Residue(makers: seq<Node>, fills: seq<Fill>): seq<Node>
    requires |fills| <= |makers|
  {
    var k := |fills|;
    if k > 0 && fills[k-1].quantity < makers[k-1].order.quantity then
      [Reduced(makers[k-1], fills[k-1].quantity)] + makers[k..]
    else
      makers[k..]
  }

  /** A sweep stated through cumulative depth instead of recursion: which makers trade, how much each
      gives, why the sweep stops, what is left of both sides. */
  ghost predicate Waterfall(taker: Order, quantity: Quantity, makers: seq<Node>, s: Swept) {
    var e := Eligible(taker, makers);
    && |s.fills| <= e
    && FillsFit(quantity, makers, s.fills)
    && (|s.fills| < e ==> quantity <= Depth(makers, |s.fills|))
    && s.left == quantity - Min(quantity, Depth(makers, e))
    && s.rest == Residue(makers, s.fills)
  }

  /** If the front maker is exhausted and the fills fit the others, all of them fit. */
  lemma ExhaustThenFit(quantity: Quantity, makers: seq<Node>, fills: seq<Fill>)
    requires |fills| < |makers| && 0 < makers[0].order.quantity <= quantity
    requires FillsFit(quantity - makers[0].order.quantity, makers[1..], fills)
    ensures FillsFit(quantity, makers, [Fill(makers[0], makers[0].order.quantity)] + fills)
  {
    var q := makers[0].order.quantity;
    var all := [Fill(makers[0], q)] + fills;
    forall i | 0 <= i < |all|
      ensures FillFits(quantity, makers, all, i)
    {
      if i > 0 {
        assert FillFits(quantity - q, makers[1..], fills, i - 1);
      }
    }
  }

  lemma {:induction false} SweepFills(taker: Order, quantity: Quantity, makers: seq<Node>)
    requires AllPositive(makers)
    ensures |Sweep(taker, quantity, makers).fills| <= Eligible(taker, makers)
    ensures FillsFit(quantity, makers, Sweep(taker, quantity, makers).fills)
  {
    var s := Sweep(taker, quantity, makers);
    if quantity > 0 && makers != [] && Crosses(taker, makers[0].order.price) {
      var q := makers[0].order.quantity;
      if q <= quantity {
        var t := Sweep(taker, quantity - q, makers[1..]);
        SweepFills(taker, quantity - q, makers[1..]);
        ExhaustThenFit(quantity, makers, t.fills);
      }
    }
  }

  lemma {:induction false} SweepTotals(taker: Order, quantity: Quantity, makers: seq<Node>)
    requires AllPositive(makers)
    ensures var s, e := Sweep(taker, quantity, makers), Eligible(taker, makers);
            && |s.fills| <= e
            && (|s.fills| < e ==> quantity <= Depth(makers, |s.fills|))
            && s.left == quantity - Min(quantity, Depth(makers, e))
  {
    if quantity > 0 && makers != [] && Crosses(taker, makers[0].order.price) {
      var q := makers[0].order.quantity;
      if q <= quantity {
        SweepTotals(taker, quantity - q, makers[1..]);
      }
    }
  }

  lemma {:induction false} SweepResidue(taker: Order, quantity: Quantity, makers: seq<Node>)
    requires AllPositive(makers)
    ensures var s := Sweep(taker, quantity, makers);
            && |s.fills| <= |makers|
            && s.rest == Residue(makers, s.fills)
  {
    var s := Sweep(taker, quantity, makers);
    if quantity > 0 && makers != [] && Crosses(taker, makers[0].order.price) {
      var q := makers[0].order.quantity;
      if q <= quantity {
        var t := Sweep(taker, quantity - q, makers[1..]);
        SweepResidue(taker, quantity - q, makers[1..]);
        var k := |t.fills|;
        assert s.fills[1..] == t.fills;
        assert makers[1..][k..] == makers[k+1..];
        if k > 0 {
          assert s.fills[k] == t.fills[k-1] && makers[k] == makers[1..][k-1];
        }
      }
    }
  }

  lemma SweepIsWaterfall(taker: Order, quantity: Quantity, makers: seq<Node>)
    requires AllPositive(makers)
    ensures Waterfall(taker, quantity, makers, Sweep(taker, quantity, makers))
  {
    SweepFills(taker, quantity, makers);
    SweepTotals(taker, quantity, makers);
    SweepResidue(taker, quantity, makers);
  }

  lemma FillsWithinQuantity(quantity: Quantity, makers: seq<Node>, fills: seq<Fill>)
    requires |fills| <= |makers| && FillsFit(quantity, makers, fills)
    ensures forall i :: 0 <= i < |fills| ==> Depth(makers, i) < quantity
  {
    forall i | 0 <= i < |fills|
      ensures Depth(makers, i) < quantity
    {
      assert FillFits(quantity, makers, fills, i);
    }
  }

  /** The waterfall determines the sweep: any other fills, residue or remainder violate it. */
  lemma WaterfallIsUnique(taker: Order, quantity: Quantity, makers: seq<Node>, s: Swept)
    requires AllPositive(makers)
    requires Waterfall(taker, quantity, makers, s)
    ensures s == Sweep(taker, quantity, makers)
  {
    var t := Sweep(taker, quantity, makers);
    SweepIsWaterfall(taker, quantity, makers);
    FillsWithinQuantity(quantity, makers, s.fills);
    FillsWithinQuantity(quantity, makers, t.fills);
    assert |s.fills| == |t.fills|;
    forall i | 0 <= i < |s.fills|
      ensures s.fills[i] == t.fills[i]
    {
      assert FillFits(quantity, makers, s.fills, i) && FillFits(quantity, makers, t.fills, i);
    }
  }

  // ---- The trades of one taker ----------------------------------------------------------------

  /** The i-th trade of a taker: with the i-th order resting opposite, best first, at that order's price and within the
      taker's limit, for what the orders ahead of it leave of the taker, buyer and seller by the taker's side. */
  ghost predicate Executes(b: Book, taker: Order, i: nat, t: Trade, stamp: Timestamp) {
    var opp := b.On(taker.side.Opposite());
    && i < |opp| && Depth(opp, i) < taker.quantity
    && var maker := opp[i].order;
       && t.price == maker.price
       && t.buyer == (if taker.side.Bid? then taker.id else maker.id)
       && t.seller == (if taker.side.Bid? then maker.id else taker.id)
       && t.quantity == Min(maker.quantity, taker.quantity - Depth(opp, i))
       && t.timestamp == stamp
       && (taker.orderType.Limit? ==>
             if taker.side.Bid? then maker.price <= taker.price else taker.price <= maker.price)
  }

  /** `after` is `before` followed by the taker's trades, one for each eligible order that the quantity reaches. */
  ghost predicate TradesAppended(b: Book, taker: Order, before: seq<Trade>, after: seq<Trade>, now: nat -> Timestamp) {
    && before <= after && ReachesCount(taker, taker.quantity, b.On(taker.side.Opposite()), |after| - |before|)
    && forall i :: |before| <= i < |after| ==> Executes(b, taker, i - |before|, after[i], now(i))
  }

  /** The first `count` makers are the eligible ones that the quantity reaches. */
  ghost predicate ReachesCount(taker: Order, quantity: Quantity, makers: seq<Node>, count: int) {
    && count <= |makers|
    && forall i :: 0 <= i < |makers| ==> (i < count <==> i < Eligible(taker, makers) && Depth(makers, i) < quantity)
  }

  lemma {:induction false} EligibleCrosses(taker: Order, makers: seq<Node>, i: nat)
    requires i < Eligible(taker, makers)
    ensures Crosses(taker, makers[i].order.price)
  {
    if i > 0 { EligibleCrosses(taker, makers[1..], i - 1); }
  }

  lemma {:induction false} DepthMonotone(makers: seq<Node>, j: nat, k: nat)
    requires j <= k <= |makers|
    ensures Depth(makers, j) <= Depth(makers, k)
  {
    if j > 0 { DepthMonotone(makers[1..], j - 1, k - 1); }
  }

  lemma PositiveSide(b: Book, side: Side)
    requires WellFormed(b)
    ensures AllPositive(b.On(side))
  {
    forall n | n in b.On(side) ensures n.order.quantity > 0 { assert NodeOk(side, b.next, n); }
  }

  lemma FillExecutes(b: Book, taker: Order, fills: seq<Fill>, i: nat, stamp: Timestamp)
    requires var opp := b.On(taker.side.Opposite());
             |fills| <= Eligible(taker, opp) && i < |fills| && FillFits(taker.quantity, opp, fills, i)
    ensures Executes(b, taker, i, TradeOf(taker, fills[i], stamp), stamp)
  {
    EligibleCrosses(taker, b.On(taker.side.Opposite()), i);
  }

  lemma WaterfallReaches(taker: Order, quantity: Quantity, makers: seq<Node>, s: Swept)
    requires Waterfall(taker, quantity, makers, s)
    ensures ReachesCount(taker, quantity, makers, |s.fills|)
  {
    FillsWithinQuantity(quantity, makers, s.fills);
    forall i | |s.fills| <= i < |makers|
      ensures Depth(makers, |s.fills|) <= Depth(makers, i)
    {
      DepthMonotone(makers, |s.fills|, i);
    }
  }

  /** The trades of a sweep, told from the resting book alone. */
  lemma TradesExecute(b: Book, taker: Order, before: seq<Trade>, now: nat -> Timestamp)
    requires WellFormed(b) && taker.Valid()
    ensures TradesAppended(b, taker, before,
                           before + TradesOf(taker, SweepBook(b, taker).fills, |before|, now), now)
  {
    PositiveSide(b, taker.side.Opposite());
    SweepIsWaterfall(taker, taker.quantity, b.On(taker.side.Opposite()));
    WaterfallExecutes(b, taker, SweepBook(b, taker), before, now);
  }

  lemma NthTrade(taker: Order, fills: seq<Fill>, before: seq<Trade>, now: nat -> Timestamp, i: nat)
    requires |before| <= i < |before| + |fills|
    ensures (before + TradesOf(taker, fills, |before|, now))[i] == TradeOf(taker, fills[i - |before|], now(i))
  {}

  lemma WaterfallExecutes(b: Book, taker: Order, s: Swept, before: seq<Trade>, now: nat -> Timestamp)
    requires Waterfall(taker, taker.quantity, b.On(taker.side.Opposite()), s)
    ensures TradesAppended(b, taker, before, before + TradesOf(taker, s.fills, |before|, now), now)
  {
    var opp := b.On(taker.side.Opposite());
    var after := before + TradesOf(taker, s.fills, |before|, now);
    forall i | |before| <= i < |after|
      ensures Executes(b, taker, i - |before|, after[i], now(i))
    {
      NthTrade(taker, s.fills, before, now, i);
      assert FillFits(taker.quantity, opp, s.fills, i - |before|);
      FillExecutes(b, taker, s.fills, i - |before|, now(i));
    }
    WaterfallReaches(taker, taker.quantity, opp, s);
  }

  // ---- One operation --------------------------------------------------------------------------

  /** The same list node, possibly with another quantity. */
  predicate SamePlace(m: Node, n: Node) {
    m.handle == n.handle && m.order.id == n.order.id && m.order.price == n.order.price
  }

  ghost predicate Survives(m: Node, nodes: seq<Node>) {
    exists n :: n in nodes && SamePlace(m, n)
  }

  ghost predicate Exhausted(m: Node, fills: seq<Fill>) {
    exists f :: f in fills && f.maker == m && f.Exhausts()
  }

  lemma {:induction false} SideOkTail(side: Side, nodes: seq<Node>, next: nat)
    requires SideOk(side, nodes, next) && nodes != []
    ensures SideOk(side, nodes[1..], next)
  {
    assert forall n :: n in nodes[1..] ==> n in nodes;
  }

  lemma {:induction false} SideOkCons(side: Side, n: Node, nodes: seq<Node>, next: nat)
    requires NodeOk(side, next, n) && SideOk(side, nodes, next)
    requires forall m :: m in nodes ==> Before(side, n, m) && n.handle != m.handle
    ensures SideOk(side, [n] + nodes, next)
  {}

  lemma ReducedFrontKeepsOrder(side: Side, makers: seq<Node>, quantity: Quantity, next: nat)
    requires SideOk(side, makers, next) && makers != [] && quantity < makers[0].order.quantity
    ensures SideOk(side, [Reduced(makers[0], quantity)] + makers[1..], next)
  {
    var r := Reduced(makers[0], quantity);
    SideOkTail(side, makers, next);
    forall x | x in makers[1..]
      ensures Before(side, r, x) && r.handle != x.handle
    {
      var i :| 1 <= i < |makers| && makers[i] == x;
    }
    assert NodeOk(side, next, makers[0]);
    SideOkCons(side, r, makers[1..], next);
  }

  lemma {:induction false} SweepKeepsOrder(taker: Order, quantity: Quantity, side: Side, makers: seq<Node>, next: nat)
    requires SideOk(side, makers, next)
    ensures var s := Sweep(taker, quantity, makers);
            SideOk(side, s.rest, next) && forall n :: n in s.rest ==> Survives(n, makers)
  {
    var s := Sweep(taker, quantity, makers);
    if quantity == 0 || makers == [] || !Crosses(taker, makers[0].order.price) {
      assert forall m :: m in makers ==> SamePlace(m, m);
    } else {
      var m := makers[0];
      SideOkTail(side, makers, next);
      if m.order.quantity <= quantity {
        SweepKeepsOrder(taker, quantity - m.order.quantity, side, makers[1..], next);
      } else {
        assert forall x :: x in makers[1..] ==> x in makers && SamePlace(x, x);
        assert SamePlace(Reduced(m, quantity), m);
        ReducedFrontKeepsOrder(side, makers, quantity, next);
      }
    }
  }

  /** Every maker either survives a sweep in place or was exhausted by one of its fills. */
  lemma {:induction false} SweepAccountsForMaker(taker: Order, quantity: Quantity, makers: seq<Node>, x: Node)
    requires x in makers
    ensures var s := Sweep(taker, quantity, makers); Survives(x, s.rest) || Exhausted(x, s.fills)
  {
    var s := Sweep(taker, quantity, makers);
    if quantity == 0 || makers == [] || !Crosses(taker, makers[0].order.price) {
      assert SamePlace(x, x);
    } else {
      var m := makers[0];
      if m.order.quantity <= quantity {
        var t := Sweep(taker, quantity - m.order.quantity, makers[1..]);
        assert s.fills[0] == Fill(m, m.order.quantity);
        if x != m {
          SweepAccountsForMaker(taker, quantity - m.order.quantity, makers[1..], x);
          assert forall f :: f in t.fills ==> f in s.fills;
        }
      } else {
        var r := Reduced(m, quantity);
        assert s.rest == [r] + makers[1..];
        var y := if x == m then r else x;
        assert y in s.rest && SamePlace(x, y);
      }
    }
  }

  /** A sweep keeps the side in order, keeps every survivor in place, and accounts for every maker. */
  lemma SweepKeepsSide(taker: Order, quantity: Quantity, side: Side, makers: seq<Node>, next: nat)
    requires SideOk(side, makers, next)
    ensures var s := Sweep(taker, quantity, makers);
            && SideOk(side, s.rest, next)
            && (forall n :: n in s.rest ==> Survives(n, makers))
            && (forall m :: m in makers ==> Survives(m, s.rest) || Exhausted(m, s.fills))
  {
    SweepKeepsOrder(taker, quantity, side, makers, next);
    forall m | m in makers {
      SweepAccountsForMaker(taker, quantity, makers, m);
    }
  }

  /** If quantity is left over, nothing that remains on the other side is tradeable. */
  lemma {:induction false} SweepLeavesNoCross(taker: Order, quantity: Quantity, makers: seq<Node>)
    ensures var s := Sweep(taker, quantity, makers);
            s.left > 0 && s.rest != [] ==> !Crosses(taker, s.rest[0].order.price)
  {
    if quantity > 0 && makers != [] && Crosses(taker, makers[0].order.price) {
      if makers[0].order.quantity <= quantity {
        SweepLeavesNoCross(taker, quantity - makers[0].order.quantity, makers[1..]);
      }
    }
  }

  lemma {:induction false} InsertKeepsSide(side: Side, nodes: seq<Node>, n: Node, next: nat)
    requires SideOk(side, nodes, next) && n.handle == next && NodeOk(side, next + 1, n)
    ensures SideOk(side, Insert(side, nodes, n), next + 1)
    ensures forall x :: x in Insert(side, nodes, n) <==> x == n || x in nodes
  {
    if nodes == [] || Ahead(side, n.order.price, nodes[0].order.price) {
      forall x | x in nodes
        ensures Before(side, n, x) && n.handle != x.handle
      {
        var i :| 0 <= i < |nodes| && nodes[i] == x;
        assert NodeOk(side, next, x);
        if i > 0 { assert Before(side, nodes[0], nodes[i]); }
      }
      assert forall x :: x in nodes ==> NodeOk(side, next + 1, x) by {
        forall x | x in nodes ensures NodeOk(side, next + 1, x) { assert NodeOk(side, next, x); }
      }
      SideOkCons(side, n, nodes, next + 1);
    } else {
      SideOkTail(side, nodes, next);
      InsertKeepsSide(side, nodes[1..], n, next);
      assert NodeOk(side, next, nodes[0]);
      forall x | x in Insert(side, nodes[1..], n)
        ensures Before(side, nodes[0], x) && nodes[0].handle != x.handle
      {
        if x != n {
          var i :| 1 <= i < |nodes| && nodes[i] == x;
          assert Before(side, nodes[0], nodes[i]);
        }
      }
      SideOkCons(side, nodes[0], Insert(side, nodes[1..], n), next + 1);
    }
  }

  /** Removing a handle keeps every other node, in order. */
  lemma {:induction false} RemoveKeepsSide(side: Side, nodes: seq<Node>, handle: nat, next: nat)
    requires SideOk(side, nodes, next)
    ensures SideOk(side, Remove(nodes, handle), next)
    ensures forall x :: x in Remove(nodes, handle) <==> x in nodes && x.handle != handle
  {
    if nodes != [] {
      SideOkTail(side, nodes, next);
      RemoveKeepsSide(side, nodes[1..], handle, next);
      assert forall x :: x in nodes <==> x == nodes[0] || x in nodes[1..];
      if nodes[0].handle == handle {
        forall x | x in nodes[1..] ensures x.handle != handle {
          var i :| 1 <= i < |nodes| && nodes[i] == x;
        }
      } else {
        var r := Remove(nodes[1..], handle);
        forall x | x in r
          ensures Before(side, nodes[0], x) && nodes[0].handle != x.handle
        {
          assert x in nodes[1..];
          var i :| 1 <= i < |nodes| && nodes[i] == x;
        }
        assert NodeOk(side, next, nodes[0]);
        SideOkCons(side, nodes[0], r, next);
        assert Remove(nodes, handle) == [nodes[0]] + r;
      }
    }
  }

  lemma SideOkWeaken(side: Side, nodes: seq<Node>, next: nat)
    requires SideOk(side, nodes, next)
    ensures SideOk(side, nodes, next + 1)
  {
    forall x | x in nodes ensures NodeOk(side, next + 1, x) { assert NodeOk(side, next, x); }
  }

  lemma AddKeepsWellFormed(b: Book, order: Order)
    requires WellFormed(b) && order.Valid()
    ensures WellFormed(Add(b, order))
  {
    if order.orderType.Limit? {
      var n := Node(b.next, order);
      var b' := Add(b, order);
      InsertKeepsSide(order.side, b.On(order.side), n, b.next);
      SideOkWeaken(order.side.Opposite(), b.On(order.side.Opposite()), b.next);
      assert forall x :: x in b.bids ==> NodeOk(Bid, b.next, x);
      assert forall x :: x in b.asks ==> NodeOk(Ask, b.next, x);
      assert DistinctHandles(b');
      forall id | id in b'.index
        ensures EntryLive(b', id, b'.index[id])
      {
        if id == order.id {
          assert n in b'.On(order.side);
        } else {
          assert EntryLive(b, id, b.index[id]);
        }
      }
    }
  }

  lemma HandleIsIdentity(nodes: seq<Node>, m: Node, n: Node)
    requires UniqueHandles(nodes) && m in nodes && n in nodes && m.handle == n.handle
    ensures m == n
  {
    var i :| 0 <= i < |nodes| && nodes[i] == m;
    var j :| 0 <= j < |nodes| && nodes[j] == n;
    assert i <= j && j <= i;
  }

  lemma CancelKeepsEntry(b: Book, id: OrderId, i: OrderId)
    requires WellFormed(b) && id in b.index && i in b.index && i != id
    ensures EntryLive(Cancel(b, id).value, i, b.index[i])
  {
    var loc, at := b.index[id], b.index[i];
    assert EntryLive(b, id, loc) && EntryLive(b, i, at);
    if at.side == loc.side {
      var c :| c in b.On(loc.side) && c.handle == loc.handle && c.order.id == id;
      var n :| n in b.On(loc.side) && n.handle == at.handle && n.order.id == i && n.order.price == at.price;
      if n.handle == c.handle {
        HandleIsIdentity(b.On(loc.side), n, c);
      }
      RemoveKeepsSide(loc.side, b.On(loc.side), loc.handle, b.next);
      assert n in Remove(b.On(loc.side), loc.handle);
    }
  }

  lemma CancelKeepsWellFormed(b: Book, id: OrderId)
    requires WellFormed(b) && id in b.index
    ensures WellFormed(Cancel(b, id).value)
  {
    var loc := b.index[id];
    RemoveKeepsSide(loc.side, b.On(loc.side), loc.handle, b.next);
    forall i | i in b.index && i != id
      ensures EntryLive(Cancel(b, id).value, i, b.index[i])
    {
      CancelKeepsEntry(b, id, i);
    }
  }

  /** Whatever is paired across the book after a sweep was paired, at the same prices and handles, before it. */
  lemma AfterSweepPairs(b: Book, taker: Order, m: Node, n: Node)
    requires WellFormed(b) && m in AfterSweep(b, taker).bids && n in AfterSweep(b, taker).asks
    ensures exists m', n' :: m' in b.bids && n' in b.asks && SamePlace(m, m') && SamePlace(n, n')
  {
    var opp := taker.side.Opposite();
    SweepKeepsSide(taker, taker.quantity, opp, b.On(opp), b.next);
    assert SamePlace(m, m) && SamePlace(n, n);
    if opp.Bid? {
      assert Survives(m, b.bids);
    } else {
      assert Survives(n, b.asks);
    }
  }

  lemma ExhaustedIdIsErased(m: Node, fills: seq<Fill>)
    ensures Exhausted(m, fills) ==> m.order.id in ExhaustedIds(fills)
  {}

  lemma AfterSweepKeepsEntry(b: Book, taker: Order, id: OrderId)
    requires WellFormed(b) && id in AfterSweep(b, taker).index
    ensures EntryLive(AfterSweep(b, taker), id, b.index[id])
  {
    var opp := taker.side.Opposite();
    var s, loc := SweepBook(b, taker), b.index[id];
    assert EntryLive(b, id, loc);
    if loc.side == opp {
      SweepKeepsSide(taker, taker.quantity, opp, b.On(opp), b.next);
      var m :| m in b.On(loc.side) && m.handle == loc.handle && m.order.id == id && m.order.price == loc.price;
      ExhaustedIdIsErased(m, s.fills);
      assert Survives(m, s.rest);
    }
  }

  lemma AfterSweepKeepsWellFormed(b: Book, taker: Order)
    requires WellFormed(b)
    ensures WellFormed(AfterSweep(b, taker))
  {
    var opp := taker.side.Opposite();
    var b' := AfterSweep(b, taker);
    assert SideOk(opp, b'.On(opp), b.next) by {
      SweepKeepsSide(taker, taker.quantity, opp, b.On(opp), b.next);
    }
    forall m, n | m in b'.bids && n in b'.asks
      ensures m.handle != n.handle
    {
      AfterSweepPairs(b, taker, m, n);
    }
    forall id | id in b'.index
      ensures EntryLive(b', id, b'.index[id])
    {
      AfterSweepKeepsEntry(b, taker, id);
    }
  }

  lemma MatchKeepsWellFormed(b: Book, taker: Order)
    requires WellFormed(b) && taker.Valid()
    ensures WellFormed(Match(b, taker))
  {
    AfterSweepKeepsWellFormed(b, taker);
    if Rests(b, taker) {
      AddKeepsWellFormed(AfterSweep(b, taker), taker.(quantity := SweepBook(b, taker).left));
    }
  }

  lemma RemainderDoesNotCross(b: Book, taker: Order)
    requires WellFormed(b) && Rests(b, taker)
    ensures forall x :: x in SweepBook(b, taker).rest ==> !Crosses(taker, x.order.price)
  {
    var opp := taker.side.Opposite();
    var rest := SweepBook(b, taker).rest;
    SweepKeepsSide(taker, taker.quantity, opp, b.On(opp), b.next);
    SweepLeavesNoCross(taker, taker.quantity, b.On(opp));
    forall x | x in rest
      ensures !Crosses(taker, x.order.price)
    {
      var i :| 0 <= i < |rest| && rest[i] == x;
      if i > 0 { assert Before(opp, rest[0], rest[i]); }
    }
  }

  /** The remainder of a LIMIT taker rests only where the opposite side no longer reaches its price. */
  lemma MatchKeepsUncrossed(b: Book, taker: Order)
    requires WellFormed(b) && Uncrossed(b) && taker.Valid()
    ensures Uncrossed(Match(b, taker))
  {
    var a := AfterSweep(b, taker);
    forall m, n | m in a.bids && n in a.asks
      ensures m.order.price < n.order.price
    {
      AfterSweepPairs(b, taker, m, n);
    }
    if Rests(b, taker) {
      RemainderDoesNotCross(b, taker);
      AfterSweepKeepsWellFormed(b, taker);
      var n := Node(b.next, taker.(quantity := SweepBook(b, taker).left));
      InsertKeepsSide(taker.side, a.On(taker.side), n, b.next);
    }
  }

  lemma CancelKeepsUncrossed(b: Book, id: OrderId)
    requires WellFormed(b) && Uncrossed(b) && id in b.index
    ensures Uncrossed(Cancel(b, id).value)
  {
    var loc := b.index[id];
    RemoveKeepsSide(loc.side, b.On(loc.side), loc.handle, b.next);
  }

  // ---- Every run ------------------------------------------------------------------------------

  /** Price-time priority, live index entries and the uncrossed book survive every sequence of
      submissions and cancellations, duplicate ids included. */
  lemma {:induction false} RunKeepsInvariants(b: Book, cs: seq<Command>)
    requires WellFormed(b) && Uncrossed(b) && ValidRun(cs)
    ensures WellFormed(Run(b, cs)) && Uncrossed(Run(b, cs))
    decreases |cs|
  {
    if cs != [] {
      assert cs[0] in cs;
      match cs[0] {
        case Submit(order) =>
          MatchKeepsWellFormed(b, order);
          MatchKeepsUncrossed(b, order);
        case Withdraw(id) =>
          if id in b.index {
            CancelKeepsWellFormed(b, id);
            CancelKeepsUncrossed(b, id);
          }
      }
      assert forall c :: c in cs[1..] ==> c in cs;
      RunKeepsInvariants(Apply(b, cs[0]), cs[1..]);
    }
  }

  ghost predicate IsBest(side: Side, best: Option<Price>, nodes: seq<Node>) {
    match best
    case None => nodes == []
    case Some(p) =>
      && (exists n :: n in nodes && n.order.price == p)
      && (forall n :: n in nodes ==> if side.Bid? then n.order.price <= p else p <= n.order.price)
  }

  /** In every reachable book the front of each side is the true maximum bid and minimum ask, and the
      spread is positive. */
  lemma BestPricesAreExtrema(cs: seq<Command>)
    requires ValidRun(cs)
    ensures var b := Run(EMPTY_BOOK, cs);
            && IsBest(Bid, BestPrice(b.bids), b.bids)
            && IsBest(Ask, BestPrice(b.asks), b.asks)
            && (b.bids != [] && b.asks != [] ==> BestPrice(b.bids).value < BestPrice(b.asks).value)
  {
    RunKeepsInvariants(EMPTY_BOOK, cs);
    var b := Run(EMPTY_BOOK, cs);
    FrontIsBest(Bid, b.bids, b.next);
    FrontIsBest(Ask, b.asks, b.next);
  }

  lemma FrontIsBest(side: Side, nodes: seq<Node>, next: nat)
    requires SideOk(side, nodes, next)
    ensures IsBest(side, BestPrice(nodes), nodes)
  {
    forall n | n in nodes && nodes != []
      ensures n.order.price == nodes[0].order.price || Ahead(side, nodes[0].order.price, n.order.price)
    {
      var i :| 0 <= i < |nodes| && nodes[i] == n;
      if i > 0 { assert Before(side, nodes[0], nodes[i]); }
    }
    assert nodes != [] ==> nodes[0] in nodes;
  }
}
