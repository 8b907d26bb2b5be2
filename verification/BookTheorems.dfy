/**
 Results about single calls that callers rely on: the order and limits of a taker's trades, what cancel
 undoes, and exactly when the id index stays a bijection with the resting orders.
 */
module BookTheorems {
  import opened Domain
  import opened BookSpec
  import opened BookInvariants
  import opened PriceLevels

  // ---- Trades of one taker --------------------------------------------------------------------

  /** The makers of a sweep trade in strict price-time priority, inside the taker's limit, each fill is
      positive, every maker but the last is exhausted, and a partly filled last maker stays at the front. */
  lemma FillsFollowPriority(b: Book, taker: Order)
    requires WellFormed(b) && taker.Valid()
    ensures var opp, s := taker.side.Opposite(), SweepBook(b, taker);
            var k := |s.fills|;
            && (forall i, j :: 0 <= i < j < k ==> Before(opp, s.fills[i].maker, s.fills[j].maker))
            && (forall i :: 0 <= i < k ==> 0 < s.fills[i].quantity <= s.fills[i].maker.order.quantity)
            && (forall i :: 0 <= i < k ==> Crosses(taker, s.fills[i].maker.order.price))
            && (forall i :: 0 <= i < k - 1 ==> s.fills[i].Exhausts())
            && (k > 0 && !s.fills[k-1].Exhausts() ==>
                  s.left == 0 && s.rest != [] && s.rest[0] == Reduced(s.fills[k-1].maker, s.fills[k-1].quantity))
  {
    var opp, s := taker.side.Opposite(), SweepBook(b, taker);
    var makers := b.On(opp);
    PositiveSide(b, opp);
    SweepIsWaterfall(taker, taker.quantity, makers);
    FillsWithinQuantity(taker.quantity, makers, s.fills);
    forall i | 0 <= i < |s.fills|
      ensures s.fills[i].maker == makers[i] && 0 < s.fills[i].quantity <= makers[i].order.quantity
      ensures Crosses(taker, makers[i].order.price)
      ensures i < |s.fills| - 1 ==> s.fills[i].Exhausts()
      ensures !s.fills[i].Exhausts() ==> s.left == 0
    {
      assert FillFits(taker.quantity, makers, s.fills, i);
      EligibleCrosses(taker, makers, i);
      DepthStep(makers, i);
      DepthMonotone(makers, i + 1, Eligible(taker, makers));
    }
  }

  lemma {:induction false} DepthStep(makers: seq<Node>, k: nat)
    requires k < |makers|
    ensures Depth(makers, k + 1) == Depth(makers, k) + makers[k].order.quantity
  {
    if k > 0 { DepthStep(makers[1..], k - 1); }
  }

  /** add_order itself does not look at the other side: it keeps the book uncrossed exactly when the order could not
      have traded with anything resting there. */
  lemma AddKeepsUncrossedIff(b: Book, order: Order)
    requires WellFormed(b) && Uncrossed(b) && order.Valid() && order.orderType.Limit?
    ensures Uncrossed(Add(b, order))
       <==> forall n :: n in b.On(order.side.Opposite()) ==> !Crosses(order, n.order.price)
  {
    var b', n := Add(b, order), Node(b.next, order);
    InsertKeepsSide(order.side, b.On(order.side), n, b.next);
    assert n in b'.On(order.side) && b'.On(order.side.Opposite()) == b.On(order.side.Opposite());
  }

  /** And it can cross the book: an ask at 100 and then a bid at 100, added without matching. */
  lemma AddCanCross()
    ensures var b := Add(EMPTY_BOOK, Order(1, 100, 5, Ask, Limit));
            WellFormed(b) && Uncrossed(b) && !Uncrossed(Add(b, Order(2, 100, 5, Bid, Limit)))
  {
    var ask, bid := Order(1, 100, 5, Ask, Limit), Order(2, 100, 5, Bid, Limit);
    var b := Add(EMPTY_BOOK, ask);
    AddKeepsWellFormed(EMPTY_BOOK, ask);
    assert b.asks == [Node(0, ask)] && b.bids == [];
    assert Add(b, bid).bids == [Node(1, bid)] && Add(b, bid).asks == [Node(0, ask)];
    assert Node(1, bid) in Add(b, bid).bids && Node(0, ask) in Add(b, bid).asks;
  }

  // ---- The remainder --------------------------------------------------------------------------

  /** `after` is `before` with n put in at k: behind every order of equal or better price and ahead of the worse
      ones. */
  ghost predicate PutIn(side: Side, before: seq<Node>, after: seq<Node>, n: Node, k: nat) {
    && k <= |before| && after == before[..k] + [n] + before[k..]
    && (forall i :: 0 <= i < k ==> !Ahead(side, n.order.price, before[i].order.price))
    && (forall i :: k <= i < |before| ==> Ahead(side, n.order.price, before[i].order.price))
  }

  lemma {:induction false} InsertPutsIn(side: Side, nodes: seq<Node>, n: Node) returns (k: nat)
    requires Sorted(side, nodes)
    ensures PutIn(side, nodes, Insert(side, nodes, n), n, k)
  {
    if nodes == [] || Ahead(side, n.order.price, nodes[0].order.price) {
      k := 0;
      forall i | 0 <= i < |nodes|
        ensures Ahead(side, n.order.price, nodes[i].order.price)
      {
        if i > 0 { assert Before(side, nodes[0], nodes[i]); }
      }
    } else {
      k := InsertPutsIn(side, nodes[1..], n);
      k := k + 1;
    }
  }

  /** What a taker leaves on its own side, told from the book before: if the eligible depth is below a LIMIT taker's
      quantity, exactly one order more, under a new handle, with the taker's id and limit price and the quantity the
      depth did not cover, behind all orders of equal or better price, and indexed there. Otherwise the side as it
      was. */
  ghost predicate LeavesRemainder(b: Book, taker: Order, b': Book, k: nat) {
    var own, opp := b.On(taker.side), b.On(taker.side.Opposite());
    var depth := Depth(opp, Eligible(taker, opp));
    if taker.orderType.Limit? && depth < taker.quantity then
      && PutIn(taker.side, own, b'.On(taker.side),
               Node(b.next, Order(taker.id, taker.price, taker.quantity - depth, taker.side, Limit)), k)
      && b'.next == b.next + 1
      && taker.id in b'.index && b'.index[taker.id] == Location(taker.side, taker.price, b.next)
    else
      b'.On(taker.side) == own && b'.next == b.next
  }

  lemma RemainderRests(b: Book, taker: Order) returns (k: nat)
    requires WellFormed(b) && taker.Valid()
    ensures LeavesRemainder(b, taker, Match(b, taker), k)
  {
    RestsExactlyWhen(b, taker);
    OwnSideAfterMatch(b, taker);
    if Rests(b, taker) {
      LeftIsUncovered(b, taker);
    }
    k := RemainderOf(b, taker, Rests(b, taker), SweepBook(b, taker).left, Match(b, taker));
  }

  lemma RemainderOf(b: Book, taker: Order, rests: bool, left: Quantity, b': Book) returns (k: nat)
    requires var own, opp := b.On(taker.side), b.On(taker.side.Opposite());
             var depth := Depth(opp, Eligible(taker, opp));
             && Sorted(taker.side, own)
             && (rests <==> taker.orderType.Limit? && depth < taker.quantity)
             && (rests ==> left == taker.quantity - depth)
             && if rests then
                  && b'.On(taker.side) == Insert(taker.side, own, Node(b.next, taker.(quantity := left)))
                  && b'.next == b.next + 1
                  && taker.id in b'.index && b'.index[taker.id] == Location(taker.side, taker.price, b.next)
                else b'.On(taker.side) == own && b'.next == b.next
    ensures LeavesRemainder(b, taker, b', k)
  {
    k := 0;
    if rests {
      k := InsertPutsIn(taker.side, b.On(taker.side), Node(b.next, taker.(quantity := left)));
    }
  }

  lemma OwnSideAfterMatch(b: Book, taker: Order)
    ensures var b', n := Match(b, taker), Node(b.next, taker.(quantity := SweepBook(b, taker).left));
            if Rests(b, taker) then
              && b'.On(taker.side) == Insert(taker.side, b.On(taker.side), n) && b'.next == b.next + 1
              && taker.id in b'.index && b'.index[taker.id] == Location(taker.side, taker.price, b.next)
            else
              b'.On(taker.side) == b.On(taker.side) && b'.next == b.next
  {}

  lemma LeftIsUncovered(b: Book, taker: Order)
    requires WellFormed(b) && Rests(b, taker)
    ensures var opp := b.On(taker.side.Opposite());
            SweepBook(b, taker).left == taker.quantity - Depth(opp, Eligible(taker, opp))
  {
    PositiveSide(b, taker.side.Opposite());
    SweepIsWaterfall(taker, taker.quantity, b.On(taker.side.Opposite()));
  }

  // ---- Cancel ---------------------------------------------------------------------------------

  /** `after` is `before` without its k-th node, which has this id and handle. */
  ghost predicate WithoutOne(before: seq<Node>, after: seq<Node>, k: nat, id: OrderId, handle: nat) {
    && k < |before| && before[k].order.id == id && before[k].handle == handle
    && after == before[..k] + before[k+1..]
  }

  /** cancel_order removes the one indexed node: everything before and after it stays, in order, untouched. */
  lemma CancelRemovesExactlyOne(b: Book, id: OrderId) returns (k: nat)
    requires WellFormed(b) && id in b.index
    ensures var loc, b' := b.index[id], Cancel(b, id).value;
            && b'.On(loc.side.Opposite()) == b.On(loc.side.Opposite())
            && b'.index == b.index - {id} && b'.next == b.next
            && WithoutOne(b.On(loc.side), b'.On(loc.side), k, id, loc.handle)
  {
    var loc := b.index[id];
    assert EntryLive(b, id, loc);
    k := PlaceOf(b.On(loc.side), id, loc);
    RemoveAt(b.On(loc.side), k);
  }

  lemma PlaceOf(nodes: seq<Node>, id: OrderId, loc: Location) returns (k: nat)
    requires exists n :: n in nodes && n.handle == loc.handle && n.order.id == id && n.order.price == loc.price
    ensures k < |nodes| && nodes[k].order.id == id && nodes[k].handle == loc.handle
  {
    var n :| n in nodes && n.handle == loc.handle && n.order.id == id && n.order.price == loc.price;
    k :| 0 <= k < |nodes| && nodes[k] == n;
  }

  lemma {:induction false} RemoveAt(nodes: seq<Node>, k: nat)
    requires UniqueHandles(nodes) && k < |nodes|
    ensures Remove(nodes, nodes[k].handle) == nodes[..k] + nodes[k+1..]
  {
    if k > 0 {
      assert nodes[0].handle != nodes[k].handle;
      RemoveAt(nodes[1..], k - 1);
      assert nodes[1..][..k-1] == nodes[1..k] && nodes[1..][k..] == nodes[k+1..];
    }
  }

  /** Cancelling an order just added under an unused id restores both sides and the index. */
  lemma CancelUndoesAdd(b: Book, order: Order)
    requires WellFormed(b) && order.Valid() && order.orderType.Limit? && order.id !in b.index
    ensures Cancel(Add(b, order), order.id) == Some(b.(next := b.next + 1))
  {
    var n := Node(b.next, order);
    HandleIsUnused(b, order.side);
    RemoveUndoesInsert(order.side, b.On(order.side), n);
    AddThenCancel(b, order, Insert(order.side, b.On(order.side), n));
  }

  lemma AddThenCancel(b: Book, order: Order, inserted: seq<Node>)
    requires order.orderType.Limit? && order.id !in b.index
    requires inserted == Insert(order.side, b.On(order.side), Node(b.next, order))
    ensures Cancel(Add(b, order), order.id)
         == Some(b.With(order.side, Remove(inserted, b.next)).(next := b.next + 1))
  {
    assert b.index[order.id := Location(order.side, order.price, b.next)] - {order.id} == b.index;
  }

  lemma HandleIsUnused(b: Book, side: Side)
    requires WellFormed(b)
    ensures forall x :: x in b.On(side) ==> x.handle != b.next
  {
    forall x | x in b.On(side) ensures x.handle != b.next { assert NodeOk(side, b.next, x); }
  }

  lemma {:induction false} RemoveUndoesInsert(side: Side, nodes: seq<Node>, n: Node)
    requires forall x :: x in nodes ==> x.handle != n.handle
    ensures Remove(Insert(side, nodes, n), n.handle) == nodes
  {
    if nodes == [] || Ahead(side, n.order.price, nodes[0].order.price) {
      assert ([n] + nodes)[1..] == nodes;
    } else {
      assert nodes[0] in nodes;
      RemoveUndoesInsert(side, nodes[1..], n);
      assert ([nodes[0]] + Insert(side, nodes[1..], n))[1..] == Insert(side, nodes[1..], n);
    }
  }

  /** The same on the stored map: a level created by the addition disappears with the cancellation. */
  lemma EraseUndoesPushBack(levels: Levels, n: Node)
    requires LevelsOk(levels)
    requires n.order.price in levels ==> !HasHandle(levels[n.order.price], n.handle)
    ensures EraseNode(PushBack(levels, n), n.order.price, n.handle) == levels
  {
    var p := n.order.price;
    var list := if p in levels then levels[p] else [];
    assert !HasHandle(list, n.handle);
    RemoveFromRight(list, [n], n.handle);
    assert Remove([n], n.handle) == [] && list + [] == list;
  }

  // ---- The id index ---------------------------------------------------------------------------

  ghost predicate Indexed(b: Book, side: Side, n: Node) {
    n.order.id in b.index && b.index[n.order.id] == Location(side, n.order.price, n.handle)
  }

  ghost predicate SideIndexed(b: Book, side: Side) {
    forall n :: n in b.On(side) ==> Indexed(b, side, n)
  }

  /** Every resting order is found under its id; with live entries this is a bijection. */
  ghost predicate AllIndexed(b: Book) {
    SideIndexed(b, Bid) && SideIndexed(b, Ask)
  }

  ghost predicate HasId(nodes: seq<Node>, id: OrderId) {
    exists n :: n in nodes && n.order.id == id
  }

  ghost predicate RestingId(b: Book, id: OrderId) {
    HasId(b.bids, id) || HasId(b.asks, id)
  }

  lemma SideOf(b: Book, side: Side)
    requires AllIndexed(b)
    ensures SideIndexed(b, side)
  {}

  /** Two resting orders with one id are the same list node. */
  lemma SameIdSameNode(b: Book, s: Side, m: Node, t: Side, n: Node)
    requires WellFormed(b) && AllIndexed(b)
    requires m in b.On(s) && n in b.On(t) && m.order.id == n.order.id
    ensures s == t && m == n
  {
    SideOf(b, s);
    SideOf(b, t);
    assert Indexed(b, s, m) && Indexed(b, t, n);
    HandleIsIdentity(b.On(s), m, n);
  }

  /** When all orders are indexed, the indexed ids are exactly the resting ids. */
  lemma IndexIsBijection(b: Book, id: OrderId)
    requires WellFormed(b) && AllIndexed(b)
    ensures id in b.index <==> RestingId(b, id)
  {
    if id in b.index {
      assert EntryLive(b, id, b.index[id]);
      assert HasId(b.On(b.index[id].side), id);
    }
    if HasId(b.bids, id) {
      var n :| n in b.On(Bid) && n.order.id == id;
      assert Indexed(b, Bid, n);
    }
    if HasId(b.asks, id) {
      var n :| n in b.On(Ask) && n.order.id == id;
      assert Indexed(b, Ask, n);
    }
  }

  lemma CancelKeepsIndexed(b: Book, id: OrderId)
    requires WellFormed(b) && AllIndexed(b) && id in b.index
    ensures AllIndexed(Cancel(b, id).value)
  {
    CancelKeepsSideIndexed(b, id, Bid);
    CancelKeepsSideIndexed(b, id, Ask);
  }

  lemma CancelKeepsSideIndexed(b: Book, id: OrderId, side: Side)
    requires WellFormed(b) && AllIndexed(b) && id in b.index
    ensures SideIndexed(Cancel(b, id).value, side)
  {
    SideOf(b, side);
    forall n | n in Cancel(b, id).value.On(side)
      ensures Indexed(Cancel(b, id).value, side, n)
    {
      CancelLeaves(b, id, side, n);
      assert Indexed(b, side, n);
    }
  }

  /** What a cancellation leaves was there before, under another handle than the cancelled order's. */
  lemma CancelLeaves(b: Book, id: OrderId, side: Side, n: Node)
    requires WellFormed(b) && id in b.index && n in Cancel(b, id).value.On(side)
    ensures n in b.On(side) && (side == b.index[id].side ==> n.handle != b.index[id].handle)
  {
    var loc := b.index[id];
    RemoveKeepsSide(loc.side, b.On(loc.side), loc.handle, b.next);
  }

  /** Nothing that an exhausting fill used up is left on the side. */
  lemma ExhaustedIsGone(taker: Order, quantity: Quantity, makers: seq<Node>, f: Fill)
    requires UniqueHandles(makers) && AllPositive(makers)
    requires f in Sweep(taker, quantity, makers).fills && f.Exhausts()
    ensures f.maker in makers
    ensures forall n :: n in Sweep(taker, quantity, makers).rest ==> n.handle != f.maker.handle
  {
    var s := Sweep(taker, quantity, makers);
    SweepIsWaterfall(taker, quantity, makers);
    var i :| 0 <= i < |s.fills| && s.fills[i] == f;
    assert FillFits(quantity, makers, s.fills, i);
    forall n | n in s.rest
      ensures n.handle != f.maker.handle
    {
      var k := |s.fills|;
      if n !in makers[k..] {
        assert FillFits(quantity, makers, s.fills, k - 1);
      } else {
        var j :| k <= j < |makers| && makers[j] == n;
      }
    }
  }

  lemma SurvivorIsNotErased(b: Book, taker: Order, side: Side, m: Node, n: Node)
    requires WellFormed(b) && AllIndexed(b)
    requires m in b.On(side) && n in AfterSweep(b, taker).On(side) && SamePlace(n, m)
    ensures m.order.id !in ExhaustedIds(SweepBook(b, taker).fills)
  {
    var opp, fills := taker.side.Opposite(), SweepBook(b, taker).fills;
    PositiveSide(b, opp);
    forall f | f in fills && f.Exhausts()
      ensures f.maker.order.id != m.order.id
    {
      ExhaustedIsGone(taker, taker.quantity, b.On(opp), f);
      if f.maker.order.id == m.order.id {
        SameIdSameNode(b, opp, f.maker, side, m);
      }
    }
  }

  /** A sweep never touches an index entry it does not exhaust. */
  lemma AfterSweepKeepsIndexed(b: Book, taker: Order, side: Side, n: Node)
    requires WellFormed(b) && AllIndexed(b)
    requires n in AfterSweep(b, taker).On(side) && Survives(n, b.On(side))
    ensures Indexed(AfterSweep(b, taker), side, n)
  {
    var m :| m in b.On(side) && SamePlace(n, m);
    SideOf(b, side);
    assert Indexed(b, side, m);
    SurvivorIsNotErased(b, taker, side, m, n);
  }

  lemma AfterSweepSurvivors(b: Book, taker: Order, side: Side)
    requires WellFormed(b)
    ensures forall n :: n in AfterSweep(b, taker).On(side) ==> Survives(n, b.On(side))
  {
    var opp := taker.side.Opposite();
    if side == opp {
      SweepKeepsOrder(taker, taker.quantity, opp, b.On(opp), b.next);
    } else {
      assert forall n :: n in b.On(side) ==> SamePlace(n, n);
    }
  }

  lemma AfterSweepKeepsSideIndexed(b: Book, taker: Order, side: Side)
    requires WellFormed(b) && AllIndexed(b)
    ensures SideIndexed(AfterSweep(b, taker), side)
  {
    AfterSweepSurvivors(b, taker, side);
    forall n | n in AfterSweep(b, taker).On(side)
      ensures Indexed(AfterSweep(b, taker), side, n)
    {
      AfterSweepKeepsIndexed(b, taker, side, n);
    }
  }

  /** A LIMIT taker rests exactly when the eligible depth is smaller than its quantity, and then the whole
      eligible prefix is gone. */
  lemma RestsExactlyWhen(b: Book, taker: Order)
    requires WellFormed(b) && taker.Valid()
    ensures var opp := b.On(taker.side.Opposite()); var e := Eligible(taker, opp);
            && (Rests(b, taker) <==> taker.orderType.Limit? && Depth(opp, e) < taker.quantity)
            && (Rests(b, taker) ==> SweepBook(b, taker).rest == opp[e..])
  {
    var opp := b.On(taker.side.Opposite());
    PositiveSide(b, taker.side.Opposite());
    SweepIsWaterfall(taker, taker.quantity, opp);
    if Rests(b, taker) {
      LeftoverTakesAll(taker, taker.quantity, opp, SweepBook(b, taker));
    }
  }

  /** A sweep with quantity left over has used up exactly the eligible makers. */
  lemma LeftoverTakesAll(taker: Order, quantity: Quantity, makers: seq<Node>, s: Swept)
    requires Waterfall(taker, quantity, makers, s) && s.left > 0
    ensures s.rest == makers[Eligible(taker, makers)..]
  {
    var e, k := Eligible(taker, makers), |s.fills|;
    DepthMonotone(makers, k, e);
    if k > 0 {
      assert FillFits(quantity, makers, s.fills, k - 1);
      DepthStep(makers, k - 1);
    }
  }

  /** Some eligible order under this id is filled completely. */
  ghost predicate UsedUp(taker: Order, quantity: Quantity, makers: seq<Node>, id: OrderId) {
    exists i :: 0 <= i < Eligible(taker, makers) && makers[i].order.id == id && Depth(makers, i + 1) <= quantity
  }

  lemma ExhaustedIff(taker: Order, quantity: Quantity, makers: seq<Node>, s: Swept, id: OrderId)
    requires Waterfall(taker, quantity, makers, s) && AllPositive(makers)
    ensures id in ExhaustedIds(s.fills) <==> UsedUp(taker, quantity, makers, id)
  {
    if id in ExhaustedIds(s.fills) {
      var i :| 0 <= i < |s.fills| && s.fills[i].Exhausts() && s.fills[i].maker.order.id == id;
      assert FillFits(quantity, makers, s.fills, i);
      DepthStep(makers, i);
    }
    if UsedUp(taker, quantity, makers, id) {
      var i :| 0 <= i < Eligible(taker, makers) && makers[i].order.id == id && Depth(makers, i + 1) <= quantity;
      assert makers[i] in makers;
      DepthStep(makers, i);
      WaterfallReaches(taker, quantity, makers, s);
      assert FillFits(quantity, makers, s.fills, i);
      assert s.fills[i] in s.fills;
    }
  }

  /** The index after match, told from the book before it and for duplicate ids too: an entry goes when any order with
      its id is filled completely, whether the entry denotes that order or another one; all others stay, and a resting
      remainder is entered. */
  lemma MatchIndexes(b: Book, taker: Order, id: OrderId)
    requires WellFormed(b) && taker.Valid()
    ensures var opp, b' := b.On(taker.side.Opposite()), Match(b, taker);
            var entered := id == taker.id && taker.orderType.Limit?
                && Depth(opp, Eligible(taker, opp)) < taker.quantity;
            && (id in b'.index <==> entered || (id in b.index && !UsedUp(taker, taker.quantity, opp, id)))
            && (id in b'.index && !entered ==> b'.index[id] == b.index[id])
  {
    var opp := b.On(taker.side.Opposite());
    RestsExactlyWhen(b, taker);
    PositiveSide(b, taker.side.Opposite());
    SweepIsWaterfall(taker, taker.quantity, opp);
    ExhaustedIff(taker, taker.quantity, opp, SweepBook(b, taker), id);
  }

  /** The submission would leave a remainder resting while another order with its id stays in the book:
      one on its own side, or one on the other side beyond its limit. */
  ghost predicate Collides(b: Book, taker: Order) {
    var own, opp := b.On(taker.side), b.On(taker.side.Opposite());
    var e := Eligible(taker, opp);
    && taker.orderType.Limit?
    && Depth(opp, e) < taker.quantity
    && (HasId(own, taker.id) || HasId(opp[e..], taker.id))
  }

  lemma AddKeepsIndexedIff(b: Book, order: Order)
    requires WellFormed(b) && AllIndexed(b) && order.Valid() && order.orderType.Limit?
    ensures AllIndexed(Add(b, order)) <==> !RestingId(b, order.id)
  {
    AddKeepsSideIndexedIff(b, order, Bid);
    AddKeepsSideIndexedIff(b, order, Ask);
  }

  lemma AddKeepsSideIndexedIff(b: Book, order: Order, side: Side)
    requires WellFormed(b) && AllIndexed(b) && order.Valid() && order.orderType.Limit?
    ensures SideIndexed(Add(b, order), side) <==> !HasId(b.On(side), order.id)
  {
    var b', n := Add(b, order), Node(b.next, order);
    InsertKeepsSide(order.side, b.On(order.side), n, b.next);
    SideOf(b, side);
    if HasId(b.On(side), order.id) {
      var m :| m in b.On(side) && m.order.id == order.id;
      assert NodeOk(side, b.next, m);
      assert m in b'.On(side) && !Indexed(b', side, m);
    } else {
      forall m | m in b'.On(side)
        ensures Indexed(b', side, m)
      {
        if m != n {
          assert Indexed(b, side, m);
        }
      }
    }
  }

  /** Submitting keeps the index a bijection with the resting orders if and only if it does not collide. */
  lemma MatchKeepsIndexedIff(b: Book, taker: Order)
    requires WellFormed(b) && AllIndexed(b) && taker.Valid()
    ensures AllIndexed(Match(b, taker)) <==> !Collides(b, taker)
  {
    RestsExactlyWhen(b, taker);
    AfterSweepKeepsSideIndexed(b, taker, Bid);
    AfterSweepKeepsSideIndexed(b, taker, Ask);
    if Rests(b, taker) {
      AfterSweepKeepsWellFormed(b, taker);
      AddKeepsIndexedIff(AfterSweep(b, taker), taker.(quantity := SweepBook(b, taker).left));
    }
  }

  /** No submission of the run reuses the id of an order then resting. */
  ghost predicate FreshIds(b: Book, cs: seq<Command>)
    decreases |cs|
  {
    cs == [] || ((cs[0].Submit? ==> !RestingId(b, cs[0].order.id)) && FreshIds(Apply(b, cs[0]), cs[1..]))
  }

  /** Over every run that never resubmits a resting id, the index is a bijection with the resting orders. */
  lemma {:induction false} RunKeepsIndexed(b: Book, cs: seq<Command>)
    requires WellFormed(b) && Uncrossed(b) && AllIndexed(b) && ValidRun(cs) && FreshIds(b, cs)
    ensures AllIndexed(Run(b, cs))
    decreases |cs|
  {
    if cs != [] {
      assert cs[0] in cs && forall c :: c in cs[1..] ==> c in cs;
      RunKeepsInvariants(b, [cs[0]]);
      assert Run(b, [cs[0]]) == Apply(b, cs[0]) by { assert [cs[0]][1..] == []; }
      match cs[0] {
        case Submit(order) =>
          FreshDoesNotCollide(b, order);
          MatchKeepsIndexedIff(b, order);
        case Withdraw(id) =>
          if id in b.index { CancelKeepsIndexed(b, id); }
      }
      RunKeepsIndexed(Apply(b, cs[0]), cs[1..]);
    }
  }

  lemma FreshDoesNotCollide(b: Book, taker: Order)
    requires !RestingId(b, taker.id)
    ensures !Collides(b, taker)
  {
    var opp := b.On(taker.side.Opposite());
    assert forall n :: n in opp[Eligible(taker, opp)..] ==> n in opp;
  }

  /** Reusing a resting id does break the bijection: two bids under id 7 leave the first one unindexed,
      so that a cancel of 7 removes the second and the first can no longer be cancelled. */
  lemma DuplicateIdEscapesIndex()
    ensures var bid := Order(7, 100, 5, Bid, Limit);
            var b := Match(Match(EMPTY_BOOK, bid), bid);
            && Collides(Match(EMPTY_BOOK, bid), bid)
            && !AllIndexed(b)
            && Cancel(b, 7).Some?
            && RestingId(Cancel(b, 7).value, 7) && Cancel(Cancel(b, 7).value, 7).None?
  {
    var bid := Order(7, 100, 5, Bid, Limit);
    var m, n := Node(0, bid), Node(1, bid);
    var b1, b2 := Match(EMPTY_BOOK, bid), Match(Match(EMPTY_BOOK, bid), bid);
    assert b1 == Book([m], [], map[7 := Location(Bid, 100, 0)], 1);
    assert Insert(Bid, [m], n) == [m] + Insert(Bid, [], n);
    assert b2 == Book([m, n], [], map[7 := Location(Bid, 100, 1)], 2);
    assert m in b1.On(Bid) && m in b2.On(Bid) && !Indexed(b2, Bid, m);
    assert Remove([m, n], 1) == [m];
    assert m in Cancel(b2, 7).value.On(Bid);
  }

  /** Nor does it take a cancel: an execution against the first of two bids under id 7 erases the entry of the
      second. */
  lemma ExecutionErasesDuplicate()
    ensures var first, second := Order(7, 100, 5, Bid, Limit), Order(7, 99, 5, Bid, Limit);
            var b := Match(Match(Match(EMPTY_BOOK, first), second), Order(8, 100, 5, Ask, Limit));
            b.bids == [Node(1, second)] && b.asks == [] && 7 !in b.index
  {
    var first, second := Order(7, 100, 5, Bid, Limit), Order(7, 99, 5, Bid, Limit);
    var ask := Order(8, 100, 5, Ask, Limit);
    var m, n := Node(0, first), Node(1, second);
    var b1, b2 := Match(EMPTY_BOOK, first), Match(Match(EMPTY_BOOK, first), second);
    assert b1 == Book([m], [], map[7 := Location(Bid, 100, 0)], 1);
    assert Insert(Bid, [m], n) == [m] + Insert(Bid, [], n);
    assert b2 == Book([m, n], [], map[7 := Location(Bid, 99, 1)], 2);
    var s := SweepBook(b2, ask);
    assert [m, n][1..] == [n] && Sweep(ask, 0, [n]) == Swept([], [n], 0);
    assert s == Swept([Fill(m, 5)] + [], [n], 0);
    assert Fill(m, 5) in s.fills && 7 in ExhaustedIds(s.fills);
  }
}
