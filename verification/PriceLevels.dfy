/**
 One side of the book as the source stores it: an ordered map from price to a FIFO list.
 Flatten reads it best level first, and each map operation is shown to be one operation on the flat side.
 */
module PriceLevels {
  import opened Domain
  import opened BookSpec

  type Levels = map<Price, seq<Node>>

  /** p is what begin()->first yields under the side's comparator. */
  ghost predicate IsBegin(side: Side, levels: Levels, p: Price) {
    p in levels && forall q :: q in levels ==> q == p || Ahead(side, p, q)
  }

  lemma {:induction false} BeginExists(side: Side, levels: Levels)
    requires levels != map[]
    ensures exists p :: IsBegin(side, levels, p)
    decreases |levels|
  {
    var p :| p in levels;
    var others := levels - {p};
    assert levels.Keys == others.Keys + {p};
    if others == map[] {
      assert IsBegin(side, levels, p);
    } else {
      BeginExists(side, others);
      var q :| IsBegin(side, others, q);
      if Ahead(side, q, p) {
        assert IsBegin(side, levels, q);
      } else {
        assert IsBegin(side, levels, p);
      }
    }
  }

  function Begin(side: Side, levels: Levels): (p: Price)
    requires levels != map[]
    ensures IsBegin(side, levels, p)
  {
    BeginExists(side, levels);
    assert exists p :: p in levels && forall q :: q in levels ==> q == p || Ahead(side, p, q) by {
      var p :| IsBegin(side, levels, p);
    }
    var p :| p in levels && forall q :: q in levels ==> q == p || Ahead(side, p, q);
    p
  }

  ghost function Flatten(side: Side, levels: Levels): seq<Node>
    decreases |levels|
  {
    if levels == map[] then []
    else
      var p := Begin(side, levels);
      assert (levels - {p}).Keys == levels.Keys - {p};
      levels[p] + Flatten(side, levels - {p})
  }

  /** A list holds positive orders of its level's price. */
  ghost predicate ListOk(p: Price, list: seq<Node>) {
    forall n :: n in list ==> n.order.price == p && n.order.quantity > 0
  }

  /** Every level is non-empty and holds orders of its own price. */
  ghost predicate LevelsOk(levels: Levels) {
    forall p :: p in levels ==> levels[p] != [] && ListOk(p, levels[p])
  }

  lemma {:induction false} FlattenAtBegin(side: Side, levels: Levels, p: Price)
    requires IsBegin(side, levels, p)
    ensures Flatten(side, levels) == levels[p] + Flatten(side, levels - {p})
  {}

  /** Changing the best level's list changes the front of the flat side and nothing else. */
  lemma {:induction false} FlattenUpdateBegin(side: Side, levels: Levels, p: Price, list: seq<Node>)
    requires IsBegin(side, levels, p)
    ensures IsBegin(side, levels[p := list], p)
    ensures levels[p := list] - {p} == levels - {p}
    ensures Flatten(side, levels[p := list]) == list + Flatten(side, levels - {p})
  {
    FlattenAtBegin(side, levels[p := list], p);
    assert levels[p := list] - {p} == levels - {p};
  }

  lemma {:induction false} FrontPrice(side: Side, levels: Levels)
    requires LevelsOk(levels)
    ensures levels == map[] <==> Flatten(side, levels) == []
    ensures levels != map[] ==> Flatten(side, levels)[0].order.price == Begin(side, levels)
  {
    if levels != map[] {
      var p := Begin(side, levels);
      assert levels[p][0] in levels[p];
    }
  }

  /** Every node of the flat side sits in the list of its own price. */
  lemma {:induction false} FlatNodeLevel(side: Side, levels: Levels, n: Node)
    requires LevelsOk(levels) && n in Flatten(side, levels)
    ensures n.order.price in levels && n in levels[n.order.price]
    decreases |levels|
  {
    var p := Begin(side, levels);
    if n !in levels[p] {
      assert (levels - {p}).Keys == levels.Keys - {p};
      FlatNodeLevel(side, levels - {p}, n);
    }
  }

  lemma {:induction false} LevelNodeFlat(side: Side, levels: Levels, p: Price, n: Node)
    requires p in levels && n in levels[p]
    ensures n in Flatten(side, levels)
    decreases |levels|
  {
    var b := Begin(side, levels);
    if p != b {
      assert (levels - {b}).Keys == levels.Keys - {b};
      LevelNodeFlat(side, levels - {b}, p, n);
    }
  }

  // ---- push_back ------------------------------------------------------------------------------

  /** asks_[price].push_back(n): operator[] creates the level when it is missing. */
  function PushBack(levels: Levels, n: Node): Levels {
    var p := n.order.price;
    levels[p := (if p in levels then levels[p] else []) + [n]]
  }

  lemma {:induction false} InsertSkips(side: Side, xs: seq<Node>, ys: seq<Node>, n: Node)
    requires forall x :: x in xs ==> !Ahead(side, n.order.price, x.order.price)
    ensures Insert(side, xs + ys, n) == xs + Insert(side, ys, n)
  {
    if xs == [] {
      assert xs + ys == ys;
    } else {
      assert (xs + ys)[1..] == xs[1..] + ys;
      assert xs[0] in xs;
      InsertSkips(side, xs[1..], ys, n);
    }
  }

  /** A price better than every level becomes the new front. */
  lemma {:induction false} PushBackNewBest(side: Side, levels: Levels, n: Node)
    requires LevelsOk(levels)
    requires forall q :: q in levels ==> Ahead(side, n.order.price, q)
    ensures Flatten(side, PushBack(levels, n)) == [n] + Flatten(side, levels)
    ensures Insert(side, Flatten(side, levels), n) == [n] + Flatten(side, levels)
  {
    var p, pushed := n.order.price, PushBack(levels, n);
    FrontPrice(side, levels);
    assert IsBegin(side, pushed, p);
    FlattenAtBegin(side, pushed, p);
    assert pushed - {p} == levels;
  }

  lemma Reassociate(xs: seq<Node>, n: Node, ys: seq<Node>)
    ensures xs + ([n] + ys) == xs + [n] + ys
  {}

  lemma {:induction false} PushBackAtBest(side: Side, levels: Levels, n: Node)
    requires LevelsOk(levels) && IsBegin(side, levels, n.order.price)
    ensures Flatten(side, PushBack(levels, n)) == Insert(side, Flatten(side, levels), n)
  {
    var b := n.order.price;
    var others := levels - {b};
    assert ListOk(b, levels[b]);
    FlattenAtBegin(side, levels, b);
    InsertSkips(side, levels[b], Flatten(side, others), n);
    FlattenUpdateBegin(side, levels, b, levels[b] + [n]);
    PushBackNewBest(side, others, n);
    Reassociate(levels[b], n, Flatten(side, others));
  }

  lemma PushBackElsewhere(side: Side, levels: Levels, b: Price, n: Node)
    requires IsBegin(side, levels, b) && Ahead(side, b, n.order.price)
    ensures IsBegin(side, PushBack(levels, n), b)
    ensures PushBack(levels, n)[b] == levels[b]
    ensures PushBack(levels, n) - {b} == PushBack(levels - {b}, n)
  {}

  lemma {:induction false} PushBackBehind(side: Side, levels: Levels, b: Price, n: Node)
    requires LevelsOk(levels) && IsBegin(side, levels, b) && Ahead(side, b, n.order.price)
    requires Flatten(side, PushBack(levels - {b}, n)) == Insert(side, Flatten(side, levels - {b}), n)
    ensures Flatten(side, PushBack(levels, n)) == Insert(side, Flatten(side, levels), n)
  {
    assert ListOk(b, levels[b]);
    PushBackElsewhere(side, levels, b, n);
    FlattenAtBegin(side, PushBack(levels, n), b);
    InsertSkips(side, levels[b], Flatten(side, levels - {b}), n);
    FlattenAtBegin(side, levels, b);
  }

  /** push_back into the level of its price is insertion behind every order of equal or better price. */
  lemma {:induction false} FlattenPushBack(side: Side, levels: Levels, n: Node)
    requires LevelsOk(levels)
    ensures Flatten(side, PushBack(levels, n)) == Insert(side, Flatten(side, levels), n)
    decreases |levels|
  {
    if levels == map[] {
      PushBackNewBest(side, levels, n);
    } else {
      var b := Begin(side, levels);
      if Ahead(side, n.order.price, b) {
        PushBackNewBest(side, levels, n);
      } else if n.order.price == b {
        PushBackAtBest(side, levels, n);
      } else {
        assert (levels - {b}).Keys == levels.Keys - {b};
        FlattenPushBack(side, levels - {b}, n);
        PushBackBehind(side, levels, b, n);
      }
    }
  }

  // ---- erase ----------------------------------------------------------------------------------

  ghost predicate HasHandle(nodes: seq<Node>, handle: nat) {
    exists n :: n in nodes && n.handle == handle
  }

  /** list.erase(position), then dropping the level if its list became empty. */
  function EraseNode(levels: Levels, p: Price, handle: nat): Levels
    requires p in levels
  {
    var list := Remove(levels[p], handle);
    if list == [] then levels - {p} else levels[p := list]
  }

  lemma {:induction false} RemoveFromLeft(xs: seq<Node>, ys: seq<Node>, handle: nat)
    requires HasHandle(xs, handle)
    ensures Remove(xs + ys, handle) == Remove(xs, handle) + ys
  {
    assert (xs + ys)[1..] == xs[1..] + ys;
    if xs[0].handle != handle {
      assert HasHandle(xs[1..], handle);
      RemoveFromLeft(xs[1..], ys, handle);
    }
  }

  lemma {:induction false} RemoveFromRight(xs: seq<Node>, ys: seq<Node>, handle: nat)
    requires !HasHandle(xs, handle)
    ensures Remove(xs + ys, handle) == xs + Remove(ys, handle)
  {
    if xs == [] {
      assert xs + ys == ys;
    } else {
      assert (xs + ys)[1..] == xs[1..] + ys;
      assert xs[0] in xs;
      assert forall n :: n in xs[1..] ==> n in xs;
      RemoveFromRight(xs[1..], ys, handle);
    }
  }

  lemma {:induction false} EraseAtBest(side: Side, levels: Levels, b: Price, handle: nat)
    requires IsBegin(side, levels, b) && HasHandle(levels[b], handle)
    ensures Flatten(side, EraseNode(levels, b, handle)) == Remove(Flatten(side, levels), handle)
  {
    FlattenAtBegin(side, levels, b);
    RemoveFromLeft(levels[b], Flatten(side, levels - {b}), handle);
    FlattenUpdateBegin(side, levels, b, Remove(levels[b], handle));
  }

  lemma EraseElsewhere(side: Side, levels: Levels, b: Price, p: Price, handle: nat)
    requires IsBegin(side, levels, b) && p in levels && p != b
    ensures IsBegin(side, EraseNode(levels, p, handle), b)
    ensures EraseNode(levels, p, handle)[b] == levels[b]
    ensures EraseNode(levels, p, handle) - {b} == EraseNode(levels - {b}, p, handle)
  {}

  lemma {:induction false} EraseBehind(side: Side, levels: Levels, b: Price, p: Price, handle: nat)
    requires IsBegin(side, levels, b) && p in levels && p != b && !HasHandle(levels[b], handle)
    requires Flatten(side, EraseNode(levels - {b}, p, handle)) == Remove(Flatten(side, levels - {b}), handle)
    ensures Flatten(side, EraseNode(levels, p, handle)) == Remove(Flatten(side, levels), handle)
  {
    EraseElsewhere(side, levels, b, p, handle);
    FlattenAtBegin(side, EraseNode(levels, p, handle), b);
    RemoveFromRight(levels[b], Flatten(side, levels - {b}), handle);
    FlattenAtBegin(side, levels, b);
  }

  /** Erasing a list node, with its level when that empties, is removal from the flat side. */
  lemma {:induction false} FlattenErase(side: Side, levels: Levels, p: Price, handle: nat)
    requires p in levels && HasHandle(levels[p], handle)
    requires forall q :: q in levels && q != p ==> !HasHandle(levels[q], handle)
    ensures Flatten(side, EraseNode(levels, p, handle)) == Remove(Flatten(side, levels), handle)
    decreases |levels|
  {
    var b := Begin(side, levels);
    if p == b {
      EraseAtBest(side, levels, b, handle);
    } else {
      assert (levels - {b}).Keys == levels.Keys - {b};
      FlattenErase(side, levels - {b}, p, handle);
      EraseBehind(side, levels, b, p, handle);
    }
  }
}
