/**
 The sequential meaning of a stream of inbound messages: one after another through the processor. What holds of the
 book, the routing and the responses after any number of them.
 */
module Sequential {
  import opened Domain
  import opened BookSpec
  import opened BookInvariants
  import opened WireCodec
  import opened Messages
  import opened Processor
  import opened Routing

  type Clock = nat -> nat -> Timestamp

  /** What a processor has done: its state, everything it sent, and whether an exception ended it. */
  datatype Served = Served(desk: Desk, outputs: seq<Outbound>, halted: bool)

  ghost predicate AllWellFormed(ms: seq<Inbound>) {
    forall i :: 0 <= i < |ms| ==> WellFormedMessage(ms[i])
  }

  function ServeOne(s: Served, m: Inbound, now: nat -> Timestamp): Served
    requires WellFormedMessage(m)
  {
    if s.halted then s
    else match Respond(s.desk, m, now)
      case Some(r) => Served(r.desk, s.outputs + r.outputs, false)
      case None => s.(halted := true)
  }

  /** Messages one after another; clock(k) is the clock during message k. */
  ghost function Serve(ms: seq<Inbound>, clock: Clock): Served
    requires AllWellFormed(ms)
    decreases |ms|
  {
    if ms == [] then Served(EMPTY_DESK, [], false)
    else
      var last := |ms| - 1;
      FrontWellFormed(ms);
      ServeOne(Serve(ms[..last], clock), ms[last], clock(last))
  }

  lemma FrontWellFormed(ms: seq<Inbound>)
    requires AllWellFormed(ms) && ms != []
    ensures AllWellFormed(ms[..|ms| - 1]) && WellFormedMessage(ms[|ms| - 1])
  {}

  lemma ServeSnoc(ms: seq<Inbound>, m: Inbound, clock: Clock)
    requires AllWellFormed(ms) && WellFormedMessage(m)
    ensures AllWellFormed(ms + [m])
    ensures Serve(ms + [m], clock) == ServeOne(Serve(ms, clock), m, clock(|ms|))
  {
    assert (ms + [m])[..|ms|] == ms;
  }

  lemma ServeOneGrows(s: Served, m: Inbound, now: nat -> Timestamp)
    requires WellFormedMessage(m)
    ensures s.outputs <= ServeOne(s, m, now).outputs && (s.halted ==> ServeOne(s, m, now).halted)
  {}

  /** The j-th message is served in the state the earlier ones left, and what it sends stays sent. */
  lemma {:induction false} ServedAt(ms: seq<Inbound>, clock: Clock, j: nat, earlier: seq<Inbound>)
    requires AllWellFormed(ms) && j < |ms| && earlier == ms[..j]
    ensures AllWellFormed(earlier) && WellFormedMessage(ms[j])
    ensures ServeOne(Serve(earlier, clock), ms[j], clock(j)).outputs <= Serve(ms, clock).outputs
    decreases |ms|
  {
    var last := |ms| - 1;
    var front := ms[..last];
    FrontWellFormed(ms);
    if j < last {
      assert front[..j] == earlier && front[j] == ms[j];
      ServedAt(front, clock, j, earlier);
      ServeOneGrows(Serve(front, clock), ms[last], clock(last));
    }
  }

  /** An exception is final. */
  lemma {:induction false} HaltIsFinal(ms: seq<Inbound>, clock: Clock, k: nat)
    requires AllWellFormed(ms) && k <= |ms| && AllWellFormed(ms[..k])
    ensures Serve(ms[..k], clock).halted ==> Serve(ms, clock).halted
    decreases |ms|
  {
    if k == |ms| {
      assert ms[..k] == ms;
    } else {
      var last := |ms| - 1;
      FrontWellFormed(ms);
      assert ms[..last][..k] == ms[..k];
      HaltIsFinal(ms[..last], clock, k);
    }
  }

  /** No message follows one that threw. */
  ghost predicate RanToEnd(ms: seq<Inbound>, clock: Clock)
    requires AllWellFormed(ms)
  {
    ms == [] || (FrontWellFormed(ms); !Serve(ms[..|ms| - 1], clock).halted)
  }

  lemma RanBefore(ms: seq<Inbound>, clock: Clock)
    requires AllWellFormed(ms) && ms != [] && RanToEnd(ms, clock)
    ensures AllWellFormed(ms[..|ms| - 1]) && RanToEnd(ms[..|ms| - 1], clock)
  {
    var front := ms[..|ms| - 1];
    FrontWellFormed(ms);
    if front != [] {
      FrontWellFormed(front);
      ServeOneGrows(Serve(front[..|front| - 1], clock), front[|front| - 1], clock(|front| - 1));
    }
  }

  lemma RanUpTo(ms: seq<Inbound>, clock: Clock, j: nat)
    requires AllWellFormed(ms) && RanToEnd(ms, clock) && j < |ms| && AllWellFormed(ms[..j])
    ensures !Serve(ms[..j], clock).halted
  {
    var front := ms[..|ms| - 1];
    FrontWellFormed(ms);
    assert front[..j] == ms[..j];
    HaltIsFinal(front, clock, j);
  }

  // ---- The book -------------------------------------------------------------------------------

  /** The book command a message amounts to, if any. */
  function CommandOf(m: Inbound): seq<Command>
    requires WellFormedMessage(m)
  {
    match TicketOf(m)
    case Some(Live(order)) => [Submit(order)]
    case Some(Inert(_)) => []
    case None => if m.kind == CANCEL_ORDER then [Withdraw(DeserializeId(m.payload))] else []
  }

  ghost function CommandsOf(ms: seq<Inbound>): seq<Command>
    requires AllWellFormed(ms)
    decreases |ms|
  {
    if ms == [] then []
    else
      FrontWellFormed(ms);
      CommandsOf(ms[..|ms| - 1]) + CommandOf(ms[|ms| - 1])
  }

  lemma {:induction false} RunAppend(b: Book, xs: seq<Command>, ys: seq<Command>)
    ensures Run(b, xs + ys) == Run(Run(b, xs), ys)
    decreases |xs|
  {
    if xs == [] {
      assert xs + ys == ys;
    } else {
      assert (xs + ys)[1..] == xs[1..] + ys;
      RunAppend(Apply(b, xs[0]), xs[1..], ys);
    }
  }

  lemma RunOne(b: Book, c: Command)
    ensures Run(b, [c]) == Apply(b, c)
  {
    assert [c][1..] == [];
  }

  /** The book after a message, also one that throws. */
  function BookAfter(d: Desk, m: Inbound, now: nat -> Timestamp): Book
    requires WellFormedMessage(m)
  {
    match Respond(d, m, now)
    case Some(r) => r.desk.book
    case None => d.book
  }

  /** One message does to the book what its command does. */
  lemma RespondRunsCommand(d: Desk, m: Inbound, now: nat -> Timestamp)
    requires WellFormedMessage(m)
    ensures ValidRun(CommandOf(m))
    ensures BookAfter(d, m, now) == Run(d.book, CommandOf(m))
  {
    if CommandOf(m) != [] {
      RunOne(d.book, CommandOf(m)[0]);
      assert CommandOf(m) == [CommandOf(m)[0]];
    }
  }

  /** Serving messages, the last of which may throw, is running their commands on the book. */
  lemma {:induction false} ServeRunsCommands(ms: seq<Inbound>, clock: Clock)
    requires AllWellFormed(ms) && RanToEnd(ms, clock)
    ensures ValidRun(CommandsOf(ms))
    ensures Serve(ms, clock).desk.book == Run(EMPTY_BOOK, CommandsOf(ms))
    decreases |ms|
  {
    if ms != [] {
      var last := |ms| - 1;
      FrontWellFormed(ms);
      RanBefore(ms, clock);
      ServeRunsCommands(ms[..last], clock);
      RunAppend(EMPTY_BOOK, CommandsOf(ms[..last]), CommandOf(ms[last]));
      RespondRunsCommand(Serve(ms[..last], clock).desk, ms[last], clock(last));
    }
  }

  lemma {:induction false} ServeKeepsBook(ms: seq<Inbound>, clock: Clock)
    requires AllWellFormed(ms)
    ensures WellFormed(Serve(ms, clock).desk.book) && Uncrossed(Serve(ms, clock).desk.book)
    decreases |ms|
  {
    if ms != [] {
      var last := |ms| - 1;
      FrontWellFormed(ms);
      ServeKeepsBook(ms[..last], clock);
      var before := Serve(ms[..last], clock);
      RespondRunsCommand(before.desk, ms[last], clock(last));
      RunKeepsInvariants(before.desk.book, CommandOf(ms[last]));
    }
  }

  // ---- Routing --------------------------------------------------------------------------------

  /** Who submitted each resting order. */
  ghost function OwnersOf(ms: seq<Inbound>, clock: Clock): Owners
    requires AllWellFormed(ms)
    decreases |ms|
  {
    if ms == [] then map[]
    else
      var last := |ms| - 1;
      FrontWellFormed(ms);
      var before := Serve(ms[..last], clock);
      if before.halted then OwnersOf(ms[..last], clock)
      else OwnersAfterMessage(before.desk, OwnersOf(ms[..last], clock), ms[last])
  }

  /** No message submits an order under the id of one resting when it is served. */
  ghost predicate NoReuse(ms: seq<Inbound>, clock: Clock)
    requires AllWellFormed(ms)
    decreases |ms|
  {
    ms == [] ||
    (FrontWellFormed(ms);
     var last := |ms| - 1;
     var before := Serve(ms[..last], clock);
     NoReuse(ms[..last], clock) && (before.halted || FreshId(before.desk, ms[last])))
  }

  lemma {:induction false} ServeRoutes(ms: seq<Inbound>, clock: Clock)
    requires AllWellFormed(ms) && NoReuse(ms, clock)
    ensures InOrder(Serve(ms, clock).desk, OwnersOf(ms, clock))
    decreases |ms|
  {
    if ms != [] {
      var last := |ms| - 1;
      FrontWellFormed(ms);
      ServeRoutes(ms[..last], clock);
      var before := Serve(ms[..last], clock);
      if !before.halted && Respond(before.desk, ms[last], clock(last)).Some? {
        MessageRoutes(before.desk, OwnersOf(ms[..last], clock), ms[last], clock(last));
      }
    }
  }

  lemma {:induction false} NoReuseBefore(ms: seq<Inbound>, clock: Clock, j: nat)
    requires AllWellFormed(ms) && NoReuse(ms, clock) && j < |ms|
    ensures AllWellFormed(ms[..j]) && NoReuse(ms[..j], clock) && WellFormedMessage(ms[j])
    ensures !Serve(ms[..j], clock).halted ==> FreshId(Serve(ms[..j], clock).desk, ms[j])
    decreases |ms|
  {
    var last := |ms| - 1;
    FrontWellFormed(ms);
    if j < last {
      NoReuseBefore(ms[..last], clock, j);
      assert ms[..last][..j] == ms[..j];
    }
  }

  /** What a live order sends: its makers' reports, then the response to its sender. */
  function LiveOutputs(d: Desk, fd: int, order: Order, now: nat -> Timestamp): seq<Outbound> {
    AcceptedMakers(d, fd, order, now) + [Outbound(fd, AcceptedBatch(d, order, now))]
  }

  lemma LiveServed(s: Served, m: Inbound, order: Order, now: nat -> Timestamp)
    requires WellFormedMessage(m) && !s.halted && TicketOf(m) == Some(Live(order))
    ensures ServeOne(s, m, now) == Served(AcceptedDesk(s.desk, m.fd, order, now),
                                          s.outputs + LiveOutputs(s.desk, m.fd, order, now), false)
  {}

  /** Over every run that never reuses a resting id: the j-th message, if it submits an order, sends one report per
      trade to the client that submitted the trade's maker, then the response to its own sender, and nothing else;
      and those messages stay where they are in everything sent. */
  lemma TradesReachOwners(ms: seq<Inbound>, clock: Clock, j: nat, order: Order)
    requires AllWellFormed(ms) && NoReuse(ms, clock) && j < |ms| && AllWellFormed(ms[..j]) && WellFormedMessage(ms[j])
    requires !Serve(ms[..j], clock).halted && TicketOf(ms[j]) == Some(Live(order))
    ensures var before := Serve(ms[..j], clock);
            && MakersNotified(before.desk, OwnersOf(ms[..j], clock), ms[j].fd, order, clock(j))
            && before.outputs + LiveOutputs(before.desk, ms[j].fd, order, clock(j)) <= Serve(ms, clock).outputs
  {
    var before := Serve(ms[..j], clock);
    NoReuseBefore(ms, clock, j);
    ServeRoutes(ms[..j], clock);
    LiveRoutes(before.desk, OwnersOf(ms[..j], clock), ms[j].fd, order, clock(j));
    ServedAt(ms, clock, j, ms[..j]);
    LiveServed(before, ms[j], order, clock(j));
  }
}
