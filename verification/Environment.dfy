/**
 What surrounds the two threads: sockets that deliver, accept or fail as they like, and the rings as their producers
 see them.
 */
module Environment {
  import opened Domain
  import opened Outflow
  import opened Messages

  /** One call of send: the bytes offered, and what it returned. */
  datatype Sent = Sent(fd: nat, data: seq<Byte>, result: SendResult)

  /** One call of recv: how many bytes it asked for, and what it returned. */
  datatype Got = Got(fd: nat, asked: nat, result: RecvResult)

  /** The recvs after `before` are all for one connection, and one of them is fatal exactly if `fatal`. */
  ghost predicate Calls(before: seq<Got>, now: seq<Got>, fd: nat, fatal: bool) {
    && before <= now
    && (forall i :: |before| <= i < |now| ==> now[i].fd == fd)
    && (fatal <==> exists i :: |before| <= i < |now| && now[i].result.Fatal())
  }

  lemma OneCall(before: seq<Got>, g: Got)
    ensures Calls(before, before + [g], g.fd, g.result.Fatal())
  {
    assert (before + [g])[|before|] == g;
  }

  lemma MoreCalls(a: seq<Got>, b: seq<Got>, c: seq<Got>, fd: nat, fatal: bool)
    requires Calls(a, b, fd, false) && Calls(b, c, fd, fatal)
    ensures Calls(a, c, fd, fatal)
  {}

  /** The sockets, by descriptor, up to the limit on descriptors: for the connection now using it, the bytes still to
      come, received, and accepted. Calls leave a trace: every recv and how many of them returned less than they
      asked for, and every send. */
  class Network {
    var incoming: seq<seq<Byte>>
    var received: seq<seq<Byte>>
    var accepted: seq<seq<Byte>>
    ghost var shortfalls: nat
    ghost var recvs: seq<Got>
    ghost var sends: seq<Sent>

    ghost predicate Valid()
      reads this
    {
      |incoming| == |received| == |accepted|
    }

    /** accept: a new connection on some descriptor, used before or not. */
    method Open(fd: nat)
      requires Valid() && fd < |incoming|
      modifies this`incoming, this`received, this`accepted
      ensures Valid() && |incoming| == |old(incoming)|
      ensures received == old(received)[fd := []] && accepted == old(accepted)[fd := []]
    {
      var coming: seq<Byte> := *;
      incoming, received, accepted := incoming[fd := coming], received[fd := []], accepted[fd := []];
    }

    /** Non-blocking recv for at least one byte. */
    method Recv(fd: nat, n: nat) returns (r: RecvResult)
      requires Valid() && fd < |incoming| && n > 0
      modifies this`incoming, this`received, this`shortfalls, this`recvs
      ensures Valid() && |incoming| == |old(incoming)|
      ensures recvs == old(recvs) + [Got(fd, n, r)]
      ensures shortfalls == old(shortfalls) + if r.Bytes? && |r.data| == n then 0 else 1
      ensures r.Bytes? ==>
        && 0 < |r.data| <= n && |r.data| <= |old(incoming[fd])|
        && incoming[fd] == old(incoming[fd])[|r.data|..]
        && received == old(received)[fd := old(received[fd]) + r.data]
      ensures !r.Bytes? ==> incoming == old(incoming) && received == old(received)
    {
      var deliver: bool := *;
      if !deliver || incoming[fd] == [] {
        if * { r := Closed; } else if * { r := WouldBlock; } else { r := Broken; }
        shortfalls := shortfalls + 1;
      } else {
        var k: nat :| 0 < k <= n && k <= |incoming[fd]|;
        r := Bytes(incoming[fd][..k]);
        received := received[fd := received[fd] + incoming[fd][..k]];
        incoming := incoming[fd := incoming[fd][k..]];
        shortfalls := shortfalls + if k == n then 0 else 1;
      }
      recvs := recvs + [Got(fd, n, r)];
    }

    /** Non-blocking send of any part of the data; an empty send returns zero. */
    method Send(fd: nat, data: seq<Byte>) returns (r: SendResult)
      requires Valid() && fd < |accepted|
      modifies this`accepted, this`sends
      ensures Valid() && sends == old(sends) + [Sent(fd, data, r)]
      ensures Possible(|data|, r) && (data == [] ==> r.Zero?)
      ensures accepted == old(accepted)[fd := old(accepted[fd]) + if r.Accepted? then data[..r.n] else []]
    {
      var dead: bool := *;
      if data == [] || dead {
        r := Zero;
        assert accepted[fd] + [] == accepted[fd];
      } else if * {
        r := Again;
        assert accepted[fd] + [] == accepted[fd];
      } else if * {
        r := Failed;
        assert accepted[fd] + [] == accepted[fd];
      } else {
        var k: nat :| 0 < k <= |data|;
        r := Accepted(k);
        accepted := accepted[fd := accepted[fd] + data[..k]];
      }
      sends := sends + [Sent(fd, data, r)];
    }
  }

  /** The inbound ring as its producer sees it: a push may be refused at any time. */
  class InboundQueue {
    var pushed: seq<Inbound>
    ghost var refusals: nat

    method TryPush(m: Inbound) returns (ok: bool)
      modifies this
      ensures pushed == if ok then old(pushed) + [m] else old(pushed)
      ensures refusals == old(refusals) + if ok then 0 else 1
    {
      if * {
        pushed := pushed + [m];
        ok := true;
      } else {
        refusals := refusals + 1;
        ok := false;
      }
    }
  }

  /** The outbound ring as its producer sees it. The I/O thread drains it sooner or later: at most `patience` more
      pushes are refused before one is accepted. */
  class OutboundQueue {
    var pushed: seq<Outbound>
    var patience: nat

    method TryPush(m: Outbound) returns (ok: bool)
      modifies this
      ensures pushed == if ok then old(pushed) + [m] else old(pushed)
      ensures !ok ==> patience < old(patience)
    {
      if patience > 0 {
        patience := patience - 1;
        ok := false;
      } else {
        pushed := pushed + [m];
        patience := *;
        ok := true;
      }
    }
  }
}
