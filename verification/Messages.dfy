/** What travels through the two rings, and what one connection sees of it. */
module Messages {
  import opened Domain
  import opened Framing

  datatype Inbound = Inbound(fd: int, kind: Byte, payload: seq<Byte>)

  datatype Outbound = Outbound(fd: int, payload: seq<Byte>)

  /** The frames of one connection among all messages pushed inbound. */
  function FramesFor(ms: seq<Inbound>, fd: int): seq<RawFrame> {
    if ms == [] then []
    else (if ms[0].fd == fd then [RawFrame(ms[0].kind, ms[0].payload)] else []) + FramesFor(ms[1..], fd)
  }

  /** The bytes addressed to one connection among drained messages. */
  function BytesFor(ms: seq<Outbound>, fd: int): seq<Byte> {
    if ms == [] then [] else (if ms[0].fd == fd then ms[0].payload else []) + BytesFor(ms[1..], fd)
  }

  lemma {:induction false} FramesForAppend(xs: seq<Inbound>, ys: seq<Inbound>, fd: int)
    ensures FramesFor(xs + ys, fd) == FramesFor(xs, fd) + FramesFor(ys, fd)
  {
    if xs == [] {
      assert xs + ys == ys;
    } else {
      assert (xs + ys)[1..] == xs[1..] + ys;
      FramesForAppend(xs[1..], ys, fd);
      var head := (if xs[0].fd == fd then [RawFrame(xs[0].kind, xs[0].payload)] else []);
      assert head + (FramesFor(xs[1..], fd) + FramesFor(ys, fd)) == head + FramesFor(xs[1..], fd) + FramesFor(ys, fd);
    }
  }

  lemma {:induction false} BytesForAppend(xs: seq<Outbound>, ys: seq<Outbound>, fd: int)
    ensures BytesFor(xs + ys, fd) == BytesFor(xs, fd) + BytesFor(ys, fd)
  {
    if xs == [] {
      assert xs + ys == ys;
    } else {
      assert (xs + ys)[1..] == xs[1..] + ys;
      BytesForAppend(xs[1..], ys, fd);
      var head := (if xs[0].fd == fd then xs[0].payload else []);
      assert head + (BytesFor(xs[1..], fd) + BytesFor(ys, fd)) == head + BytesFor(xs[1..], fd) + BytesFor(ys, fd);
    }
  }

  lemma FramesForSnoc(ms: seq<Inbound>, m: Inbound, fd: int)
    ensures FramesFor(ms + [m], fd) == FramesFor(ms, fd) + if m.fd == fd then [RawFrame(m.kind, m.payload)] else []
  {
    FramesForAppend(ms, [m], fd);
    assert [m][1..] == [];
    assert FramesFor([m], fd) == (if m.fd == fd then [RawFrame(m.kind, m.payload)] else []) + [];
  }

  lemma BytesForSnoc(ms: seq<Outbound>, m: Outbound, fd: int)
    ensures BytesFor(ms + [m], fd) == BytesFor(ms, fd) + if m.fd == fd then m.payload else []
  {
    BytesForAppend(ms, [m], fd);
    assert [m][1..] == [];
    assert BytesFor([m], fd) == (if m.fd == fd then m.payload else []) + [];
  }

  // ---- Since a connection was accepted ----------------------------------------------------------

  /** The frames of one connection among the messages pushed from position `from` on. */
  function Heard(ms: seq<Inbound>, from: nat, fd: int): seq<RawFrame>
    requires from <= |ms|
  {
    FramesFor(ms[from..], fd)
  }

  /** The bytes for one connection among the messages drained from position `from` on. */
  function Told(ms: seq<Outbound>, from: nat, fd: int): seq<Byte>
    requires from <= |ms|
  {
    BytesFor(ms[from..], fd)
  }

  lemma HeardSnoc(ms: seq<Inbound>, m: Inbound, from: nat, fd: int)
    requires from <= |ms|
    ensures Heard(ms + [m], from, fd) == Heard(ms, from, fd) + if m.fd == fd then [RawFrame(m.kind, m.payload)] else []
  {
    assert (ms + [m])[from..] == ms[from..] + [m];
    FramesForSnoc(ms[from..], m, fd);
  }

  lemma ToldSnoc(ms: seq<Outbound>, m: Outbound, from: nat, fd: int)
    requires from <= |ms|
    ensures Told(ms + [m], from, fd) == Told(ms, from, fd) + if m.fd == fd then m.payload else []
  {
    assert (ms + [m])[from..] == ms[from..] + [m];
    BytesForSnoc(ms[from..], m, fd);
  }

  lemma ToldPrefix(xs: seq<Outbound>, ys: seq<Outbound>, from: nat, fd: int)
    requires xs <= ys && from <= |xs|
    ensures Told(xs, from, fd) <= Told(ys, from, fd)
  {
    assert ys[from..] == xs[from..] + ys[|xs|..];
    BytesForAppend(xs[from..], ys[|xs|..], fd);
  }

  /** `now` extends `before` by messages of one connection only. */
  ghost predicate OnlyFrom(before: seq<Inbound>, now: seq<Inbound>, fd: int) {
    before <= now && forall i :: |before| <= i < |now| ==> now[i].fd == fd
  }

  /** Pushes for one connection leave every other connection's frames alone. */
  lemma {:induction false} OthersUnseen(before: seq<Inbound>, now: seq<Inbound>, from: nat, fd: int, other: int)
    requires OnlyFrom(before, now, fd) && other != fd && from <= |before|
    ensures Heard(now, from, other) == Heard(before, from, other)
    decreases |now| - |before|
  {
    if before != now {
      var last := |now| - 1;
      assert now == now[..last] + [now[last]];
      HeardSnoc(now[..last], now[last], from, other);
      OthersUnseen(before, now[..last], from, fd, other);
    }
  }
}
