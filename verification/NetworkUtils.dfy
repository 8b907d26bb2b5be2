/** The client's blocking reader: read_exact and read_message over a socket that may deliver any chunk sizes. */
module NetworkUtils {
  import opened Domain
  import opened WireCodec
  import opened Framing

  /** A stream socket: `incoming` is what the peer has sent and recv has not yet returned. */
  class Socket {
    var incoming: seq<Byte>
    var broken: bool

    /** Blocking recv: some non-empty prefix of what is coming, or a close at its end, or an error at any time. */
    method Recv(n: nat) returns (count: int, data: seq<Byte>)
      requires n > 0
      modifies this
      ensures count > 0 ==>
        && count <= n && count <= |old(incoming)|
        && data == old(incoming)[..count] && incoming == old(incoming)[count..] && broken == old(broken)
      ensures count <= 0 ==> incoming == old(incoming) && (incoming == [] || broken)
    {
      data := [];
      if incoming == [] {
        count := 0;
      } else if * {
        broken, count := true, -1;
      } else {
        var k: nat :| 0 < k <= n && k <= |incoming|;
        count, data, incoming := k, incoming[..k], incoming[k..];
      }
    }
  }

  /** read_exact: n bytes, however they are chunked, or false when the stream ends or breaks first. */
  method ReadExact(socket: Socket, n: nat) returns (ok: bool, buffer: seq<Byte>)
    modifies socket
    ensures ok ==>
      && n <= |old(socket.incoming)| && buffer == old(socket.incoming)[..n]
      && socket.incoming == old(socket.incoming)[n..]
    ensures !ok ==> |old(socket.incoming)| < n || socket.broken
  {
    buffer := [];
    while |buffer| < n
      invariant |buffer| <= n && |buffer| <= |old(socket.incoming)|
      invariant buffer == old(socket.incoming)[..|buffer|] && socket.incoming == old(socket.incoming)[|buffer|..]
    {
      var count, data := socket.Recv(n - |buffer|);
      if count <= 0 {
        return false, buffer;
      }
      buffer := buffer + data;
    }
    ok := true;
  }

  /** read_message: the first frame of the stream and nothing beyond it; it fails only if the stream ends inside
      that frame or breaks. */
  method ReadMessage(socket: Socket) returns (ok: bool, message: RawFrame)
    modifies socket
    ensures ok ==>
      && HasFrame(old(socket.incoming)) && message == FirstFrame(old(socket.incoming))
      && socket.incoming == AfterFrame(old(socket.incoming))
    ensures !ok ==> !HasFrame(old(socket.incoming)) || socket.broken
  {
    ghost var stream := socket.incoming;
    message := RawFrame(0, []);
    var header, payload;
    ok, header := ReadExact(socket, 5);
    if !ok {
      return;
    }
    var length := FromBE32(header[1..5]);
    assert header[1..5] == stream[1..5];
    ok, payload := ReadExact(socket, length);
    if ok {
      message := RawFrame(header[0], payload);
      assert stream[5..][..length] == stream[5..5 + length] && stream[5..][length..] == stream[5 + length..];
    }
  }
}
