/**
 BinarySerializer's writers: each resizes the buffer once and copies field after field at a moving offset.
 Each is proved to append exactly one encoded frame and to leave the existing bytes alone.
 */
module Serializer {
  import opened Domain
  import opened WireCodec

  /** memcpy(buffer.data() + offset, src, |src|); offset += |src| */
  method CopyField(buffer: seq<Byte>, offset: nat, src: seq<Byte>) returns (buffer': seq<Byte>, offset': nat)
    requires offset + |src| <= |buffer|
    ensures |buffer'| == |buffer| && offset' == offset + |src|
    ensures buffer'[..offset'] == buffer[..offset] + src
  {
    buffer' := CopyAt(buffer, offset, src);
    offset' := offset + |src|;
  }

  lemma CloseFrame(buffer: seq<Byte>, kind: Byte, payload: seq<Byte>, out: seq<Byte>)
    requires out[..|out|] == buffer + ([kind] + BE32(|payload|)) + payload
    ensures out == buffer + Frame(kind, payload)
  {
    assert out[..|out|] == out;
  }

  lemma FiveFields(head: seq<Byte>, a: seq<Byte>, b: seq<Byte>, c: seq<Byte>, d: seq<Byte>, e: seq<Byte>)
    ensures head + a + b + c + d + e == head + (a + b + c + d + e)
  {}

  /** Type byte and big-endian length, after making room for the whole frame. */
  method OpenFrame(buffer: seq<Byte>, kind: Byte, size: nat) returns (out: seq<Byte>, offset: nat)
    ensures |out| == |buffer| + 5 + size && offset == |buffer| + 5
    ensures out[..offset] == buffer + ([kind] + BE32(size))
  {
    offset := |buffer|;
    out := Resize(buffer, offset + 5 + size);
    assert out[..offset] == buffer;
    out, offset := CopyField(out, offset, [kind]);
    out, offset := CopyField(out, offset, BE32(size));
  }

  method SerializeOrder(order: Order, buffer: seq<Byte>) returns (out: seq<Byte>)
    ensures out == buffer + Encode(NewOrder(order))
  {
    var offset;
    out, offset := OpenFrame(buffer, NEW_ORDER, 22);
    out, offset := CopyField(out, offset, LE(8, order.id));
    out, offset := CopyField(out, offset, LE(8, order.price));
    out, offset := CopyField(out, offset, LE(4, order.quantity));
    out, offset := CopyField(out, offset, [SideByte(order.side)]);
    out, offset := CopyField(out, offset, [TypeByte(order.orderType)]);
    FiveFields(buffer + ([NEW_ORDER] + BE32(22)), LE(8, order.id), LE(8, order.price), LE(4, order.quantity),
               [SideByte(order.side)], [TypeByte(order.orderType)]);
    CloseFrame(buffer, NEW_ORDER, OrderPayload(order), out);
  }

  method SerializeTrade(trade: Trade, buffer: seq<Byte>) returns (out: seq<Byte>)
    ensures out == buffer + Encode(TradeReport(trade))
  {
    var offset;
    out, offset := OpenFrame(buffer, TRADE, 36);
    out, offset := CopyField(out, offset, LE(8, trade.price));
    out, offset := CopyField(out, offset, LE(8, trade.buyer));
    out, offset := CopyField(out, offset, LE(8, trade.seller));
    out, offset := CopyField(out, offset, LE(4, trade.quantity));
    out, offset := CopyField(out, offset, LE(8, trade.timestamp));
    FiveFields(buffer + ([TRADE] + BE32(36)), LE(8, trade.price), LE(8, trade.buyer), LE(8, trade.seller),
               LE(4, trade.quantity), LE(8, trade.timestamp));
    CloseFrame(buffer, TRADE, TradePayload(trade), out);
  }

  method SerializeRejection(id: OrderId, reason: seq<Byte>, buffer: seq<Byte>) returns (out: seq<Byte>)
    ensures out == buffer + Encode(Rejection(id, reason))
  {
    var offset;
    out, offset := OpenFrame(buffer, REJECT, 8 + 4 + |reason|);
    out, offset := CopyField(out, offset, LE(8, id));
    out, offset := CopyField(out, offset, LE(4, |reason|));
    out, offset := CopyField(out, offset, reason);
    CloseFrame(buffer, REJECT, RejectionPayload(id, reason), out);
  }

  method SerializeCancel(id: OrderId, buffer: seq<Byte>) returns (out: seq<Byte>)
    ensures out == buffer + Encode(CancelOrder(id))
  {
    var offset;
    out, offset := OpenFrame(buffer, CANCEL_ORDER, 8);
    out, offset := CopyField(out, offset, LE(8, id));
    CloseFrame(buffer, CANCEL_ORDER, LE(8, id), out);
  }

  method SerializeAcknowledgement(id: OrderId, buffer: seq<Byte>) returns (out: seq<Byte>)
    ensures out == buffer + Encode(OrderAck(id))
  {
    var offset;
    out, offset := OpenFrame(buffer, ORDER_ACK, 8);
    out, offset := CopyField(out, offset, LE(8, id));
    CloseFrame(buffer, ORDER_ACK, LE(8, id), out);
  }

  method SerializeCancelAck(id: OrderId, buffer: seq<Byte>) returns (out: seq<Byte>)
    ensures out == buffer + Encode(CancelAck(id))
  {
    var offset;
    out, offset := OpenFrame(buffer, CANCEL_ACK, 8);
    out, offset := CopyField(out, offset, LE(8, id));
    CloseFrame(buffer, CANCEL_ACK, LE(8, id), out);
  }
}
