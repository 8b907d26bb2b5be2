/**
 The binary wire format: a one-byte message type, a big-endian payload length and a payload of raw
 little-endian fields. Serializers append one frame to a buffer; deserializers read a payload.
 */
module WireCodec {
  import opened Domain
  import opened BitMask

  const NEW_ORDER: Byte := 1
  const CANCEL_ORDER: Byte := 2
  const ORDER_ACK: Byte := 3
  const REJECT: Byte := 4
  const TRADE: Byte := 5
  const CANCEL_ACK: Byte := 6

  // ---- Integers as bytes ----------------------------------------------------------------------

  /** The low n bytes of x, least significant first: memcpy from a little-endian integer. */
  function LE(n: nat, x: nat): (b: seq<Byte>)
    ensures |b| == n
  {
    if n == 0 then [] else [x % 256] + LE(n - 1, x / 256)
  }

  function FromLE(b: seq<Byte>): nat {
    if b == [] then 0 else b[0] + 256 * FromLE(b[1..])
  }

  function Pow256(n: nat): (p: nat)
    ensures p > 0
  {
    if n == 0 then 1 else 256 * Pow256(n - 1)
  }

  lemma ModStep(x: nat, p: nat)
    requires p > 0
    ensures x % (256 * p) == x % 256 + 256 * ((x / 256) % p)
  {
    var y := x / 256;
    var q, r := y / p, y % p;
    assert y == p * q + r;
    assert x == (256 * p) * q + (256 * r + x % 256);
    ModUnique(x, 256 * p, q, 256 * r + x % 256);
  }

  /** Writing n bytes and reading them back keeps x modulo 256^n. */
  lemma {:induction false} LETruncates(n: nat, x: nat)
    ensures FromLE(LE(n, x)) == x % Pow256(n)
  {
    if n > 0 {
      LETruncates(n - 1, x / 256);
      assert LE(n, x)[1..] == LE(n - 1, x / 256);
      ModStep(x, Pow256(n - 1));
    }
  }

  lemma {:induction false} FromLEInverse(b: seq<Byte>)
    ensures FromLE(b) < Pow256(|b|)
    ensures LE(|b|, FromLE(b)) == b
  {
    if b != [] {
      FromLEInverse(b[1..]);
      assert FromLE(b) % 256 == b[0] && FromLE(b) / 256 == FromLE(b[1..]);
    }
  }

  lemma Pow256Values()
    ensures Pow256(4) == TWO32 && Pow256(8) == TWO64
  {
    assert Pow256(2) == 0x1_0000;
    assert Pow256(4) == 256 * (256 * Pow256(2));
    assert Pow256(6) == 256 * (256 * Pow256(4));
  }

  lemma Word32Inverse(x: nat)
    requires x < TWO32
    ensures FromLE(LE(4, x)) == x
  {
    Pow256Values();
    LETruncates(4, x);
  }

  lemma Word64Inverse(x: nat)
    requires x < TWO64
    ensures FromLE(LE(8, x)) == x
  {
    Pow256Values();
    LETruncates(8, x);
  }

  function FromWord32(b: seq<Byte>): Quantity
    requires |b| == 4
  {
    FromLEInverse(b);
    Pow256Values();
    FromLE(b)
  }

  function FromWord64(b: seq<Byte>): OrderId
    requires |b| == 8
  {
    FromLEInverse(b);
    Pow256Values();
    FromLE(b)
  }

  function Swapped(b: seq<Byte>): (r: seq<Byte>)
    requires |b| == 4
    ensures |r| == 4
  {
    [b[3], b[2], b[1], b[0]]
  }

  /** htonl: the low four bytes, most significant first. */
  function BE32(x: nat): (b: seq<Byte>)
    ensures |b| == 4
  {
    Swapped(LE(4, x))
  }

  /** ntohl */
  function FromBE32(b: seq<Byte>): Quantity
    requires |b| == 4
  {
    FromWord32(Swapped(b))
  }

  lemma BE32Truncates(x: nat)
    ensures FromBE32(BE32(x)) == x % TWO32
  {
    assert Swapped(Swapped(LE(4, x))) == LE(4, x);
    Pow256Values();
    LETruncates(4, x);
  }

  // ---- Buffers --------------------------------------------------------------------------------

  /** recv or memcpy writing into a buffer at an offset. */
  function CopyAt(b: seq<Byte>, at: nat, chunk: seq<Byte>): (r: seq<Byte>)
    requires at + |chunk| <= |b|
    ensures |r| == |b| && r[..at + |chunk|] == b[..at] + chunk
  {
    b[..at] + chunk + b[at + |chunk|..]
  }

  /** vector::resize: keeps the common prefix, fills with zeros. */
  function Resize(b: seq<Byte>, n: nat): (r: seq<Byte>)
    ensures |r| == n
  {
    if n <= |b| then b[..n] else b + seq(n - |b|, i => 0)
  }

  // ---- Messages -------------------------------------------------------------------------------

  datatype WireMessage =
    | NewOrder(order: Order)
    | CancelOrder(id: OrderId)
    | OrderAck(id: OrderId)
    | Rejection(id: OrderId, reason: seq<Byte>)
    | TradeReport(trade: Trade)
    | CancelAck(id: OrderId)

  function KindOf(m: WireMessage): Byte {
    match m
    case NewOrder(_) => NEW_ORDER
    case CancelOrder(_) => CANCEL_ORDER
    case OrderAck(_) => ORDER_ACK
    case Rejection(_, _) => REJECT
    case TradeReport(_) => TRADE
    case CancelAck(_) => CANCEL_ACK
  }

  function SideByte(s: Side): Byte {
    if s.Bid? then 0 else 1
  }

  function TypeByte(t: OrderType): Byte {
    if t.Limit? then 0 else 1
  }

  function OrderPayload(o: Order): seq<Byte> {
    LE(8, o.id) + LE(8, o.price) + LE(4, o.quantity) + [SideByte(o.side)] + [TypeByte(o.orderType)]
  }

  function TradePayload(t: Trade): seq<Byte> {
    LE(8, t.price) + LE(8, t.buyer) + LE(8, t.seller) + LE(4, t.quantity) + LE(8, t.timestamp)
  }

  function RejectionPayload(id: OrderId, reason: seq<Byte>): seq<Byte> {
    LE(8, id) + LE(4, |reason|) + reason
  }

  function PayloadOf(m: WireMessage): seq<Byte> {
    match m
    case NewOrder(order) => OrderPayload(order)
    case CancelOrder(id) => LE(8, id)
    case OrderAck(id) => LE(8, id)
    case Rejection(id, reason) => RejectionPayload(id, reason)
    case TradeReport(trade) => TradePayload(trade)
    case CancelAck(id) => LE(8, id)
  }

  /** A frame as it travels: the length field keeps only the low 32 bits of the payload size. */
  function Frame(kind: Byte, payload: seq<Byte>): seq<Byte> {
    [kind] + BE32(|payload|) + payload
  }

  function Encode(m: WireMessage): seq<Byte> {
    Frame(KindOf(m), PayloadOf(m))
  }

  function EncodeAll(ms: seq<WireMessage>): seq<Byte> {
    if ms == [] then [] else Encode(ms[0]) + EncodeAll(ms[1..])
  }

  // ---- Deserializers --------------------------------------------------------------------------

  /** What a payload that passes the constructor's checks is to the engine. Side and type are bytes, and every value of
      a byte is a value of its enum: match takes neither branch for an unlisted side, so such an order is inert, and
      treats an unlisted type as it treats MARKET, without looking at the price. */
  datatype Ticket = Live(order: Order) | Inert(id: OrderId)

  /** deserialize_order: the constructor's checks run on whatever the payload holds; the checks of the price apply to
      the listed types only. */
  function DeserializeOrder(p: seq<Byte>): (r: Result<Ticket>)
    requires |p| >= 22
    ensures r.Success? && r.value.Live? ==> r.value.order.Valid()
  {
    var id := FromWord64(p[0..8]);
    var price := if p[21] <= 1 then FromWord64(p[8..16]) else 0;
    match MakeOrder(id, price, FromWord32(p[16..20]),
                    if p[20] == 0 then Bid else Ask, if p[21] == 0 then Limit else Market)
    case Failure(error) => Failure(error)
    case Success(order) => Success(if p[20] <= 1 then Live(order) else Inert(id))
  }

  /** The listed sides and types. */
  predicate Listed(p: seq<Byte>) {
    |p| >= 22 && p[20] <= 1 && p[21] <= 1
  }

  function DeserializeId(p: seq<Byte>): OrderId
    requires |p| >= 8
  {
    FromWord64(p[0..8])
  }

  predicate RejectionPayloadOk(p: seq<Byte>) {
    |p| >= 12 && |p| >= 12 + FromWord32(p[8..12])
  }

  function DeserializeRejection(p: seq<Byte>): WireMessage
    requires RejectionPayloadOk(p)
  {
    Rejection(FromWord64(p[0..8]), p[12..12 + FromWord32(p[8..12])])
  }

  function DeserializeTrade(p: seq<Byte>): Trade
    requires |p| >= 36
  {
    Trade(FromWord64(p[0..8]), FromWord64(p[8..16]), FromWord64(p[16..24]),
          FromWord32(p[24..28]), FromWord64(p[28..36]))
  }

  /** Dispatch on the type byte to the matching deserializer. */
  function Decode(kind: Byte, p: seq<Byte>): Option<WireMessage> {
    if kind == NEW_ORDER && Listed(p) && DeserializeOrder(p).Success? then
      Some(NewOrder(DeserializeOrder(p).value.order))
    else if kind == CANCEL_ORDER && |p| >= 8 then Some(CancelOrder(DeserializeId(p)))
    else if kind == ORDER_ACK && |p| >= 8 then Some(OrderAck(DeserializeId(p)))
    else if kind == REJECT && RejectionPayloadOk(p) then Some(DeserializeRejection(p))
    else if kind == TRADE && |p| >= 36 then Some(TradeReport(DeserializeTrade(p)))
    else if kind == CANCEL_ACK && |p| >= 8 then Some(CancelAck(DeserializeId(p)))
    else None
  }

  /** Messages the format can carry: orders satisfy the constructor, rejections fit a 32-bit length. */
  predicate Encodable(m: WireMessage) {
    && (m.NewOrder? ==> m.order.Valid())
    && (m.Rejection? ==> 12 + |m.reason| < TWO32)
  }

  lemma OrderRoundTrip(o: Order)
    requires o.Valid()
    ensures Listed(OrderPayload(o)) && DeserializeOrder(OrderPayload(o)) == Success(Live(o))
  {
    var p := OrderPayload(o);
    assert p[0..8] == LE(8, o.id) && p[8..16] == LE(8, o.price) && p[16..20] == LE(4, o.quantity);
    Word64Inverse(o.id);
    Word64Inverse(o.price);
    Word32Inverse(o.quantity);
  }

  lemma TradeRoundTrip(t: Trade)
    ensures |TradePayload(t)| == 36 && DeserializeTrade(TradePayload(t)) == t
  {
    var p := TradePayload(t);
    assert p[0..8] == LE(8, t.price) && p[8..16] == LE(8, t.buyer) && p[16..24] == LE(8, t.seller);
    assert p[24..28] == LE(4, t.quantity) && p[28..36] == LE(8, t.timestamp);
    Word64Inverse(t.price);
    Word64Inverse(t.buyer);
    Word64Inverse(t.seller);
    Word32Inverse(t.quantity);
    Word64Inverse(t.timestamp);
  }

  lemma RejectionRoundTrip(id: OrderId, reason: seq<Byte>)
    requires |reason| < TWO32
    ensures RejectionPayloadOk(RejectionPayload(id, reason))
    ensures DeserializeRejection(RejectionPayload(id, reason)) == Rejection(id, reason)
  {
    var p := RejectionPayload(id, reason);
    assert p[0..8] == LE(8, id) && p[8..12] == LE(4, |reason|) && p[12..12 + |reason|] == reason;
    Word64Inverse(id);
    Word32Inverse(|reason|);
  }

  lemma IdRoundTrip(id: OrderId)
    ensures DeserializeId(LE(8, id)) == id
  {
    assert LE(8, id)[0..8] == LE(8, id);
    Word64Inverse(id);
  }

  /** Every serializer is undone by its deserializer. */
  lemma DecodeInvertsPayload(m: WireMessage)
    requires Encodable(m)
    ensures Decode(KindOf(m), PayloadOf(m)) == Some(m)
  {
    match m
    case NewOrder(order) => OrderRoundTrip(order);
    case Rejection(id, reason) => RejectionRoundTrip(id, reason);
    case TradeReport(trade) => TradeRoundTrip(trade);
    case CancelOrder(id) => IdRoundTrip(id);
    case OrderAck(id) => IdRoundTrip(id);
    case CancelAck(id) => IdRoundTrip(id);
  }

  // ---- The layout, byte by byte ---------------------------------------------------------------

  lemma DivStep(x: nat, p: nat)
    requires p > 0
    ensures x / 256 / p == x / (256 * p)
  {
    var q, r := x / (256 * p), x % (256 * p);
    assert x == (256 * p) * q + r;
    var y := x / 256;
    assert 256 * (p * q) == (256 * p) * q;
    var t := y - p * q;
    assert 0 <= t < p;
    ModUnique(y, p, q, t);
    assert p * (y / p) == p * q;
    Distribute(p, y / p, q);
    MulBound(p, y / p - q);
  }

  lemma {:induction false} ByteOfWord(n: nat, x: nat, i: nat)
    requires i < n
    ensures LE(n, x)[i] == x / Pow256(i) % 256
  {
    if i > 0 {
      ByteOfWord(n - 1, x / 256, i - 1);
      DivStep(x, Pow256(i - 1));
    }
  }

  /** The i-th byte of the little-endian field at an offset. */
  ghost predicate FieldAt(b: seq<Byte>, at: nat, width: nat, value: nat) {
    at + width <= |b| && forall i :: 0 <= i < width ==> b[at + i] == value / Pow256(i) % 256
  }

  lemma FieldOf(b: seq<Byte>, at: nat, width: nat, value: nat)
    requires at + width <= |b| && b[at..at + width] == LE(width, value)
    ensures FieldAt(b, at, width, value)
  {
    forall i | 0 <= i < width
      ensures b[at + i] == value / Pow256(i) % 256
    {
      ByteOfWord(width, value, i);
      assert b[at..at + width][i] == b[at + i];
    }
  }

  /** The header of every frame: the type byte, then the low 32 bits of the payload's size, most significant first. */
  lemma FrameHeader(kind: Byte, payload: seq<Byte>)
    ensures var b, n := Frame(kind, payload), |payload|;
            && |b| == 5 + n && b[5..] == payload
            && b[..5] == [kind, n / 0x100_0000 % 256, n / 0x1_0000 % 256, n / 0x100 % 256, n % 256]
  {
    ByteOfWord(4, |payload|, 0);
    ByteOfWord(4, |payload|, 1);
    ByteOfWord(4, |payload|, 2);
    ByteOfWord(4, |payload|, 3);
    assert Pow256(1) == 256 && Pow256(2) == 0x1_0000 && Pow256(3) == 0x100_0000;
  }

  lemma HeaderOf(kind: Byte, payload: seq<Byte>)
    requires |payload| < 256
    ensures Frame(kind, payload)[..5] == [kind, 0, 0, 0, |payload|]
  {
    FrameHeader(kind, payload);
  }

  /** A field of the payload is a field of the frame, five bytes further on. */
  lemma FrameField(kind: Byte, payload: seq<Byte>, at: nat, width: nat, value: nat)
    requires at + width <= |payload| && payload[at..at + width] == LE(width, value)
    ensures FieldAt(Frame(kind, payload), 5 + at, width, value)
  {
    assert Frame(kind, payload)[5 + at..5 + at + width] == payload[at..at + width];
    FieldOf(Frame(kind, payload), 5 + at, width, value);
  }

  /** A NEW_ORDER frame: 27 bytes, big-endian length, then id, price, quantity, side and type. */
  lemma OrderLayout(o: Order)
    ensures var b := Encode(NewOrder(o));
            && |b| == 27 && b[..5] == [1, 0, 0, 0, 22]
            && FieldAt(b, 5, 8, o.id) && FieldAt(b, 13, 8, o.price) && FieldAt(b, 21, 4, o.quantity)
            && b[25] == (if o.side.Bid? then 0 else 1) && b[26] == (if o.orderType.Limit? then 0 else 1)
  {
    var p := OrderPayload(o);
    HeaderOf(NEW_ORDER, p);
    assert p[0..8] == LE(8, o.id) && p[8..16] == LE(8, o.price) && p[16..20] == LE(4, o.quantity);
    FrameField(NEW_ORDER, p, 0, 8, o.id);
    FrameField(NEW_ORDER, p, 8, 8, o.price);
    FrameField(NEW_ORDER, p, 16, 4, o.quantity);
  }

  /** A TRADE frame: 41 bytes with price, buyer, seller, quantity and timestamp. */
  lemma TradeLayout(t: Trade)
    ensures var b := Encode(TradeReport(t));
            && |b| == 41 && b[..5] == [5, 0, 0, 0, 36]
            && FieldAt(b, 5, 8, t.price) && FieldAt(b, 13, 8, t.buyer) && FieldAt(b, 21, 8, t.seller)
            && FieldAt(b, 29, 4, t.quantity) && FieldAt(b, 33, 8, t.timestamp)
  {
    var p := TradePayload(t);
    HeaderOf(TRADE, p);
    assert p[0..8] == LE(8, t.price) && p[8..16] == LE(8, t.buyer) && p[16..24] == LE(8, t.seller);
    assert p[24..28] == LE(4, t.quantity) && p[28..36] == LE(8, t.timestamp);
    FrameField(TRADE, p, 0, 8, t.price);
    FrameField(TRADE, p, 8, 8, t.buyer);
    FrameField(TRADE, p, 16, 8, t.seller);
    FrameField(TRADE, p, 24, 4, t.quantity);
    FrameField(TRADE, p, 28, 8, t.timestamp);
  }

  lemma IdLayout(kind: Byte, id: OrderId)
    ensures var b := Frame(kind, LE(8, id));
            |b| == 13 && b[..5] == [kind, 0, 0, 0, 8] && FieldAt(b, 5, 8, id)
  {
    HeaderOf(kind, LE(8, id));
    assert LE(8, id)[0..8] == LE(8, id);
    FrameField(kind, LE(8, id), 0, 8, id);
  }

  /** The three messages that carry an id alone: CANCEL_ORDER is type 2, ORDER_ACK type 3, CANCEL_ACK type 6. */
  lemma IdMessageLayouts(id: OrderId)
    ensures var b := Encode(CancelOrder(id)); |b| == 13 && b[..5] == [2, 0, 0, 0, 8] && FieldAt(b, 5, 8, id)
    ensures var b := Encode(OrderAck(id)); |b| == 13 && b[..5] == [3, 0, 0, 0, 8] && FieldAt(b, 5, 8, id)
    ensures var b := Encode(CancelAck(id)); |b| == 13 && b[..5] == [6, 0, 0, 0, 8] && FieldAt(b, 5, 8, id)
  {
    IdLayout(2, id);
    IdLayout(3, id);
    IdLayout(6, id);
  }

  /** A REJECT frame: type 4, big-endian length, id, reason length, reason. */
  lemma RejectionLayout(id: OrderId, reason: seq<Byte>)
    ensures var b, n := Encode(Rejection(id, reason)), 12 + |reason|;
            && |b| == 5 + n
            && b[..5] == [4, n / 0x100_0000 % 256, n / 0x1_0000 % 256, n / 0x100 % 256, n % 256]
            && FieldAt(b, 5, 8, id) && FieldAt(b, 13, 4, |reason|) && b[17..] == reason
  {
    var p := RejectionPayload(id, reason);
    FrameHeader(REJECT, p);
    assert p[0..8] == LE(8, id) && p[8..12] == LE(4, |reason|) && p[12..] == reason;
    FrameField(REJECT, p, 0, 8, id);
    FrameField(REJECT, p, 8, 4, |reason|);
    assert Frame(REJECT, p)[17..] == Frame(REJECT, p)[5..][12..];
  }

  // ---- What the deserializers read, byte by byte ----------------------------------------------

  lemma FieldRead(p: seq<Byte>, at: nat, width: nat)
    requires at + width <= |p|
    ensures FieldAt(p, at, width, FromLE(p[at..at + width]))
  {
    FromLEInverse(p[at..at + width]);
    FieldOf(p, at, width, FromLE(p[at..at + width]));
  }

  /** An id is the first eight bytes of any payload long enough. */
  lemma IdRead(p: seq<Byte>)
    requires |p| >= 8
    ensures FieldAt(p, 0, 8, DeserializeId(p))
  {
    FieldRead(p, 0, 8);
  }

  lemma TradeRead(p: seq<Byte>)
    requires |p| >= 36
    ensures var t := DeserializeTrade(p);
            && FieldAt(p, 0, 8, t.price) && FieldAt(p, 8, 8, t.buyer) && FieldAt(p, 16, 8, t.seller)
            && FieldAt(p, 24, 4, t.quantity) && FieldAt(p, 28, 8, t.timestamp)
  {
    FieldRead(p, 0, 8);
    FieldRead(p, 8, 8);
    FieldRead(p, 16, 8);
    FieldRead(p, 24, 4);
    FieldRead(p, 28, 8);
  }

  lemma RejectionRead(p: seq<Byte>)
    requires RejectionPayloadOk(p)
    ensures var m := DeserializeRejection(p);
            && m.Rejection? && FieldAt(p, 0, 8, m.id) && FieldAt(p, 8, 4, |m.reason|)
            && m.reason == p[12..12 + |m.reason|]
  {
    FieldRead(p, 0, 8);
    FieldRead(p, 8, 4);
  }

  /** Price and quantity as the payload of a NEW_ORDER holds them. */
  function PriceIn(p: seq<Byte>): Price
    requires |p| >= 22
  {
    FromWord64(p[8..16])
  }

  function QuantityIn(p: seq<Byte>): Quantity
    requires |p| >= 22
  {
    FromWord32(p[16..20])
  }

  /** What the constructor refuses: no quantity, a LIMIT order without a price, a MARKET order with one. */
  predicate Refused(p: seq<Byte>)
    requires |p| >= 22
  {
    QuantityIn(p) == 0 || (p[21] == 0 && PriceIn(p) == 0) || (p[21] == 1 && PriceIn(p) > 0)
  }

  /** The first check that fails gives the reason. */
  function Reason(p: seq<Byte>): string
    requires |p| >= 22
  {
    if p[21] == 0 && PriceIn(p) == 0 then "limit orders cant have non-positive price"
    else if p[21] == 1 && PriceIn(p) > 0 then "market orders cant have positive price"
    else "quantity must be greater than 0"
  }

  /** The order a payload stands for when its side is listed. */
  function OrderIn(p: seq<Byte>): Order
    requires |p| >= 22
  {
    Order(DeserializeId(p), if p[21] > 1 then 0 else PriceIn(p), QuantityIn(p),
          if p[20] == 0 then Bid else Ask, if p[21] == 0 then Limit else Market)
  }

  /** Which payloads are refused, and with what words; what every other one is read as; and at which bytes. */
  lemma OrderRead(p: seq<Byte>)
    requires |p| >= 22
    ensures FieldAt(p, 0, 8, DeserializeId(p)) && FieldAt(p, 8, 8, PriceIn(p)) && FieldAt(p, 16, 4, QuantityIn(p))
    ensures DeserializeOrder(p).Failure? <==> Refused(p)
    ensures Refused(p) ==> DeserializeOrder(p).error == Reason(p)
    ensures !Refused(p) ==> DeserializeOrder(p).value == if p[20] > 1 then Inert(DeserializeId(p)) else Live(OrderIn(p))
  {
    FieldRead(p, 0, 8);
    FieldRead(p, 8, 8);
    FieldRead(p, 16, 4);
  }
}
