/**
 * The order service's producing loop (cmd/order_service/main.go): every
 * order the Avro codec encodes is framed with schema id 1 into a freshly
 * allocated byte buffer and handed to the producer; an order that fails to
 * encode is skipped.
 */
module OrderService {
  import opened Wrappers
  import opened WireFormat
  import Messaging

  /** The schema the service fetches from the registry, and the id it writes into every frame. */
  const OrderSchemaId: uint32 := 1

  /** Allocates 5 + |avroData| bytes and writes the magic byte, the big-endian id and the payload in place. */
  method FrameMessage(id: uint32, avroData: seq<byte>) returns (msg: array<byte>)
    ensures msg.Length == HeaderLength + |avroData|
    ensures msg[0] == MagicByte
    ensures msg[1..HeaderLength] == PutUint32(id)
    ensures msg[HeaderLength..] == avroData
    ensures msg[..] == Frame(id, avroData)
  {
    msg := new byte[HeaderLength + |avroData|];
    msg[0] := MagicByte;
    var be := PutUint32(id);
    msg[1] := be[0];
    msg[2] := be[1];
    msg[3] := be[2];
    msg[4] := be[3];
    var i := 0;
    while i < |avroData|
      invariant 0 <= i <= |avroData|
      invariant msg[..HeaderLength] == [MagicByte] + be
      invariant msg[HeaderLength..HeaderLength + i] == avroData[..i]
    {
      msg[HeaderLength + i] := avroData[i];
      i := i + 1;
    }
    assert msg[HeaderLength..] == msg[HeaderLength..HeaderLength + i];
    assert msg[..] == msg[..HeaderLength] + msg[HeaderLength..];
  }

  /** The messages the loop hands to the producer, in order: one frame per order that encodes. */
  function FramedOrders<C, O>(codec: C, orders: seq<O>, encode: (C, O) -> Option<seq<byte>>): (frames: seq<seq<byte>>)
    ensures |frames| <= |orders|
    ensures forall k :: 0 <= k < |frames| ==> |frames[k]| >= HeaderLength && frames[k][0] == MagicByte
  {
    if orders == [] then []
    else
      var last := orders[|orders| - 1];
      FramedOrders(codec, orders[..|orders| - 1], encode)
      + match encode(codec, last) case None => [] case Some(data) => [Frame(OrderSchemaId, data)]
  }

  /** The loop treats orders independently: the frames of a concatenation are the frames of its parts. */
  lemma {:induction false} FramedOrdersAppend<C, O>(codec: C, a: seq<O>, b: seq<O>, encode: (C, O) -> Option<seq<byte>>)
    ensures FramedOrders(codec, a + b, encode) == FramedOrders(codec, a, encode) + FramedOrders(codec, b, encode)
  {
    if b == [] {
      assert a + b == a;
    } else {
      var b' := b[..|b| - 1];
      assert (a + b)[..|a + b| - 1] == a + b';
      assert (a + b)[|a + b| - 1] == b[|b| - 1];
      FramedOrdersAppend(codec, a, b', encode);
    }
  }

  /** An order whose encoding fails is skipped, and every later order is still framed and produced. */
  lemma {:induction false} SkippedOrder<C, O>(codec: C, before: seq<O>, o: O, after: seq<O>, encode: (C, O) -> Option<seq<byte>>)
    requires encode(codec, o) == None
    ensures FramedOrders(codec, before + [o] + after, encode)
            == FramedOrders(codec, before, encode) + FramedOrders(codec, after, encode)
  {
    FramedOrdersAppend(codec, before + [o], after, encode);
    var bo := before + [o];
    assert bo[..|bo| - 1] == before && bo[|bo| - 1] == o;
    assert FramedOrders(codec, bo, encode) == FramedOrders(codec, before, encode);
  }

  /**
   * Every produced frame passes the consumer's framing check, carries schema
   * id 1 and has as payload the encoding of one of the orders.
   */
  lemma {:induction false} FramedOrdersDecode<C, O>(codec: C, orders: seq<O>, encode: (C, O) -> Option<seq<byte>>, k: nat)
    requires k < |FramedOrders(codec, orders, encode)|
    ensures var m := Messaging.Unframe(FramedOrders(codec, orders, encode)[k]);
      && m.Some? && m.value.schemaId == OrderSchemaId
      && exists i :: 0 <= i < |orders| && encode(codec, orders[i]) == Some(m.value.payload)
  {
    var init := orders[..|orders| - 1];
    var last := orders[|orders| - 1];
    var f := FramedOrders(codec, init, encode);
    if k < |f| {
      FramedOrdersDecode(codec, init, encode, k);
      var m := Messaging.Unframe(f[k]);
      var i :| 0 <= i < |init| && encode(codec, init[i]) == Some(m.value.payload);
      assert orders[i] == init[i];
    } else {
      var data := encode(codec, last).value;
      Messaging.UnframeFrame(OrderSchemaId, data);
      assert orders[|orders| - 1] == last;
    }
  }

  /** The per-order loop: encode, skip on failure, frame under schema id 1, produce. */
  method ProduceOrders<C, O>(codec: C, orders: seq<O>, encode: (C, O) -> Option<seq<byte>>)
    returns (produced: seq<seq<byte>>)
    ensures produced == FramedOrders(codec, orders, encode)
  {
    produced := [];
    var n := 0;
    while n < |orders|
      invariant 0 <= n <= |orders|
      invariant produced == FramedOrders(codec, orders[..n], encode)
    {
      assert orders[..n + 1][..n] == orders[..n];
      var avroData := encode(codec, orders[n]);
      if avroData.Some? {
        var msg := FrameMessage(OrderSchemaId, avroData.value);
        produced := produced + [msg[..]];
      }
      n := n + 1;
    }
    assert orders[..n] == orders;
  }

  /**
   * The whole service: fetch schema 1 and build its codec (either failure is
   * fatal, so nothing is produced), then run the per-order loop.
   */
  method RunOrderService<S, C, O>(getSchema: int -> Option<S>, newCodec: S -> Option<C>,
                                  orders: seq<O>, encode: (C, O) -> Option<seq<byte>>)
    returns (produced: seq<seq<byte>>)
    ensures getSchema(OrderSchemaId).None? ==> produced == []
    ensures getSchema(OrderSchemaId).Some? && newCodec(getSchema(OrderSchemaId).value).None? ==> produced == []
    ensures getSchema(OrderSchemaId).Some? && newCodec(getSchema(OrderSchemaId).value).Some? ==>
              produced == FramedOrders(newCodec(getSchema(OrderSchemaId).value).value, orders, encode)
  {
    var schema := getSchema(OrderSchemaId);
    if schema.None? {
      return [];
    }
    var codec := newCodec(schema.value);
    if codec.None? {
      return [];
    }
    produced := ProduceOrders(codec.value, orders, encode);
  }
}
