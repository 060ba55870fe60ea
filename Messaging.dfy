/**
 * The consuming side of the wire envelope (KafkaConsumer.ConsumeAvroMessage).
 * The Kafka read, the registry fetch, codec construction and Avro decoding are
 * foreign calls; they appear here as parameters, and the registry calls the
 * consumer makes are returned as a trace.  No schema is cached: every message
 * that passes the framing check causes one registry request.
 */
module Messaging {
  import opened Wrappers
  import opened WireFormat

  /** The two header fields and the payload of a well-framed message. */
  datatype Envelope = Envelope(schemaId: uint32, payload: seq<byte>)

  /** The framing check, the schema-id read and the payload slice. */
  function Unframe(value: seq<byte>): (r: Option<Envelope>)
    ensures r.Some? <==> |value| >= HeaderLength && value[0] == MagicByte
    ensures r.Some? ==> |r.value.payload| == |value| - HeaderLength
    ensures r.Some? ==> Frame(r.value.schemaId, r.value.payload) == value
  {
    if |value| < HeaderLength || value[0] != MagicByte then None
    else
      PutReadUint32(value[1..HeaderLength]);
      assert value == [value[0]] + value[1..HeaderLength] + value[HeaderLength..];
      Some(Envelope(ReadUint32(value[1..HeaderLength]), value[HeaderLength..]))
  }

  /** Decoding an envelope that Frame built gives back its schema id and payload, for every id and payload. */
  lemma UnframeFrame(id: uint32, payload: seq<byte>)
    ensures Unframe(Frame(id, payload)) == Some(Envelope(id, payload))
  {
    ReadPutUint32(id);
  }

  /** The error values ConsumeAvroMessage wraps with fmt.Errorf. */
  datatype ConsumeError =
    | ConsumerError            // the Kafka read failed
    | InvalidFormat            // shorter than the header, or a wrong magic byte
    | SchemaFetchFailed(schemaId: int)
    | CodecFailed
    | DecodeFailed

  /**
   * A native value out of the Avro decoder: a Go map[string]interface{}
   * (what goavro makes of a record, an Avro map or a non-null union), or any
   * other Go value.
   */
  datatype Native<D> = GoMap(fields: map<string, D>) | OtherValue(datum: D)

  /**
   * What ConsumeAvroMessage hands back: Go's (map, error) pair, or the panic
   * of the unchecked type assertion native.(map[string]interface{}).
   */
  datatype Reply<D> = Returned(native: Option<map<string, D>>, err: Option<ConsumeError>) | Panic

  /** The reply together with the schema ids requested from the registry, in order. */
  datatype Consumed<D> = Consumed(reply: Reply<D>, registryRequests: seq<int>)

  /**
   * One call of ConsumeAvroMessage.  `read` is the message value Kafka
   * returned (None for a read error); `getSchema`, `newCodec` and
   * `nativeFromBinary` are the registry client and goavro (None for an error).
   */
  function ConsumeAvroMessage<S, C, D>(read: Option<seq<byte>>, getSchema: int -> Option<S>,
                                       newCodec: S -> Option<C>,
                                       nativeFromBinary: (C, seq<byte>) -> Option<Native<D>>): (r: Consumed<D>)
    ensures r.reply.Returned? ==> (r.reply.native.Some? <==> r.reply.err.None?)
    ensures |r.registryRequests| <= 1
  {
    if read.None? then Consumed(Returned(None, Some(ConsumerError)), [])
    else
      match Unframe(read.value)
      case None => Consumed(Returned(None, Some(InvalidFormat)), [])
      case Some(env) =>
        var id := env.schemaId;
        match getSchema(id)
        case None => Consumed(Returned(None, Some(SchemaFetchFailed(id))), [id])
        case Some(schema) =>
          match newCodec(schema)
          case None => Consumed(Returned(None, Some(CodecFailed)), [id])
          case Some(codec) =>
            match nativeFromBinary(codec, env.payload)
            case None => Consumed(Returned(None, Some(DecodeFailed)), [id])
            case Some(GoMap(fields)) => Consumed(Returned(Some(fields), None), [id])
            case Some(OtherValue(_)) => Consumed(Panic, [id])
  }

  /** Whatever the registry and codec would do, a value that fails the framing check is rejected without contacting them. */
  lemma FramingRejectsFirst<S, C, D>(value: seq<byte>, getSchema: int -> Option<S>, newCodec: S -> Option<C>,
                                     nativeFromBinary: (C, seq<byte>) -> Option<Native<D>>)
    requires |value| < HeaderLength || value[0] != MagicByte
    ensures ConsumeAvroMessage(Some(value), getSchema, newCodec, nativeFromBinary)
            == Consumed(Returned(None, Some(InvalidFormat)), [])
  {
  }

  /**
   * A value that passes the framing check causes exactly one registry request,
   * for the big-endian id in bytes 1-4, and the decoder receives exactly the
   * bytes after the header (possibly none).
   */
  lemma FramedValueReachesDecoder<S, C, D>(value: seq<byte>, getSchema: int -> Option<S>, newCodec: S -> Option<C>,
                                           nativeFromBinary: (C, seq<byte>) -> Option<Native<D>>)
    requires |value| >= HeaderLength && value[0] == MagicByte
    ensures var r := ConsumeAvroMessage(Some(value), getSchema, newCodec, nativeFromBinary);
      && r.registryRequests == [value[1] as int * 0x100_0000 + value[2] as int * 0x1_0000 + value[3] as int * 0x100 + value[4] as int]
      && r.reply != Returned(None, Some(InvalidFormat))
      && forall s, c, f :: getSchema(r.registryRequests[0]) == Some(s) && newCodec(s) == Some(c)
                           && nativeFromBinary(c, value[HeaderLength..]) == Some(GoMap(f))
                           ==> r.reply == Returned(Some(f), None)
  {
  }

  /**
   * Round trip: a message framed with schema id `id` around `payload` is
   * decoded under that id, and its fields are what the codec makes of `payload`.
   */
  lemma ConsumeFramed<S, C, D>(id: uint32, payload: seq<byte>, getSchema: int -> Option<S>, newCodec: S -> Option<C>,
                               nativeFromBinary: (C, seq<byte>) -> Option<Native<D>>, schema: S, codec: C,
                               fields: map<string, D>)
    requires getSchema(id) == Some(schema) && newCodec(schema) == Some(codec)
    requires nativeFromBinary(codec, payload) == Some(GoMap(fields))
    ensures ConsumeAvroMessage(Some(Frame(id, payload)), getSchema, newCodec, nativeFromBinary)
            == Consumed(Returned(Some(fields), None), [id])
  {
    UnframeFrame(id, payload);
  }
}
