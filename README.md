# kafka-experiments: batched ingestion, the schema-registry envelope and inventory reservation

This project models, in Dafny, the four parts of the kafka-experiments Go
repository whose behaviour can be stated exactly, and proves what they do.

- **The user-activity consumer** (`consumer/consumer.go`). The read loop
  appends each parsed `UserEvent` to `eventBatch`. At ten events it calls
  `insertBatch` and resets the batch. A message that does not parse is
  skipped, and a read error ends the loop. The shutdown handler inserts a
  non-empty remainder once.
  - `insertBatch` builds one multi-row `INSERT` with numbered placeholders
    and makes up to five attempts, with an exponential backoff after each
    failure.
  - When every attempt fails, `sendToDLQ` publishes each event on its own
    to `dead_letter_queue`.
  - Modules: `UserActivity` (records and constants), `InsertSql` (the
    statement), `SinkWriter` (the retry loop and the dead-letter loop) and
    `Ingestor` (the loop as class `Consumer`, and a whole `Session`).
- **The wire envelope** (`cmd/order_service/main.go`,
  `internal/messaging/consumer.go`). This is the Confluent Schema Registry
  framing: a magic byte `0x00`, a 4-byte big-endian schema id, then the Avro
  payload.
  - `WireFormat` holds the byte-level encoding.
  - `OrderService` writes a frame into a freshly allocated byte array, and
    runs the per-order loop.
  - `Messaging` models `ConsumeAvroMessage` as a pure function. Its Kafka
    read, registry fetch and Avro codec are parameters, and it returns the
    schema ids it requested from the registry.
- **Inventory reservation** (`cmd/inventory_service/main.go`). Class
  `InventoryService` holds the package-level `productStock` map. Each parsed
  order takes one unit of `product1` when there is stock, and is republished
  on `inventory_reserved` or on `inventory_failed`.

The environment is abstract. Kafka reads are a sequence of `Read` values
(a message that parses, a message that does not, or a read error), shared
by both read loops in module `Topic`. The
database and the dead-letter producer answer through `seq<bool>` sequences,
one entry per attempt or publish, where a missing entry counts as a failure.
The registry and the codec are functions that may return `None`.

Three behaviours of the code that the model keeps as they are:
- There is no schema cache: `ConsumeAvroMessage` creates a new registry
  client and fetches the schema for every message that passes the framing
  check (internal/messaging/consumer.go:49-50).
- `insertBatch` sleeps `100 ms · 2^a` after failed attempt `a`, including
  after the fifth one (consumer/consumer.go:139-144).
- A read error ends the consumer loop without inserting the events still
  buffered (consumer/consumer.go:102-105).

## Model

| member | source | states |
|---|---|---|
| WireFormat.ReadUint32 | internal/messaging/consumer.go:45 | the schema id is b1·2^24 + b2·2^16 + b3·2^8 + b4 of the four header bytes, hence 0 <= id < 2^32 |
| WireFormat.PutUint32 | cmd/order_service/main.go:57 | binary.BigEndian.PutUint32 writes exactly four bytes, most significant first; ReadPutUint32 shows they read back as the id |
| WireFormat.ReadPutUint32 | cmd/order_service/main.go:57 | reading back the four big-endian bytes written for an id gives that id |
| WireFormat.PutReadUint32 | internal/messaging/consumer.go:45 | writing back the id read from four bytes reproduces those bytes, so the id determines the header |
| WireFormat.Frame | cmd/order_service/main.go:55-58 | a frame is 5 + n bytes long: byte 0 is 0x00, bytes 1-4 are the big-endian id, and the rest is the payload byte for byte |
| OrderService.FramedOrders | cmd/order_service/main.go:46-58 | the loop produces at most one message per order, and every message is at least 5 bytes long and starts with the magic byte 0x00 |
| OrderService.FrameMessage | cmd/order_service/main.go:55-58 | the array allocated and written in place has length 5 + len(avroData), byte 0 is 0x00, bytes 1-4 are PutUint32(id) and bytes 5.. are avroData, so its contents are the frame |
| OrderService.ProduceOrders | cmd/order_service/main.go:46-58 | the loop produces exactly one frame with schema id 1 for each order that encodes, in order |
| OrderService.RunOrderService | cmd/order_service/main.go:28-58 | a failed fetch of schema 1 or a failed codec construction produces nothing; otherwise the loop's frames are produced under the fetched schema's codec |
| OrderService.FramedOrdersAppend | cmd/order_service/main.go:46-58 | orders are framed independently: the frames of a concatenation are the frames of its parts |
| OrderService.SkippedOrder | cmd/order_service/main.go:48-52 | an order whose encoding fails is skipped, and every later order is still framed and produced |
| OrderService.FramedOrdersDecode | cmd/order_service/main.go:55-58 | every produced frame passes the consumer's framing check with schema id 1, and its payload is the encoding of one of the orders |
| Messaging.Unframe | internal/messaging/consumer.go:40-45 | the framing check passes iff the value has at least 5 bytes and byte 0 is 0x00; on success the payload is value[5..] (possibly empty), and framing the id and payload gives back the value |
| Messaging.UnframeFrame | internal/messaging/consumer.go:40-62 | round trip: every frame built from an id and a payload unframes to exactly that id and payload |
| Messaging.ConsumeAvroMessage | internal/messaging/consumer.go:34-67 | every returned pair has a map iff it has no error, so each error path returns a nil map; at most one registry request is made per message |
| Messaging.FramingRejectsFirst | internal/messaging/consumer.go:40-42 | a value shorter than 5 bytes or with a wrong magic byte is rejected as invalid format, with no registry request and no codec use, whatever they would answer |
| Messaging.FramedValueReachesDecoder | internal/messaging/consumer.go:40-67 | a well-framed value causes exactly one registry request, for the big-endian id in bytes 1-4, is never rejected as invalid format, and decodes to the fields the codec makes of value[5..] |
| Messaging.ConsumeFramed | internal/messaging/consumer.go:40-67 | a message framed under id around a payload is fetched under id and returns the fields the codec decodes from the payload, with no error |
| Inventory.Reserve | cmd/inventory_service/main.go:49-56 | with product1 stock s > 0: topic inventory_reserved and stock s - 1; with s <= 0: topic inventory_failed and the map unchanged; stock that is not negative stays so; the keys and every other product are unchanged; the decision reads only the stock |
| Inventory.StockOf | cmd/inventory_service/main.go:51 | productStock["product1"] is the stored count when the key is present and 0 when it is missing, as Go's map index gives |
| Inventory.Serve | cmd/inventory_service/main.go:40-64 | the loop publishes at most one message per read, and never adds or removes a product key from productStock |
| Inventory.ServeSchedule | cmd/inventory_service/main.go:40-64 | from stock s >= 0, each parsed order is republished once, unchanged and in order; the first s go to inventory_reserved and the rest to inventory_failed; product1 ends at max(0, s - orders); other products unchanged |
| Inventory.InitialSchedule | cmd/inventory_service/main.go:12-15 | from the initial map (product1: 10), orders 1-10 are reserved and every later order fails |
| Inventory.UnparsedMessage | cmd/inventory_service/main.go:44-47 | a message that does not parse changes no stock and publishes nothing |
| Inventory.InventoryService.constructor | cmd/inventory_service/main.go:12-15 | the service starts with product1: 10 and product2: 0 |
| Inventory.InventoryService.HandleOrder | cmd/inventory_service/main.go:49-64 | one order updates productStock in place as Reserve says and publishes the order, unchanged, on the chosen topic; product1 stays non-negative |
| Inventory.InventoryService.Run | cmd/inventory_service/main.go:40-75 | the loop stops at the first read error, and its publishes and final stock are those of ServeSchedule's loop over the reads before it |
| InsertSql.Decimal | consumer/consumer.go:124 | %d writes at least one digit and only decimal digits, with no leading zero for a positive number |
| InsertSql.DecimalRoundTrip | consumer/consumer.go:124 | the digits written for a placeholder number denote that number |
| InsertSql.JoinGroups | consumer/consumer.go:124-127 | the placeholder list starts with '(' and ends with ')', so it has no trailing comma |
| InsertSql.TrimLastComma | consumer/consumer.go:121-127 | cutting the last character of the accumulated "(...)," text leaves exactly the comma-separated groups |
| InsertSql.ArgsAt | consumer/consumer.go:120-125 | there are 3n arguments, and argument 3i + c is column c (user id, event type, timestamp) of event i |
| InsertSql.PlaceholderBinding | consumer/consumer.go:123-127 | placeholder $(3i+c+1) of group i is within the argument list and names column c of event i |
| InsertSql.BuildInsert | consumer/consumer.go:118-127 | for a non-empty batch the accumulated statement is the prefix, then the n groups joined by commas with no trailing comma, with the batch's 3n arguments in order |
| InsertSql.InsertStatement | consumer/consumer.go:118-127 | the statement for a non-empty batch ends with the closing parenthesis of its last group, not a comma, and carries three arguments per event |
| SinkWriter.BackoffIncreases | consumer/consumer.go:139 | the backoff base 100 ms · 2^a is strictly increasing in the failed attempt a |
| SinkWriter.BackoffMs | consumer/consumer.go:139 | the backoff base after any failed attempt is at least baseDelay, 100 ms |
| SinkWriter.BackoffDoubles | consumer/consumer.go:139 | each further failed attempt doubles the backoff base |
| SinkWriter.BackoffsAt | consumer/consumer.go:138-144 | the a-th backoff taken is the one for failed attempt a + 1 |
| SinkWriter.AttemptsMade | consumer/consumer.go:111-115 | insertBatch makes between 1 and 5 attempts |
| SinkWriter.AttemptsMadeSpec | consumer/consumer.go:115-134 | every attempt before the last fails, and the last one succeeds or is the fifth |
| SinkWriter.DeadLetters | consumer/consumer.go:153-169 | sendToDLQ makes exactly one publish per event of the batch |
| SinkWriter.RepeatAt | consumer/consumer.go:115-130 | every attempt of the loop executes the same statement |
| SinkWriter.InsertOutcome | consumer/consumer.go:110-151 | insertBatch makes 1 to 5 attempts; a write that succeeds follows one backoff per earlier attempt and dead-letters nothing; a batch that is never written follows one backoff per attempt and dead-letters one publish per event |
| SinkWriter.DeadLettersAt | consumer/consumer.go:156-169 | dead-letter publish i carries event i to dead_letter_queue, and whether it is accepted depends only on the producer's i-th answer, so a failed publish does not stop later ones |
| SinkWriter.InsertedIff | consumer/consumer.go:115-134 | the batch is written iff one of the first five attempts succeeds |
| SinkWriter.SucceedsOnAttempt | consumer/consumer.go:111-134 | if the sink first succeeds on attempt k+1 <= 5, exactly k+1 attempts and k backoffs are made and nothing is dead-lettered |
| SinkWriter.AllAttemptsFail | consumer/consumer.go:111-150 | if every attempt fails, exactly 5 attempts are made, a backoff of 200, 400, 800, 1600 and 3200 ms follows each, and the unchanged batch is dead-lettered |
| SinkWriter.SendToDlq | consumer/consumer.go:153-169 | the loop makes one publish per event, in batch order, to dead_letter_queue |
| SinkWriter.InsertBatch | consumer/consumer.go:110-151 | the counted attempt loop behaves as InsertOutcome says, and every attempt executes the same statement built from the batch |
| Topic.ReadsBeforeError | consumer/consumer.go:82-105 | the reads a loop consumes are all messages, and the read that follows them, if any, is a read error; the inventory loop (cmd/inventory_service/main.go) stops the same way |
| Ingestor.Parsed | consumer/consumer.go:87-92 | the loop appends at most one event per read |
| Ingestor.ParsedAppend | consumer/consumer.go:87-92 | parsing is per message: the events of a concatenation of reads are the events of its parts |
| Ingestor.PoisonPillIsolated | consumer/consumer.go:89-92 | a message that does not parse is dropped on its own; the messages around it are unaffected |
| Ingestor.Append | consumer/consumer.go:95-101 | an append below capacity just appends; the append that reaches 10 events flushes the batch in arrival order and leaves it empty; the batch stays below 10 |
| Ingestor.Feed | consumer/consumer.go:95-101 | appending events never lowers the number of batches handed to insertBatch |
| Ingestor.FeedAppend | consumer/consumer.go:82-101 | feeding two runs of events in turn is feeding their concatenation |
| Ingestor.FeedBounded | consumer/consumer.go:95-101 | the batch stays below 10 events, every flush holds exactly 10, and earlier flushes are never changed |
| Ingestor.FeedPreservesEvents | consumer/consumer.go:95-101 | the flushed batches followed by the current batch are the received events in arrival order: nothing is lost, duplicated or reordered |
| Ingestor.FeedBelowCapacity | consumer/consumer.go:95-101 | from an empty batch, appends 1-9 flush nothing |
| Ingestor.FeedToCapacity | consumer/consumer.go:95-101 | the append that fills the batch flushes it exactly once, with those events in arrival order, and leaves it empty |
| Ingestor.Consumer.constructor | consumer/consumer.go:65 | the consumer starts with an empty batch and no insertBatch calls |
| Ingestor.Consumer.CallInsertBatch | consumer/consumer.go:99-151 | one insertBatch call is logged with its batch, and its report is the outcome of insertBatch under the environment's answers for that call |
| Ingestor.Consumer.Accept | consumer/consumer.go:95-101 | the batch and the insertBatch calls change as Append says, and the logged calls stay insertBatch's outcomes |
| Ingestor.Consumer.Step | consumer/consumer.go:87-101 | a message that parses is accepted, and one that does not leaves the batch and the calls unchanged |
| Ingestor.Consumer.Run | consumer/consumer.go:82-106 | the loop ends with a read error iff there is one, and the batch and calls are those of feeding the parsed events before it |
| Ingestor.Consumer.Shutdown | consumer/consumer.go:68-79 | on the signal, insertBatch is called exactly once with the remaining events if there are any, and not at all otherwise |
| Ingestor.SessionAccounts | consumer/consumer.go:68-106 | after the loop and an optional shutdown flush, each parsed event is in exactly one batch, in order, or left over; only a shutdown flush is shorter than 10; the shutdown path leaves nothing over |
| Ingestor.Session | consumer/consumer.go:65-106 | a whole run: the flushed batches plus what is left are the parsed events in order; every call's report is insertBatch's outcome; batches hold 10 events except a shutdown flush; a signal before any read error loses nothing |

## Left out

- The Kafka consumer and producer, `pgx`, the `srclient` registry client and the `goavro` codec are foreign libraries. They appear only as abstract answers: read outcomes, `seq<bool>` success flags, and functions that may fail.
- JSON marshalling and unmarshalling are abstract. A message either parses to an event or does not, and the republished inventory payload is the parsed order itself.
- The random jitter, the float `math.Pow` and `time.Sleep` are not modelled. Only the integer backoff base `100 ms · 2^a` is kept. Because `math.Pow` is exact for powers of two up to 2^5, the float makes no difference.
- The shutdown goroutine runs concurrently with the read loop and reads `eventBatch` without synchronisation. It is modelled as one sequential step taken between two loop iterations. `os.Exit` is modelled by the loop not running again.
- `producer.Flush`, `c.Close`, the log lines and the connection set-up are not modelled. They are I/O with no effect on the modelled state. Without `Flush`, a dead-letter publish that is `accepted` has been queued by the producer, not known to be delivered.
- `eventBatch[:0]` keeps the old backing array. The model resets to an empty sequence, so backing-array aliasing is not modelled. No caller keeps the old slice.
- InsertSql.BuildInsert: requires a non-empty batch. The code would slice out of range at consumer/consumer.go:127 for an empty one, and both callers only pass non-empty batches.
- SinkWriter.InsertBatch: requires a non-empty batch, for the same reason as InsertSql.BuildInsert.
- Messaging.ConsumeAvroMessage: a decoded native value that is not a Go `map[string]interface{}` is modelled as a `Panic` reply. This stands for the unchecked type assertion at internal/messaging/consumer.go:67, which panics. Which Avro schemas decode to a Go map is goavro's business, so it stays inside the abstract decoder.
- The relay services (payment, shipping, delivery, notification), `producer/producer.go`, the `cmd/*_consumer` programs and `consumer/db.go` are wiring around one assignment, comparison or connection, and are not part of this model.
