/** The records and constants of the user-activity ingestion pipeline (consumer/consumer.go). */
module UserActivity {
  import opened Models

  /** Number of events collected before a batch insert. */
  const BatchSize: nat := 10
  /** Attempts insertBatch makes before giving up on the database. */
  const MaxRetries: nat := 5
  /** The backoff unit, in milliseconds. */
  const BaseDelayMs: nat := 100
  const DeadLetterTopic: string := "dead_letter_queue"

  /** One parsed message of the user_activity topic. */
  datatype UserEvent = UserEvent(userId: string, eventType: string, timestamp: Int64)
}
