/**
 * What a blocking ReadMessage(-1) loop sees: a message whose JSON parses to a
 * value of type T, a message that does not parse, or a read error.  Both
 * read loops in the repository stop at the first read error.
 */
module Topic {
  import opened Wrappers

  datatype Read<T> = Message(parsed: Option<T>) | ReadError

  /** The reads a loop consumes: everything before the first read error. */
  function ReadsBeforeError<T>(stream: seq<Read<T>>): (n: nat)
    ensures n <= |stream|
    ensures forall i :: 0 <= i < n ==> stream[i].Message?
    ensures n < |stream| ==> stream[n].ReadError?
  {
    if stream == [] || stream[0].ReadError? then 0 else 1 + ReadsBeforeError(stream[1..])
  }
}
