/**
 * The multi-row INSERT that insertBatch builds for a batch: one group of
 * three numbered placeholders per event, and the events' fields as the
 * positional arguments, in batch order.
 */
module InsertSql {
  import opened Models
  import opened UserActivity

  /** A positional argument handed to the database driver. */
  datatype Arg = Text(s: string) | Int64Arg(v: Int64)

  /** A statement and its arguments. */
  datatype Statement = Statement(sql: string, args: seq<Arg>)

  const InsertPrefix: string := "INSERT INTO user_activity (user_id, event_type, timestamp) VALUES "

  /** The three column values of one event, in column order. */
  function Fields(e: UserEvent): seq<Arg>
  {
    [Text(e.userId), Text(e.eventType), Int64Arg(e.timestamp)]
  }

  /** The positional arguments of a batch: the fields of each event, in batch order. */
  function ArgsOf(batch: seq<UserEvent>): seq<Arg>
  {
    if batch == [] then [] else ArgsOf(batch[..|batch| - 1]) + Fields(batch[|batch| - 1])
  }

  /** The 1-based placeholder numbers of the group for the event at index i. */
  function GroupNumbers(i: nat): seq<nat>
  {
    [3 * i + 1, 3 * i + 2, 3 * i + 3]
  }

  function DigitChar(d: nat): char
    requires d < 10
  {
    (48 + d) as char
  }

  /** fmt's %d for a non-negative integer: decimal digits, no leading zeros. */
  function Decimal(n: nat): (s: string)
    ensures |s| >= 1 && forall k :: 0 <= k < |s| ==> '0' <= s[k] <= '9'
    ensures n > 0 ==> s[0] != '0'
  {
    if n < 10 then [DigitChar(n)] else Decimal(n / 10) + [DigitChar(n % 10)]
  }

  /** The value of a string of decimal digits. */
  function DecimalValue(s: string): nat
    requires forall k :: 0 <= k < |s| ==> '0' <= s[k] <= '9'
  {
    if s == [] then 0 else DecimalValue(s[..|s| - 1]) * 10 + (s[|s| - 1] as int - 48)
  }

  /** The text Decimal writes denotes the number it was given, so "$k" names placeholder k. */
  lemma {:induction false} DecimalRoundTrip(n: nat)
    ensures DecimalValue(Decimal(n)) == n
  {
    if n >= 10 {
      DecimalRoundTrip(n / 10);
      var s := Decimal(n);
      assert s[..|s| - 1] == Decimal(n / 10);
    }
  }

  /** "($a, $b, $c)" for the numbers of group i. */
  function GroupText(i: nat): string
  {
    var ns := GroupNumbers(i);
    "($" + Decimal(ns[0]) + ", $" + Decimal(ns[1]) + ", $" + Decimal(ns[2]) + ")"
  }

  /** What the placeholder loop has accumulated after n events: every group followed by a comma. */
  function Accumulated(n: nat): (s: string)
    ensures n > 0 ==> |s| > 0 && s[|s| - 1] == ','
  {
    if n == 0 then "" else Accumulated(n - 1) + GroupText(n - 1) + ","
  }

  /** The groups of n >= 1 events separated by commas, with no trailing comma. */
  function JoinGroups(n: nat): (s: string)
    requires n >= 1
    ensures |s| > 0 && s[0] == '(' && s[|s| - 1] == ')'
  {
    if n == 1 then GroupText(0) else JoinGroups(n - 1) + "," + GroupText(n - 1)
  }

  /** The statement insertBatch executes for a non-empty batch. */
  function InsertStatement(batch: seq<UserEvent>): (stmt: Statement)
    requires |batch| >= 1
    ensures |stmt.sql| > 0 && stmt.sql[|stmt.sql| - 1] == ')'
    ensures |stmt.args| == 3 * |batch|
  {
    ArgsAt(batch, 0, 0);
    Statement(InsertPrefix + JoinGroups(|batch|), ArgsOf(batch))
  }

  /** Dropping the last character of the accumulated text leaves exactly the joined groups. */
  lemma {:induction false} TrimLastComma(n: nat)
    requires n >= 1
    ensures Accumulated(n)[..|Accumulated(n)| - 1] == JoinGroups(n)
  {
    var a := Accumulated(n);
    assert a[..|a| - 1] == Accumulated(n - 1) + GroupText(n - 1);
    if n > 1 {
      TrimLastComma(n - 1);
      var p := Accumulated(n - 1);
      assert p == p[..|p| - 1] + ",";
    }
  }

  /** There are three arguments per event, and argument 3i + c is column c of event i. */
  lemma {:induction false} ArgsAt(batch: seq<UserEvent>, i: nat, c: nat)
    requires i < |batch| && c < 3
    ensures |ArgsOf(batch)| == 3 * |batch|
    ensures ArgsOf(batch)[3 * i + c] == Fields(batch[i])[c]
  {
    var init := batch[..|batch| - 1];
    if i < |init| {
      ArgsAt(init, i, c);
      assert batch[i] == init[i];
    } else if |init| > 0 {
      ArgsAt(init, 0, 0);
    }
  }

  /**
   * The placeholders bind each row to its own event: group i names the
   * arguments 3i+1..3i+3, which hold the user id, event type and timestamp of
   * event i.  Every placeholder number is within the argument list.
   */
  lemma PlaceholderBinding(batch: seq<UserEvent>, i: nat, c: nat)
    requires i < |batch| && c < 3
    ensures 1 <= GroupNumbers(i)[c] <= |ArgsOf(batch)|
    ensures ArgsOf(batch)[GroupNumbers(i)[c] - 1] == Fields(batch[i])[c]
  {
    ArgsAt(batch, i, c);
  }

  /** Builds the statement as insertBatch does: accumulate "(...)," per event and the arguments, then cut the last comma. */
  method BuildInsert(batch: seq<UserEvent>) returns (stmt: Statement)
    requires |batch| >= 1
    ensures stmt == InsertStatement(batch)
    ensures |stmt.args| == 3 * |batch|
  {
    var args: seq<Arg> := [];
    var placeholders := "";
    var i := 0;
    while i < |batch|
      invariant 0 <= i <= |batch|
      invariant placeholders == Accumulated(i)
      invariant args == ArgsOf(batch[..i])
    {
      assert batch[..i + 1][..i] == batch[..i];
      var event := batch[i];
      placeholders := placeholders + GroupText(i) + ",";
      args := args + [Text(event.userId), Text(event.eventType), Int64Arg(event.timestamp)];
      i := i + 1;
    }
    assert batch[..i] == batch;
    TrimLastComma(|batch|);
    ArgsAt(batch, 0, 0);
    stmt := Statement(InsertPrefix + placeholders[..|placeholders| - 1], args);
  }
}
