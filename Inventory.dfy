/**
 * The inventory service (cmd/inventory_service/main.go): a process-wide map
 * from product to stock; every parsed order tries to reserve one unit of
 * "product1" and is republished, unchanged, on the topic that says whether
 * the reservation succeeded.  JSON parsing is abstract: a message either
 * parses to an order or does not.
 */
module Inventory {
  import opened Wrappers
  import opened Topic
  import opened Models

  const Product1: string := "product1"
  const ReservedTopic: string := "inventory_reserved"
  const FailedTopic: string := "inventory_failed"

  /** The stock the service starts with. */
  function InitialStock(): map<string, int>
  {
    map["product1" := 10, "product2" := 0]
  }

  /** Go's map index: a missing key reads as zero. */
  function StockOf(stock: map<string, int>, product: string): (n: int)
    ensures product in stock ==> n == stock[product]
    ensures product !in stock ==> n == 0
  {
    if product in stock then stock[product] else 0
  }

  /** The outcome of the reservation check: the chosen topic and the new stock. */
  datatype Decision = Decision(topic: string, stock: map<string, int>)

  /**
   * The reservation check.  It looks at nothing but the stock of product1:
   * with a unit left it takes one and picks inventory_reserved, otherwise it
   * changes nothing and picks inventory_failed.
   */
  function Reserve(stock: map<string, int>): (d: Decision)
    ensures StockOf(stock, Product1) > 0 ==>
              d.topic == ReservedTopic && StockOf(d.stock, Product1) == StockOf(stock, Product1) - 1
    ensures StockOf(stock, Product1) <= 0 ==> d.topic == FailedTopic && d.stock == stock
    ensures StockOf(stock, Product1) >= 0 ==> StockOf(d.stock, Product1) >= 0
    ensures d.stock.Keys == stock.Keys
    ensures forall p :: p in stock && p != Product1 ==> d.stock[p] == stock[p]
  {
    if StockOf(stock, Product1) > 0 then Decision(ReservedTopic, stock[Product1 := stock[Product1] - 1])
    else Decision(FailedTopic, stock)
  }

  /** A produce call: the topic and the order republished on it. */
  datatype Published = Published(topic: string, order: OrderEvent)

  /** The read loop's state after some stream: the stock and everything published so far. */
  datatype LoopState = LoopState(stock: map<string, int>, published: seq<Published>)

  /** The loop over reads that end before any read error, from `stock`. */
  function Serve(stock: map<string, int>, stream: seq<Read<OrderEvent>>): (r: LoopState)
    requires forall i :: 0 <= i < |stream| ==> stream[i].Message?
    ensures |r.published| <= |stream|
    ensures r.stock.Keys == stock.Keys
  {
    if stream == [] then LoopState(stock, [])
    else
      var before := Serve(stock, stream[..|stream| - 1]);
      match stream[|stream| - 1].parsed
      case None => before
      case Some(order) =>
        var d := Reserve(before.stock);
        LoopState(d.stock, before.published + [Published(d.topic, order)])
  }

  /** The orders among the stream, in order. */
  function Orders(stream: seq<Read<OrderEvent>>): seq<OrderEvent>
    requires forall i :: 0 <= i < |stream| ==> stream[i].Message?
  {
    if stream == [] then []
    else
      Orders(stream[..|stream| - 1])
      + match stream[|stream| - 1].parsed case None => [] case Some(o) => [o]
  }

  /**
   * From a stock s >= 0 of product1, the loop publishes every parsed order
   * once, unchanged and in order; the first s of them go to
   * inventory_reserved and all later ones to inventory_failed; the stock
   * ends at max(0, s - orders); no other product changes.
   */
  lemma {:induction false} ServeSchedule(stock: map<string, int>, stream: seq<Read<OrderEvent>>)
    requires forall i :: 0 <= i < |stream| ==> stream[i].Message?
    requires StockOf(stock, Product1) >= 0
    ensures var r := Serve(stock, stream);
      && |r.published| == |Orders(stream)|
      && (forall j :: 0 <= j < |r.published| ==> r.published[j].order == Orders(stream)[j])
      && (forall j :: 0 <= j < |r.published| ==>
            r.published[j].topic == (if j < StockOf(stock, Product1) then ReservedTopic else FailedTopic))
      && StockOf(r.stock, Product1) == (if |Orders(stream)| < StockOf(stock, Product1)
                                        then StockOf(stock, Product1) - |Orders(stream)| else 0)
      && r.stock.Keys == stock.Keys
      && forall p :: p in stock && p != Product1 ==> r.stock[p] == stock[p]
  {
    if stream != [] {
      ServeSchedule(stock, stream[..|stream| - 1]);
    }
  }

  /** From the initial stock of 10, orders 1-10 are reserved and every later order fails. */
  lemma InitialSchedule(stream: seq<Read<OrderEvent>>, j: nat)
    requires forall i :: 0 <= i < |stream| ==> stream[i].Message?
    requires j < |Serve(InitialStock(), stream).published|
    ensures Serve(InitialStock(), stream).published[j].topic == (if j < 10 then ReservedTopic else FailedTopic)
  {
    ServeSchedule(InitialStock(), stream);
  }

  /** A message that does not parse changes no stock and publishes nothing. */
  lemma UnparsedMessage(stock: map<string, int>, stream: seq<Read<OrderEvent>>)
    requires forall i :: 0 <= i < |stream| ==> stream[i].Message?
    ensures Serve(stock, stream + [Message(None)]) == Serve(stock, stream)
  {
    assert (stream + [Message(None)])[..|stream|] == stream;
  }

  /** The service: the package-level stock map and the read loop that updates it in place. */
  class InventoryService {
    var productStock: map<string, int>

    ghost predicate Valid()
      reads this
    {
      StockOf(productStock, Product1) >= 0
    }

    constructor ()
      ensures Valid() && productStock == InitialStock()
    {
      productStock := InitialStock();
    }

    /** The reservation check and decrement for one parsed order; returns what is published. */
    method HandleOrder(order: OrderEvent) returns (p: Published)
      requires Valid()
      modifies this
      ensures Valid()
      ensures p == Published(Reserve(old(productStock)).topic, order)
      ensures productStock == Reserve(old(productStock)).stock
    {
      var topic := ReservedTopic;
      if StockOf(productStock, Product1) > 0 {
        productStock := productStock[Product1 := productStock[Product1] - 1];
      } else {
        topic := FailedTopic;
      }
      p := Published(topic, order);
    }

    /** The read loop: it stops at the first read error; unparsable messages are skipped. */
    method Run(stream: seq<Read<OrderEvent>>) returns (published: seq<Published>)
      requires Valid()
      modifies this
      ensures Valid()
      ensures var r := Serve(old(productStock), stream[..ReadsBeforeError(stream)]);
        published == r.published && productStock == r.stock
    {
      published := [];
      var n := ReadsBeforeError(stream);
      var i := 0;
      while i < |stream| && stream[i].Message?
        invariant 0 <= i <= n
        invariant Valid()
        invariant Serve(old(productStock), stream[..i]) == LoopState(productStock, published)
      {
        assert stream[..i + 1][..i] == stream[..i];
        var parsed := stream[i].parsed;
        if parsed.Some? {
          var p := HandleOrder(parsed.value);
          published := published + [p];
        }
        i := i + 1;
      }
      assert i == n;
    }
  }
}
