/** Plain records shared by the services (internal/models/order.go). */
module Models {
  /** Go's int64. */
  type Int64 = x: int | -0x8000_0000_0000_0000 <= x < 0x8000_0000_0000_0000

  /** An order as it travels between the services. */
  datatype OrderEvent = OrderEvent(orderId: string, userId: string, status: string, timestamp: Int64)
}
