/** The parts of the order aggregate the created-order handler reads. The
    entity classes themselves are not part of this model; the fields below
    are the ones the handler touches, with the aggregate's own names. */
module OrderAggregate {
  import opened Clock

  /** A .NET `decimal`, carried and never computed with here:
      `mantissa / 10^scale`. */
  datatype Money = Money(mantissa: int, scale: nat)

  /** The shipping address, passed through untouched. */
  datatype Address = Address(street: string, city: string, state: string, country: string, zipCode: string)

  /** Snapshot of the catalog item at ordering time. */
  datatype CatalogItemOrdered = CatalogItemOrdered(catalogItemId: int, productName: string, pictureUri: string)

  datatype OrderItem = OrderItem(itemOrdered: CatalogItemOrdered, unitPrice: Money, units: int)

  /** An order as the "order created" event carries it. `Total()` is a
      method of the entity that is not part of this model; its value is
      supplied to the handler separately. */
  datatype Order = Order(
    id: int,
    buyerId: string,
    orderDate: ValidDateTime,
    shipToAddress: Address,
    orderItems: seq<OrderItem>)
}
