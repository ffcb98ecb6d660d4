/** The "order created" domain-event handler. It sends a notification email,
    projects the order into an order record, POSTs the record to the delivery
    processor and publishes it to the Service Bus queue. The email is not
    guarded; each of the other two calls sits in its own try/catch, so one
    failing never skips the other.

    Every external call is an oracle: the caller scripts what each call
    does, and the handler returns the calls it made, the failures it caught
    and logged, and whether it completed or raised. */
module OrderCreatedHandler {
  import opened Wrappers
  import opened Hosting
  import opened Text
  import opened Clock
  import opened OrderAggregate

  const NotificationRecipient := "to@test.com"
  const NotificationSubject := "Order Created"
  const ProcessorUrl :=
    "https://eshop-delivery-order-processor-function-app.azurewebsites.net/api/DeliveryOrderProcessor"
  const QueueName := "orderitemreserverbus"

  /** `$"Order with id {Id} was created."` */
  function NotificationBody(orderId: int): string {
    "Order with id " + IntToString(orderId) + " was created."
  }

  /** One `QuantityOfItems` entry. */
  datatype ItemQuantity = ItemQuantity(itemId: string, quantity: int)

  /** The anonymous record the handler serializes to both channels. */
  datatype OrderRecord = OrderRecord(
    orderId: int,
    orderDate: string,
    shippingAddress: Address,
    listOfItems: seq<OrderItem>,
    quantityOfItems: seq<ItemQuantity>,
    finalPrice: Money)

  /** `OrderItems.Select(i => new { ItemId = ..ToString(), Quantity = i.Units })` */
  function QuantitiesOf(items: seq<OrderItem>): (q: seq<ItemQuantity>)
    ensures |q| == |items|
    ensures forall i :: 0 <= i < |items| ==>
              && ParseInt(q[i].itemId) == Some(items[i].itemOrdered.catalogItemId)
              && q[i].quantity == items[i].units
  {
    if |items| == 0 then []
    else
      var id := items[0].itemOrdered.catalogItemId;
      IntToStringRoundTrip(id);
      [ItemQuantity(IntToString(id), items[0].units)] + QuantitiesOf(items[1..])
  }

  /** The order record for `order`, whose `Total()` is `total`. */
  function BuildOrderRecord(order: Order, total: Money): OrderRecord {
    OrderRecord(
      order.id,
      FormatOrderDate(order.orderDate),
      order.shipToAddress,
      order.orderItems,
      QuantitiesOf(order.orderItems),
      total)
  }

  /** Since `ParseInt` accepts only canonical text, each item id is
      exactly the catalog item id's `ToString()`. */
  lemma QuantityIdsAreToString(items: seq<OrderItem>)
    ensures forall i :: 0 <= i < |items| ==>
              QuantitiesOf(items)[i].itemId == IntToString(items[i].itemOrdered.catalogItemId)
  {
    var q := QuantitiesOf(items);
    forall i | 0 <= i < |items|
      ensures q[i].itemId == IntToString(items[i].itemOrdered.catalogItemId)
    {
      ParseIntExact(q[i].itemId, items[i].itemOrdered.catalogItemId);
    }
  }

  /** The record carries the order's id, address, lines and total as they
      are; its date text reads back as the order date to the second, and
      its quantity list pairs every line's catalog item id, written as
      `ToString()` writes it, with that line's units. */
  lemma OrderRecordFaithful(order: Order, total: Money)
    ensures var r := BuildOrderRecord(order, total);
            && r.orderId == order.id
            && r.shippingAddress == order.shipToAddress
            && r.listOfItems == order.orderItems
            && r.finalPrice == total
            && ParseOrderDate(r.orderDate) == Some(order.orderDate.ToSecond())
            && |r.quantityOfItems| == |order.orderItems|
            && forall i :: 0 <= i < |order.orderItems| ==>
                 && r.quantityOfItems[i].itemId == IntToString(order.orderItems[i].itemOrdered.catalogItemId)
                 && r.quantityOfItems[i].quantity == order.orderItems[i].units
  {
    OrderDateRoundTrip(order.orderDate);
    QuantityIdsAreToString(order.orderItems);
  }

  /** What `SendEmailAsync` does when called. */
  datatype EmailOutcome = EmailSent | EmailFailed

  /** What `PostAsJsonAsync` does: a response with a status, or an
      exception (transport error, cancellation). */
  datatype HttpOutcome = Responded(status: int) | TransportFailed

  /** What the Service Bus calls do for a non-empty connection string:
      `ClientRejected` is the client constructor rejecting the string (no
      message is sent); the other two are the outcomes of `SendMessageAsync`. */
  datatype BusOutcome = Published | PublishFailed | ClientRejected

  /** The three outbound channels, in the order the handler uses them. */
  datatype Channel = Email | Processor | Bus

  function Rank(c: Channel): nat {
    match c
    case Email => 0
    case Processor => 1
    case Bus => 2
  }

  /** An external call the handler made, with its payload. */
  datatype Effect =
    | SendEmail(to: string, subject: string, body: string)
    | PostJson(url: string, record: OrderRecord)
    | PublishMessage(queue: string, connection: string, record: OrderRecord)
  {
    function Channel(): Channel {
      match this
      case SendEmail(_, _, _) => Email
      case PostJson(_, _) => Processor
      case PublishMessage(_, _, _) => Bus
    }

    /** The order record a call carries, if any. */
    function Payload(): Option<OrderRecord> {
      match this
      case SendEmail(_, _, _) => None
      case PostJson(_, record) => Some(record)
      case PublishMessage(_, _, record) => Some(record)
    }
  }

  /** `effects` are the calls made in order; `caught` are the channels whose
      failure a catch block logged. */
  datatype HandleResult = HandleResult(effects: seq<Effect>, caught: seq<Channel>, completion: Completion)

  /** `EnsureSuccessStatusCode` accepts exactly the 2xx statuses. */
  predicate IsSuccessStatus(status: int) {
    200 <= status <= 299
  }

  /** `string.IsNullOrEmpty` fails. */
  predicate IsConfigured(connection: Option<string>) {
    connection.Some? && connection.value != ""
  }

  /** Calls appear in channel order, so each channel at most once. */
  predicate InChannelOrder(effects: seq<Effect>) {
    forall i, j :: 0 <= i < j < |effects| ==> Rank(effects[i].Channel()) < Rank(effects[j].Channel())
  }

  predicate Attempted(effects: seq<Effect>, c: Channel) {
    exists i :: 0 <= i < |effects| && effects[i].Channel() == c
  }

  /** What one guarded step did: the call it made, if it got that far,
      and whether its catch block logged a failure. */
  datatype Guarded = Guarded(call: Option<Effect>, failed: bool)

  /** The first try/catch: POST the record, then `EnsureSuccessStatusCode`. */
  function PostToProcessor(record: OrderRecord, http: HttpOutcome): Guarded {
    Guarded(Some(PostJson(ProcessorUrl, record)), !(http.Responded? && IsSuccessStatus(http.status)))
  }

  /** The second try/catch: read the connection string, create the client
      and sender, send the serialized record. */
  function PublishToBus(record: OrderRecord, connection: Option<string>, bus: BusOutcome): (g: Guarded)
    ensures g.call.Some? <==> IsConfigured(connection) && !bus.ClientRejected?
    ensures g.call.Some? ==> g.call.value == PublishMessage(QueueName, connection.value, record)
    ensures g.failed <==> !(IsConfigured(connection) && bus.Published?)
  {
    if !IsConfigured(connection) then
      Guarded(None, true)
    else
      match bus
      case ClientRejected => Guarded(None, true)
      case Published => Guarded(Some(PublishMessage(QueueName, connection.value, record)), false)
      case PublishFailed => Guarded(Some(PublishMessage(QueueName, connection.value, record)), true)
  }

  /** `Handle(domainEvent, cancellationToken)`: `total` is the order's
      `Total()`, `connection` the SERVICE_BUS_CONNECTION_STRING variable. */
  function Handle(
    order: Order, total: Money, connection: Option<string>,
    email: EmailOutcome, http: HttpOutcome, bus: BusOutcome): (r: HandleResult)
    ensures r.completion == Completed <==> email.EmailSent?
    ensures 1 <= |r.effects| <= 3
    ensures r.effects[0] == SendEmail(NotificationRecipient, NotificationSubject, NotificationBody(order.id))
  {
    var notify := SendEmail(NotificationRecipient, NotificationSubject, NotificationBody(order.id));
    if email.EmailFailed? then
      HandleResult([notify], [], Raised)
    else
      var record := BuildOrderRecord(order, total);
      var post := PostToProcessor(record, http);
      var publish := PublishToBus(record, connection, bus);
      var effects :=
        if publish.call.Some? then [notify, post.call.value, publish.call.value]
        else [notify, post.call.value];
      var caught :=
        (if post.failed then [Processor] else []) + (if publish.failed then [Bus] else []);
      HandleResult(effects, caught, Completed)
  }

  /** The calls are made in the fixed order email, processor, bus, each at
      most once. */
  lemma HandleCallOrder(
    order: Order, total: Money, connection: Option<string>,
    email: EmailOutcome, http: HttpOutcome, bus: BusOutcome)
    ensures InChannelOrder(Handle(order, total, connection, email, http, bus).effects)
  {
    var r := Handle(order, total, connection, email, http, bus);
    if email.EmailSent? {
      assert r.effects[1].Channel() == Processor;
      assert |r.effects| == 3 ==> r.effects[2].Channel() == Bus;
    }
  }

  /** Which calls are attempted: the POST exactly when the email went out;
      the publish exactly when, in addition, the connection string is set
      and the client accepts it. */
  lemma HandleAttempts(
    order: Order, total: Money, connection: Option<string>,
    email: EmailOutcome, http: HttpOutcome, bus: BusOutcome)
    ensures var r := Handle(order, total, connection, email, http, bus);
            && (Attempted(r.effects, Processor) <==> email.EmailSent?)
            && (Attempted(r.effects, Bus) <==> email.EmailSent? && IsConfigured(connection) && !bus.ClientRejected?)
  {
    var r := Handle(order, total, connection, email, http, bus);
    if email.EmailSent? {
      assert r.effects[1].Channel() == Processor;
      if |r.effects| == 3 {
        assert r.effects[2].Channel() == Bus;
      } else {
        assert forall i :: 0 <= i < |r.effects| ==> r.effects[i].Channel() != Bus;
      }
    } else {
      assert forall i :: 0 <= i < |r.effects| ==> r.effects[i].Channel() == Email;
    }
  }

  /** The failures the two catch blocks log: the POST's whenever it threw or
      returned a non-2xx status, the bus's whenever the message was not
      published; an email failure is never caught. */
  lemma HandleCaughtFailures(
    order: Order, total: Money, connection: Option<string>,
    email: EmailOutcome, http: HttpOutcome, bus: BusOutcome)
    ensures var r := Handle(order, total, connection, email, http, bus);
            && (Processor in r.caught <==> email.EmailSent? && !(http.Responded? && IsSuccessStatus(http.status)))
            && (Bus in r.caught <==> email.EmailSent? && !(IsConfigured(connection) && bus.Published?))
            && Email !in r.caught
  {
  }

  /** Every call after the email carries the record built from the order. */
  lemma HandlePayloads(
    order: Order, total: Money, connection: Option<string>,
    email: EmailOutcome, http: HttpOutcome, bus: BusOutcome)
    ensures var r := Handle(order, total, connection, email, http, bus);
            forall i :: 1 <= i < |r.effects| ==> r.effects[i].Payload() == Some(BuildOrderRecord(order, total))
  {
  }

  /** An email failure raises before the record is sent anywhere. */
  lemma EmailFailureRaisesAlone(
    order: Order, total: Money, connection: Option<string>, http: HttpOutcome, bus: BusOutcome)
    ensures Handle(order, total, connection, EmailFailed, http, bus) ==
            HandleResult([SendEmail(NotificationRecipient, NotificationSubject, NotificationBody(order.id))], [], Raised)
  {
  }

  /** Once the email is sent, the handler completes whatever the processor
      and the bus do, and the calls it makes do not depend on how the POST
      went: a processor failure never suppresses the bus publish. */
  lemma ProcessorFailureIsolated(
    order: Order, total: Money, connection: Option<string>, bus: BusOutcome,
    http1: HttpOutcome, http2: HttpOutcome)
    ensures var r1 := Handle(order, total, connection, EmailSent, http1, bus);
            var r2 := Handle(order, total, connection, EmailSent, http2, bus);
            && r1.effects == r2.effects
            && r1.completion == r2.completion == Completed
  {
  }

  /** Neither does the bus outcome change anything before it: the email and
      the POST are made whatever the bus later does. */
  lemma BusOutcomeAffectsOnlyBus(
    order: Order, total: Money, connection: Option<string>, email: EmailOutcome, http: HttpOutcome,
    bus1: BusOutcome, bus2: BusOutcome)
    ensures var r1 := Handle(order, total, connection, email, http, bus1);
            var r2 := Handle(order, total, connection, email, http, bus2);
            && r1.completion == r2.completion
            && (forall e :: e in r1.effects && !e.PublishMessage? ==> e in r2.effects)
  {
  }

  /** With no connection string, nothing reaches the bus; the failure is
      caught and the handler still completes. */
  lemma MissingConnectionPublishesNothing(
    order: Order, total: Money, connection: Option<string>, http: HttpOutcome, bus: BusOutcome)
    requires !IsConfigured(connection)
    ensures var r := Handle(order, total, connection, EmailSent, http, bus);
            && r.completion == Completed
            && Bus in r.caught
            && forall e :: e in r.effects ==> !e.PublishMessage?
  {
  }

  /** The processor and the bus receive the same record. */
  lemma ChannelsCarrySameRecord(
    order: Order, total: Money, connection: Option<string>,
    email: EmailOutcome, http: HttpOutcome, bus: BusOutcome)
    ensures var r := Handle(order, total, connection, email, http, bus);
            forall i, j ::
              (0 <= i < |r.effects| && 0 <= j < |r.effects| && !r.effects[i].SendEmail? && !r.effects[j].SendEmail?) ==>
              r.effects[i].record == r.effects[j].record
  {
  }
}
