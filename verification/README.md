# eShopOnWeb order fan-out and blob reserver, in Dafny

This project models the two places where eShopOnWeb sends a placed order out
of the web application:

- **`OrderCreatedHandler.Handle`** reacts to the "order created" domain event.
  It sends a notification email, then projects the order into an order record.
  It POSTs that record to the delivery-order-processor function, and then
  publishes the same record to the `orderitemreserverbus` Service Bus queue.
  The email is not guarded. The POST and the publish each sit in their own
  try/catch, which logs the error and carries on.
- **`OrderItemsReserver.Run`** is the Service Bus-triggered function that
  stores one queue message as a blob. It names the blob
  `order-yyyyMMddHHmmssfff.json` from the current UTC time. It then makes up
  to three non-overwriting uploads of the message's UTF-8 bytes and stops at
  the first 201 Created. Exhaustion, or any exception, lands in one catch
  block. That block POSTs the raw message as `application/json` to the Logic
  App URL read at start-up.

Every external call is an oracle, so nothing here does I/O. The caller
scripts what the email sender, the HTTP client, the Service Bus client, the
blob container and the clock do. A model run returns the calls that were
made, with their payloads, and how the invocation ended (`Completed` or
`Raised`). The handler also reports which catch blocks logged a failure.

The files:

- `wrappers.dfy`: `Option` with failure propagation.
- `hosting.dfy`: how an invocation ends, as its host sees it.
- `text.dfy`: digits, fixed-width zero-padded fields, `int.ToString()` and
  its parser.
- `clock.dfy`: calendar timestamps and the two custom format strings
  `dd/MM/yyyy HH:mm:ss` and `yyyyMMddHHmmssfff`. Each has a strict parser
  that serves as its inverse.
- `utf8.dfy`: `Encoding.UTF8.GetBytes` with a strict decoder as its inverse.
- `order_aggregate.dfy`: the order fields the handler reads.
- `order_created_handler.dfy` and `order_items_reserver.dfy`: the two
  components.

Behaviour worth noting:

- **The email is not guarded.** `SendEmailAsync` is awaited outside any
  try/catch. Its exception therefore ends `Handle` before the record is
  POSTed or published (`EmailFailureRaisesAlone`).
- **An upload exception is not retried.** A thrown upload leaves the loop
  straight into the catch block, and the fallback follows at once
  (`UploadExceptionNotRetried`). Only a returned non-201 status leads to
  another attempt.
- **The fallback's failure escapes.** The fallback POST sits in the catch
  block itself. An unset or empty URL, or a failed POST, therefore raises
  out of `Run`. The response is never inspected (`FallbackFailureEscapes`,
  `FallbackStatusIgnored`).

## Model

| member | source | states |
|---|---|---|
| Text.IntToStringRoundTrip | src/ApplicationCore/Entities/OrderAggregate/Handlers/OrderCreatedHandler.cs:33 | `ToString()` of a catalog item id reads back as the same integer, negative ids included |
| Text.ParseIntExact | src/ApplicationCore/Entities/OrderAggregate/Handlers/OrderCreatedHandler.cs:33 | the id parser accepts a text as `i` if and only if the text is exactly `i.ToString()`: no leading zeros, no `-0` |
| Text.IntToStringInjective | src/ApplicationCore/Entities/OrderAggregate/Handlers/OrderCreatedHandler.cs:33 | two ids render to the same text exactly when they are equal |
| Clock.FormatOrderDate | src/ApplicationCore/Entities/OrderAggregate/Handlers/OrderCreatedHandler.cs:29 | the `dd/MM/yyyy HH:mm:ss` rendering of any valid date is exactly 19 characters |
| Clock.OrderDateRoundTrip | src/ApplicationCore/Entities/OrderAggregate/Handlers/OrderCreatedHandler.cs:29 | parsing the rendered order date gives back the timestamp with its milliseconds dropped |
| Clock.OrderDateIdentifiesSecond | src/ApplicationCore/Entities/OrderAggregate/Handlers/OrderCreatedHandler.cs:29 | two order dates render alike if and only if they agree down to the second |
| Clock.FormatBlobStamp | OrderItemsReserver/OrderItemsReserver/OrderItemsReserver.cs:37 | the `yyyyMMddHHmmssfff` rendering of any valid timestamp is exactly 17 characters |
| Clock.BlobStampRoundTrip | OrderItemsReserver/OrderItemsReserver/OrderItemsReserver.cs:37 | parsing the rendered stamp gives back the whole timestamp, milliseconds included |
| Clock.BlobStampIdentifiesMillisecond | OrderItemsReserver/OrderItemsReserver/OrderItemsReserver.cs:37 | two stamps are equal if and only if the timestamps are equal to the millisecond |
| Utf8.Encode | OrderItemsReserver/OrderItemsReserver/OrderItemsReserver.cs:44 | the UTF-8 body takes between one and four bytes per character |
| Utf8.DecodeFirstEncodeScalar | OrderItemsReserver/OrderItemsReserver/OrderItemsReserver.cs:44 | the strict decoder reads back each encoded scalar, and exactly its bytes, whatever follows |
| Utf8.DecodeEncode | OrderItemsReserver/OrderItemsReserver/OrderItemsReserver.cs:44 | the uploaded bytes decode back to the message exactly |
| Utf8.EncodeInjective | OrderItemsReserver/OrderItemsReserver/OrderItemsReserver.cs:44 | distinct messages upload distinct bytes |
| OrderCreatedHandler.QuantitiesOf | src/ApplicationCore/Entities/OrderAggregate/Handlers/OrderCreatedHandler.cs:32-35 | one entry per order line, in order: its item id is text that the strict id parser reads as the line's catalog item id (which makes it exactly that id's `ToString()`), and its quantity is the line's units |
| OrderCreatedHandler.QuantityIdsAreToString | src/ApplicationCore/Entities/OrderAggregate/Handlers/OrderCreatedHandler.cs:32-33 | every quantity entry's item id is exactly the catalog item id's `ToString()` |
| OrderCreatedHandler.OrderRecordFaithful | src/ApplicationCore/Entities/OrderAggregate/Handlers/OrderCreatedHandler.cs:26-37 | the record carries the order's id, shipping address, order lines and total unchanged; its date text parses back to the order date to the second; its quantity list pairs each line's catalog item id, written exactly as `ToString()` writes it, with that line's units |
| OrderCreatedHandler.PublishToBus | src/ApplicationCore/Entities/OrderAggregate/Handlers/OrderCreatedHandler.cs:55-72 | a message reaches the queue only with a non-empty connection string that the client accepts, and the catch block logs unless the send succeeded |
| OrderCreatedHandler.Handle | src/ApplicationCore/Entities/OrderAggregate/Handlers/OrderCreatedHandler.cs:18-73 | the email is always the first call, at most three calls are made, and the handler completes if and only if the email was sent |
| OrderCreatedHandler.HandleCallOrder | src/ApplicationCore/Entities/OrderAggregate/Handlers/OrderCreatedHandler.cs:22-66 | calls go out in the order email, processor, bus, and each channel at most once |
| OrderCreatedHandler.HandleAttempts | src/ApplicationCore/Entities/OrderAggregate/Handlers/OrderCreatedHandler.cs:22-66 | the POST is made if and only if the email went out; the publish is made if and only if, in addition, the connection string is set and the client accepts it |
| OrderCreatedHandler.HandleCaughtFailures | src/ApplicationCore/Entities/OrderAggregate/Handlers/OrderCreatedHandler.cs:39-72 | each catch block logs if and only if its own call failed; an email failure is never caught |
| OrderCreatedHandler.HandlePayloads | src/ApplicationCore/Entities/OrderAggregate/Handlers/OrderCreatedHandler.cs:26-66 | every call after the email carries the record built from the order |
| OrderCreatedHandler.EmailFailureRaisesAlone | src/ApplicationCore/Entities/OrderAggregate/Handlers/OrderCreatedHandler.cs:22-24 | when the email throws, the handler raises after that one call and nothing is caught |
| OrderCreatedHandler.ProcessorFailureIsolated | src/ApplicationCore/Entities/OrderAggregate/Handlers/OrderCreatedHandler.cs:39-72 | once the email is sent, the POST's outcome changes no call the handler makes, and the handler completes |
| OrderCreatedHandler.BusOutcomeAffectsOnlyBus | src/ApplicationCore/Entities/OrderAggregate/Handlers/OrderCreatedHandler.cs:55-72 | the bus outcome leaves the completion and every non-bus call unchanged |
| OrderCreatedHandler.MissingConnectionPublishesNothing | src/ApplicationCore/Entities/OrderAggregate/Handlers/OrderCreatedHandler.cs:57-61 | without a connection string nothing is published, the failure is caught, and the handler completes |
| OrderCreatedHandler.ChannelsCarrySameRecord | src/ApplicationCore/Entities/OrderAggregate/Handlers/OrderCreatedHandler.cs:42-66 | the processor and the queue receive the same record |
| OrderItemsReserver.BlobName | OrderItemsReserver/OrderItemsReserver/OrderItemsReserver.cs:37 | the blob name is 28 characters: `order-`, a 17-character stamp, `.json` |
| OrderItemsReserver.BlobNameStamp | OrderItemsReserver/OrderItemsReserver/OrderItemsReserver.cs:37 | the stamp inside the blob name reads back as the invocation time to the millisecond |
| OrderItemsReserver.BlobNameCollision | OrderItemsReserver/OrderItemsReserver/OrderItemsReserver.cs:37 | two invocations get the same blob name if and only if they start in the same millisecond |
| OrderItemsReserver.AttemptsFrom | OrderItemsReserver/OrderItemsReserver/OrderItemsReserver.cs:41-52 | the attempt count is between one and three; every attempt before the last returned a non-201 status; and short of three, the last did not |
| OrderItemsReserver.AttemptsFromUnique | OrderItemsReserver/OrderItemsReserver/OrderItemsReserver.cs:41-52 | those three facts determine the attempt count |
| OrderItemsReserver.Run | OrderItemsReserver/OrderItemsReserver/OrderItemsReserver.cs:35-64 | the loop-and-catch procedure makes exactly the calls, and ends exactly as, the closed-form description of a run |
| OrderItemsReserver.UploadsBounded | OrderItemsReserver/OrderItemsReserver/OrderItemsReserver.cs:41-52 | one to three uploads come first, and every call but the last is an upload, so at most one other call follows them |
| OrderItemsReserver.UploadsTargetOneBlob | OrderItemsReserver/OrderItemsReserver/OrderItemsReserver.cs:37-45 | every upload targets the one blob name, never overwrites, and carries bytes that decode to the message |
| OrderItemsReserver.CreatedStopsImmediately | OrderItemsReserver/OrderItemsReserver/OrderItemsReserver.cs:47-51 | the first 201 ends the run, with no later upload, no fallback, and normal completion |
| OrderItemsReserver.ExhaustionFallsBackOnce | OrderItemsReserver/OrderItemsReserver/OrderItemsReserver.cs:54-63 | three non-201 responses give exactly three uploads and then exactly one fallback POST of the message as JSON |
| OrderItemsReserver.UploadExceptionNotRetried | OrderItemsReserver/OrderItemsReserver/OrderItemsReserver.cs:41-63 | an upload that throws is the last upload, and the fallback POST follows it directly |
| OrderItemsReserver.FallbackIffNoCreated | OrderItemsReserver/OrderItemsReserver/OrderItemsReserver.cs:41-64 | the fallback is posted if and only if no upload returned 201, and then only once, as the last call |
| OrderItemsReserver.FallbackFailureEscapes | OrderItemsReserver/OrderItemsReserver/OrderItemsReserver.cs:57-64 | the run raises if and only if it fell back and the URL was unset or empty, or the POST threw |
| OrderItemsReserver.FallbackStatusIgnored | OrderItemsReserver/OrderItemsReserver/OrderItemsReserver.cs:61-63 | the fallback response's status has no effect on the run |

## Left out

- Logging: the informational log lines are not modelled. The handler's two `LogError` calls are modelled as the `caught` channel list. The reserver's `LogError` calls always precede the fallback, so they add nothing.
- I/O: the email sender, the HTTP clients, the Service Bus client, the blob container and `DateTime.UtcNow` are oracles the caller scripts.
- Cancellation: the cancellation token is not modelled. A cancelled POST or send is one of the modelled failures.
- Serialization: the JSON text of the order record is not modelled. The processor and the queue receive the record as a value. `JsonSerializer.Serialize` (handler line 53) stands outside both try blocks and is taken not to throw.
- Record construction: the handler takes the order's `Total()` as a parameter. The `Order` entity, and how it computes its total, are not part of this model. Building the record is taken not to throw.
- Culture: both date format strings are rendered with the invariant (Gregorian) calendar, so the date separator is `/` and the time separator is `:`.
- Timestamps: `DateTime` is modelled by its fields, to the millisecond. Ticks finer than a millisecond and the time zone (an offset on the order date) do not appear in either format, so they are dropped.
- Reserver constructor: reading `AzureWebJobsStorage` and `OrdersContainer` and calling `CreateIfNotExists` are left out. The Logic App URL it reads is an input.
- A null queue message is left out: the trigger delivers a string, and the model's message is never null.
- Blob client: `GetBlobClient` is taken not to throw. Any exception from it would take the same catch path that an upload exception takes.
- `DeliveryOrderProcessor` is not part of this model.
- Lone surrogates: a C# `string` is UTF-16 and may hold an unpaired surrogate, which `Encoding.UTF8` replaces with `EF BF BD`. The model's text holds only Unicode scalar values, so `Utf8.DecodeEncode`, `Utf8.EncodeInjective` and `OrderItemsReserver.UploadsTargetOneBlob` are stated for that domain. The queue trigger hands over text decoded from the message body, which cannot contain an unpaired surrogate.
- Fallback URL validity: only an unset or empty URL is modelled as making `PostAsync` throw before sending. A malformed or relative URL makes it throw too; the model covers that through the `PostFailed` outcome of the fallback oracle.
- Concurrency: the model treats each invocation in isolation. Two concurrent runs in the same millisecond share a blob name (`BlobNameCollision`), and the second one's non-overwriting upload then throws. That path is the modelled `UploadFailed` outcome.
