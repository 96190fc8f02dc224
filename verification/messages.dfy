/** The records that travel through the broker between the orchestrator
    and the two worker roles. */
module Messages {
  import opened Wrappers
  import opened Reducer
  import opened Matrix

  /** The correlation id: an opaque value compared only for equality. */
  type Uuid = string

  /** One sub-query: the JSON object the orchestrator sends to a Maker. */
  datatype SubQuery = SubQuery(apiKey: string, startDate: Date, origin: string, destination: string, endDate: Option<Date>)

  /** What a Poller sends back: the best direct flight and the best flight with
      stops (`None` when there is none) and the sub-query they answer. */
  datatype Reply = Reply(direct: Option<BestFlight>, withStops: Option<BestFlight>, query: SubQuery)

  datatype Body =
    | SearchRequest(query: SubQuery)                  // orchestrator -> Maker
    | PollRequest(location: string, query: SubQuery)  // Maker -> Poller
    | SearchReply(reply: Reply)                       // Poller -> orchestrator

  /** A published message: exchange, routing key, the `correlation_id` and
      `reply_to` properties, and the body. */
  datatype Message = Message(exchange: string, routingKey: string, correlationId: Option<Uuid>, replyTo: Option<string>, body: Body)

  /** What a worker does with the broker for one consumed message. */
  datatype Effect = Publish(message: Message) | Ack

  /** Routing key of the orchestrator's requests. */
  const MakeRoute := "skyscanner-make"

  /** Routing key of the Maker's forwards. */
  const PollRoute := "poll"
}
