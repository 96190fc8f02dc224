/** The Maker worker: builds the create-session form, retries until the
    gateway accepts it, extracts the session token from `Location` and
    forwards a poll request with the original routing properties. */
module Maker {
  import opened Wrappers
  import opened Text
  import opened Matrix
  import opened Gateway
  import opened Messages

  /** The form fields of the create-session request, in the order the source
      concatenates them; the inbound date is added only for queries that have
      an `end_date`. `dateText` renders a date as the source's `str(date)` does. */
  function FormFields(q: SubQuery, dateText: Date -> string): seq<string> {
    ["cabinClass=economy", "country=ES", "currency=EUR", "locale=es-ES",
     "originPlace=" + q.origin, "destinationPlace=" + q.destination,
     "outboundDate=" + dateText(q.startDate), "adults=1"]
    + (if q.endDate.Some? then ["inboundDate=" + dateText(q.endDate.value)] else [])
  }

  /** The url-encoded body sent to the gateway: the fields joined by `&`. */
  function Payload(q: SubQuery, dateText: Date -> string): string {
    Join(FormFields(q, dateText), '&')
  }

  /** `field` is the form field `name=...`. */
  predicate Names(field: string, name: string) {
    |name| < |field| && field[..|name| + 1] == name + "="
  }

  lemma FirstCharDiffers(field: string, name: string)
    requires |field| > 0 && |name| > 0 && field[0] != name[0]
    ensures !Names(field, name)
  {
    if |name| < |field| {
      assert field[..|name| + 1][0] != (name + "=")[0];
    }
  }

  /** No field holds the separator when the place ids and rendered dates do not. */
  lemma FieldsHaveNoSeparator(q: SubQuery, dateText: Date -> string)
    requires '&' !in q.origin && '&' !in q.destination && '&' !in dateText(q.startDate)
    requires q.endDate.Some? ==> '&' !in dateText(q.endDate.value)
    ensures forall k :: 0 <= k < |FormFields(q, dateText)| ==> '&' !in FormFields(q, dateText)[k]
  {
  }

  /** Exactly the queries with an end date produce an `inboundDate` field. */
  lemma InboundFieldIffEndDate(q: SubQuery, dateText: Date -> string)
    ensures (exists k :: 0 <= k < |FormFields(q, dateText)| && Names(FormFields(q, dateText)[k], "inboundDate"))
            <==> q.endDate.Some?
  {
    var f := FormFields(q, dateText);
    forall k | 0 <= k < 8 ensures !Names(f[k], "inboundDate") {
      assert f[k][0] in "ccclodoa";
      FirstCharDiffers(f[k], "inboundDate");
    }
    if q.endDate.Some? {
      assert Names(f[8], "inboundDate");
    }
  }

  /** Reading the sent form back gives exactly the form fields, in order, and
      the gateway finds an `inboundDate` field exactly when the query has an
      end date (place ids and rendered dates hold no `&`). */
  lemma PayloadDecodes(q: SubQuery, dateText: Date -> string)
    requires '&' !in q.origin && '&' !in q.destination && '&' !in dateText(q.startDate)
    requires q.endDate.Some? ==> '&' !in dateText(q.endDate.value)
    ensures Split(Payload(q, dateText), '&') == FormFields(q, dateText)
    ensures (exists k :: 0 <= k < |Split(Payload(q, dateText), '&')|
                         && Names(Split(Payload(q, dateText), '&')[k], "inboundDate"))
            <==> q.endDate.Some?
  {
    FieldsHaveNoSeparator(q, dateText);
    SplitJoin(FormFields(q, dateText), '&');
    InboundFieldIffEndDate(q, dateText);
  }
  /** The retry loop of `_create_session`, fed the gateway's answers in order.
      A rejection bumps the error counter (resetting it past `API_MAX_ERRORS`);
      only a body of exactly `{}` ends the loop; an exception from the HTTP
      client passes through the `finally` and escapes. `used` answers are consumed. */
  method CreateWithRetry(answers: seq<CreateAnswer>) returns (outcome: LoopEnd<Option<string>>, attempts: nat, used: nat)
    ensures used <= |answers|
    ensures attempts <= ApiMaxErrors
    ensures attempts == RejectedCount(answers[..used]) % (ApiMaxErrors + 1)
    ensures outcome.Waiting? ==> used == |answers|
    ensures forall k :: 0 <= k < used && (outcome.Waiting? || k < used - 1) ==> Rejected(answers[k])
    ensures outcome.Done? ==> 0 < used && Accepted(answers[used - 1]) && outcome.value == answers[used - 1].location
    ensures outcome.Crashed? ==> 0 < used && answers[used - 1].CreateRaised? && outcome.error == RequestFailed
  {
    attempts := 0;
    used := 0;
    while true
      invariant used <= |answers|
      invariant attempts <= ApiMaxErrors
      invariant attempts == RejectedCount(answers[..used]) % (ApiMaxErrors + 1)
      invariant forall k :: 0 <= k < used ==> Rejected(answers[k])
      decreases |answers| - used
    {
      if used == |answers| {
        return Waiting, attempts, used;
      }
      var a := answers[used];
      assert answers[..used + 1] == answers[..used] + [a];
      match a
      case CreateRaised =>
        return Crashed(RequestFailed), attempts, used + 1;
      case CreateAnswered(text, location) =>
        if text == "{}" {
          return Done(location), attempts, used + 1;
        }
        BumpCountsRejection(answers[..used], a);
        attempts := Bump(attempts);
        used := used + 1;
    }
  }

  /** `response.headers['Location'].split('/')[-1]`. */
  function Token(location: string): (token: string)
    ensures IsLastPiece(location, token, '/')
  {
    LastPiece(location, '/')
  }

  /** The poll request forwarded for `request`: routed to `poll` on the
      worker's exchange, same correlation id and reply-to, same query. */
  function Forward(exchange: string, request: Message, token: string): Message
    requires request.body.SearchRequest?
  {
    Message(exchange, PollRoute, request.correlationId, request.replyTo, PollRequest(token, request.body.query))
  }

  /** `_create_session` for one consumed message: build the payload, retry until
      accepted, extract the token, forward one poll request, then acknowledge. */
  method CreateSession(exchange: string, msg: Message, answers: seq<CreateAnswer>, dateText: Date -> string)
    returns (outcome: LoopEnd<seq<Effect>>, payload: string)
    ensures !msg.body.SearchRequest? ==> outcome == Crashed(KeyError)
    ensures msg.body.SearchRequest? ==> payload == Payload(msg.body.query, dateText)
    ensures outcome.Done? ==>
              && msg.body.SearchRequest?
              && exists k, location ::
                   && 0 <= k < |answers| && Accepted(answers[k]) && answers[k].location == Some(location)
                   && (forall j :: 0 <= j < k ==> Rejected(answers[j]))
                   && outcome.value == [Publish(Forward(exchange, msg, Token(location))), Ack]
    ensures outcome.Waiting? ==> msg.body.SearchRequest? && forall k :: 0 <= k < |answers| ==> Rejected(answers[k])
    ensures msg.body.SearchRequest? && outcome.Crashed? ==>
              exists k :: && 0 <= k < |answers| && (forall j :: 0 <= j < k ==> Rejected(answers[j]))
                          && (|| (answers[k].CreateRaised? && outcome.error == RequestFailed)
                              || (Accepted(answers[k]) && answers[k].location.None? && outcome.error == KeyError))
  {
    payload := "";
    if !msg.body.SearchRequest? {
      return Crashed(KeyError), payload;
    }
    var query := msg.body.query;
    payload := Payload(query, dateText);
    var created, attempts, used := CreateWithRetry(answers);
    match created
    case Waiting =>
      outcome := Waiting;
    case Crashed(e) =>
      outcome := Crashed(e);
    case Done(location) =>
      if location.None? {
        outcome := Crashed(KeyError);
      } else {
        var token := Token(location.value);
        outcome := Done([Publish(Forward(exchange, msg, token)), Ack]);
      }
  }
}
