/** The Poller worker: polls a session until the gateway reports it complete,
    reduces the results to the two best flights and replies to the
    orchestrator with the original routing properties. */
module Poller {
  import opened Wrappers
  import opened Reducer
  import opened Gateway
  import opened Legs
  import opened Messages

  /** The polling loop of `_poll_session`, fed the gateway's answers in order.
      An exception from the HTTP client skips the iteration without counting;
      a body that is not JSON raises from `json.loads`, which is outside the
      `try`; every parsed response bumps the counter, which resets once it
      exceeds `API_MAX_ERRORS`; the loop ends at the first `UpdatesComplete`
      response. `used` answers are consumed. */
  method PollUntilComplete(answers: seq<PollAnswer>) returns (outcome: LoopEnd<Session>, attempts: nat, used: nat)
    ensures used <= |answers|
    ensures attempts <= ApiMaxErrors
    ensures attempts == AnsweredCount(answers[..used]) % (ApiMaxErrors + 1)
    ensures outcome.Waiting? ==> used == |answers|
    ensures outcome.Waiting? <==> forall k :: 0 <= k < |answers| ==> Pending(answers[k])
    ensures forall k :: 0 <= k < used && (outcome.Waiting? || k < used - 1) ==> Pending(answers[k])
    ensures outcome.Done? ==> 0 < used && Complete(answers[used - 1]) && outcome.value == answers[used - 1].session
    ensures outcome.Crashed? ==> 0 < used && answers[used - 1].PollMalformed? && outcome.error == ValueError
  {
    var response: Option<PollAnswer> := None;
    attempts := 0;
    used := 0;
    while response.None? || !Complete(response.value)
      invariant used <= |answers|
      invariant attempts <= ApiMaxErrors
      invariant attempts == AnsweredCount(answers[..used]) % (ApiMaxErrors + 1)
      invariant response.Some? && Complete(response.value) ==> 0 < used && response.value == answers[used - 1]
      invariant forall k :: 0 <= k < used && (response.None? || !Complete(response.value) || k < used - 1)
                  ==> Pending(answers[k])
      decreases |answers| - used
    {
      if used == |answers| {
        return Waiting, attempts, used;
      }
      var a := answers[used];
      assert answers[..used + 1] == answers[..used] + [a];
      if a.PollRaised? {
        used := used + 1;
        continue;
      }
      if a.PollMalformed? {
        return Crashed(ValueError), attempts, used + 1;
      }
      BumpCountsAnswer(answers[..used], a);
      used := used + 1;
      response := Some(a);
      attempts := Bump(attempts);
    }
    outcome := Done(response.value.session);
  }

  /** `_poll_session` for one consumed message: poll to completion, find the best
      direct flight and the best flight with stops, reply to `reply_to` with the
      same correlation id and the query unchanged, then acknowledge. */
  method PollSession(msg: Message, answers: seq<PollAnswer>) returns (outcome: LoopEnd<seq<Effect>>)
    ensures !msg.body.PollRequest? ==> outcome == Crashed(KeyError)
    ensures msg.body.PollRequest? ==> (outcome.Waiting? <==> forall k :: 0 <= k < |answers| ==> Pending(answers[k]))
    ensures outcome.Done? ==>
              && msg.body.PollRequest? && msg.replyTo.Some?
              && exists k :: && 0 <= k < |answers| && Complete(answers[k])
                             && (forall j :: 0 <= j < k ==> Pending(answers[j]))
                             && BestPair(answers[k].session).Success?
                             && var (direct, withStops) := BestPair(answers[k].session).value;
                                outcome.value == [Publish(Message("", msg.replyTo.value, msg.correlationId, None,
                                                                  SearchReply(Reply(direct, withStops, msg.body.query)))),
                                                  Ack]
    ensures outcome.Crashed? && msg.body.PollRequest? ==>
              exists k :: && 0 <= k < |answers|
                          && (forall j :: 0 <= j < k ==> Pending(answers[j]))
                          && (|| (answers[k].PollMalformed? && outcome.error == ValueError)
                              || (Complete(answers[k]) && BestPair(answers[k].session).Failure? && outcome.error == KeyError)
                              || (Complete(answers[k]) && BestPair(answers[k].session).Success?
                                  && msg.replyTo.None? && outcome.error == TypeError))
  {
    if !msg.body.PollRequest? {
      return Crashed(KeyError);
    }
    var polled, attempts, used := PollUntilComplete(answers);
    if polled.Waiting? {
      return Waiting;
    }
    if polled.Crashed? {
      return Crashed(polled.error);
    }
    var best := PollResults(polled.value);
    if best.Failure? {
      return Crashed(best.error);
    }
    if msg.replyTo.None? {
      // `basic_publish` insists on a string routing key
      return Crashed(TypeError);
    }
    var (direct, withStops) := best.value;
    var reply := Message("", msg.replyTo.value, msg.correlationId, None, SearchReply(Reply(direct, withStops, msg.body.query)));
    outcome := Done([Publish(reply), Ack]);
  }
}
