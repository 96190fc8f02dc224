/** The remote flight-search gateway as the workers see it: the answers it
    gives, and the error counter the workers keep while retrying. */
module Gateway {
  import opened Wrappers
  import opened Reducer

  type CarrierId = int

  datatype Carrier = Carrier(id: CarrierId, name: string)

  /** A leg with its carrier ids in order and its number of stops. */
  datatype Leg = Leg(id: LegId, carrierIds: seq<CarrierId>, stops: int)

  /** The `Itineraries`, `Legs` and `Carriers` of a completed poll. */
  datatype Session = Session(itineraries: seq<Itinerary>, legs: seq<Leg>, carriers: seq<Carrier>)

  /** One answer to "create session": the HTTP client raised, or a response
      with its body text and its `Location` header, if any. */
  datatype CreateAnswer = CreateRaised | CreateAnswered(text: string, location: Option<string>)

  /** One answer to "poll session": the HTTP client raised, a response whose
      body does not parse as JSON, or a parsed response with its `Status`, if
      any, and its results. */
  datatype PollAnswer = PollRaised | PollMalformed | PollAnswered(status: Option<string>, session: Session)

  /** `API_MAX_ERRORS`, the same in both versions of the search. */
  const ApiMaxErrors: nat := 50

  /** The gateway accepted the session: the body is exactly `{}`. */
  predicate Accepted(a: CreateAnswer) {
    a.CreateAnswered? && a.text == "{}"
  }

  /** A response that does not accept the session. */
  predicate Rejected(a: CreateAnswer) {
    a.CreateAnswered? && a.text != "{}"
  }

  /** The loop condition of the pollers fails: `Status` is `UpdatesComplete`. */
  predicate Complete(a: PollAnswer) {
    a.PollAnswered? && a.status == Some("UpdatesComplete")
  }

  /** A poll answer after which the pollers poll again: it neither completes
      the session nor fails to parse. */
  predicate Pending(a: PollAnswer) {
    !Complete(a) && !a.PollMalformed?
  }

  function RejectedCount(answers: seq<CreateAnswer>): nat {
    if answers == [] then 0
    else RejectedCount(answers[..|answers| - 1]) + (if Rejected(answers[|answers| - 1]) then 1 else 0)
  }

  function AnsweredCount(answers: seq<PollAnswer>): nat {
    if answers == [] then 0
    else AnsweredCount(answers[..|answers| - 1]) + (if answers[|answers| - 1].PollAnswered? then 1 else 0)
  }

  /** The workers' error counter after one more counted answer: `attempts += 1`,
      and back to 0 once it exceeds `API_MAX_ERRORS` (after the long sleep). */
  function Bump(attempts: nat): (r: nat)
    ensures r <= ApiMaxErrors
    ensures attempts <= ApiMaxErrors ==> r == (attempts + 1) % (ApiMaxErrors + 1)
  {
    if attempts + 1 > ApiMaxErrors then 0 else attempts + 1
  }

  /** One more rejection moves the resetting counter exactly as `Bump` does. */
  lemma BumpCountsRejection(before: seq<CreateAnswer>, a: CreateAnswer)
    requires Rejected(a)
    ensures RejectedCount(before + [a]) == RejectedCount(before) + 1
    ensures Bump(RejectedCount(before) % (ApiMaxErrors + 1)) == RejectedCount(before + [a]) % (ApiMaxErrors + 1)
  {
    assert (before + [a])[..|before|] == before;
    BumpIsSuccessorMod(RejectedCount(before));
  }

  /** One more counted poll answer moves the resetting counter exactly as `Bump` does. */
  lemma BumpCountsAnswer(before: seq<PollAnswer>, a: PollAnswer)
    requires a.PollAnswered?
    ensures AnsweredCount(before + [a]) == AnsweredCount(before) + 1
    ensures Bump(AnsweredCount(before) % (ApiMaxErrors + 1)) == AnsweredCount(before + [a]) % (ApiMaxErrors + 1)
  {
    assert (before + [a])[..|before|] == before;
    BumpIsSuccessorMod(AnsweredCount(before));
  }

  lemma BumpIsSuccessorMod(n: nat)
    ensures Bump(n % (ApiMaxErrors + 1)) == (n + 1) % (ApiMaxErrors + 1)
  {
    var m := ApiMaxErrors + 1;
    var q := n / m;
    assert n == q * m + n % m;
    if n % m + 1 < m {
      assert n + 1 == q * m + (n % m + 1);
    } else {
      assert n + 1 == (q + 1) * m;
    }
  }
}
