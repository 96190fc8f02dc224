/** The query orchestrator `FlightQuery`: expands a search into the date x
    stay matrix, sends one sub-query per cell with round-robin credentials,
    counts matching replies down and, when the count reaches zero, hands the
    price-sorted results to its callback. The broker is a list of messages;
    `_result_callback` is a step function on the orchestrator's state. */
module Orchestrator {
  import opened Wrappers
  import opened Reducer
  import opened Matrix
  import opened Messages
  import opened Sorting

  /** The search a user asked for; `minDays`/`maxDays` are present for round trips. */
  datatype TripQuery = TripQuery(origin: string, destination: string, startDate: Date, endDate: Date,
                                 minDays: Option<int>, maxDays: Option<int>)

  /** The state of one `FlightQuery`: its correlation id, credential pool,
      private reply queue and search, `pending_sessions`, `results`, and
      whether it has finalized and closed its connection. */
  datatype FlightQuery = FlightQuery(uuid: Uuid, apiKeys: seq<string>, replyQueue: string, query: TripQuery,
                                     pendingSessions: int, results: seq<Reply>, closed: bool)

  /** A `Result`: one best flight of one sub-query. */
  datatype FlightResult = FlightResult(price: Price, airlines: set<string>, origin: string, destination: string,
                                       startDate: Date, endDate: Option<Date>)

  /** The two lists handed to the callback: direct flights, then flights with stops. */
  type Callback = (seq<FlightResult>, seq<FlightResult>)

  /** `Result.__lt__` compares prices only. */
  function PriceOf(r: FlightResult): int {
    r.price
  }

  /** `FlightQuery.__init__`: a fresh orchestrator with nothing sent or received. */
  function NewFlightQuery(uuid: Uuid, apiKeys: seq<string>, replyQueue: string, query: TripQuery): FlightQuery {
    FlightQuery(uuid, apiKeys, replyQueue, query, 0, [], false)
  }

  /** `if self.min_days:` — absent or zero means a one-way search. */
  predicate RoundTripRequested(q: TripQuery) {
    q.minDays.Some? && q.minDays.value != 0
  }

  /** The cells `execute` sends when it does not fail. */
  function QueryCells(q: TripQuery): seq<Cell> {
    if !RoundTripRequested(q) then Cells(q.startDate, q.endDate, OneWay)
    else if q.maxDays.Some? then Cells(q.startDate, q.endDate, RoundTrip(q.minDays.value, q.maxDays.value))
    else []
  }

  /** The message sent as dispatch number `n` for `cell`: credential `n mod len(api_keys)`,
      the orchestrator's correlation id and reply queue. */
  function Request(s: FlightQuery, n: int, cell: Cell): Message
    requires |s.apiKeys| > 0
  {
    Message("", MakeRoute, Some(s.uuid), Some(s.replyQueue),
            SearchRequest(SubQuery(s.apiKeys[n % |s.apiKeys|], cell.day, s.query.origin, s.query.destination, ReturnDate(cell))))
  }

  /** `sent` is one request per cell, in order, numbered on from `s.pendingSessions`. */
  predicate SentFor(s: FlightQuery, sent: seq<Message>, cells: seq<Cell>) {
    && |sent| == |cells|
    && forall k :: 0 <= k < |sent| ==> |s.apiKeys| > 0 && sent[k] == Request(s, s.pendingSessions + k, cells[k])
  }

  lemma SentForAppend(s: FlightQuery, sent: seq<Message>, cells: seq<Cell>, c: Cell)
    requires SentFor(s, sent, cells) && |s.apiKeys| > 0
    ensures SentFor(s, sent + [Request(s, s.pendingSessions + |cells|, c)], cells + [c])
  {
  }

  /** The inner loop of `execute` for one day of a round trip: one request per
      stay in `[lo, hi]`, the counter moving on with each. */
  method SendStays(s: FlightQuery, day: Date, lo: int, hi: int, sent: seq<Message>, pending: int, ghost before: seq<Cell>)
    returns (sent': seq<Message>, pending': int)
    requires |s.apiKeys| > 0 && SentFor(s, sent, before) && pending == s.pendingSessions + |sent|
    ensures SentFor(s, sent', before + DayCells(day, RoundTrip(lo, hi))) && pending' == s.pendingSessions + |sent'|
  {
    ghost var today := DayCells(day, RoundTrip(lo, hi));
    sent', pending' := sent, pending;
    var i := lo;
    while i <= hi
      invariant lo <= i && (i == lo || i <= hi + 1)
      invariant pending' == s.pendingSessions + |sent'|
      invariant SentFor(s, sent', before + today[..i - lo])
      decreases hi - i
    {
      ghost var done := before + today[..i - lo];
      assert today[i - lo] == Cell(day, Some(i));
      assert before + today[..i + 1 - lo] == done + [Cell(day, Some(i))];
      SentForAppend(s, sent', done, Cell(day, Some(i)));
      sent' := sent' + [Request(s, pending', Cell(day, Some(i)))];
      pending' := pending' + 1;
      i := i + 1;
    }
    assert today[..i - lo] == today;
  }

  /** `execute` up to its wait loop: one request per cell of the matrix,
      `pending_sessions` counting them. Fails on the first day when there is no
      credential (`% 0`) or when a round trip has no `max_days` (`None + 1`). */
  method Execute(s: FlightQuery) returns (r: Result<(FlightQuery, seq<Message>)>)
    ensures r.Failure? <==> s.query.startDate <= s.query.endDate
                            && (s.apiKeys == [] || (RoundTripRequested(s.query) && s.query.maxDays.None?))
    ensures r.Failure? ==> r.error == (if s.apiKeys == [] then ZeroDivisionError else TypeError)
    ensures r.Success? ==>
              && SentFor(s, r.value.1, QueryCells(s.query))
              && r.value.0 == s.(pendingSessions := s.pendingSessions + |QueryCells(s.query)|)
  {
    var q := s.query;
    ghost var stays := if RoundTripRequested(q) && q.maxDays.Some? then RoundTrip(q.minDays.value, q.maxDays.value) else OneWay;
    var pending := s.pendingSessions;
    var sent: seq<Message> := [];
    var current := q.startDate;
    while current <= q.endDate
      invariant q.startDate <= current && (current == q.startDate || current <= q.endDate + 1)
      invariant current > q.startDate ==> s.apiKeys != [] && (RoundTripRequested(q) ==> q.maxDays.Some?)
      invariant pending == s.pendingSessions + |sent|
      invariant SentFor(s, sent, Cells(q.startDate, current - 1, stays))
      decreases q.endDate - current
    {
      if s.apiKeys == [] {
        return Failure(ZeroDivisionError);
      }
      ghost var before := Cells(q.startDate, current - 1, stays);
      ghost var today := DayCells(current, stays);
      assert Cells(q.startDate, current, stays) == before + today;
      if RoundTripRequested(q) {
        if q.maxDays.None? {
          return Failure(TypeError);
        }
        sent, pending := SendStays(s, current, q.minDays.value, q.maxDays.value, sent, pending, before);
      } else {
        assert today == [Cell(current, None)];
        SentForAppend(s, sent, before, Cell(current, None));
        sent := sent + [Request(s, pending, Cell(current, None))];
        pending := pending + 1;
      }
      current := current + 1;
    }
    assert Cells(q.startDate, current - 1, stays) == QueryCells(q);
    r := Success((s.(pendingSessions := pending), sent));
  }

  /** A cell of the matrix has a stay exactly when a round trip was requested. */
  lemma CellStayIffRoundTrip(q: TripQuery, k: int)
    requires 0 <= k < |QueryCells(q)|
    ensures RoundTripRequested(q) <==> QueryCells(q)[k].stay.Some?
  {
    if !RoundTripRequested(q) || q.maxDays.Some? {
      var stays := if RoundTripRequested(q) then RoundTrip(q.minDays.value, q.maxDays.value) else OneWay;
      var cells := Cells(q.startDate, q.endDate, stays);
      assert QueryCells(q) == cells;
      CellsAreTheMatrix(q.startDate, q.endDate, stays);
      assert cells[k] in cells;
      assert InMatrix(cells[k], q.startDate, q.endDate, stays);
    }
  }

  /** The k-th message sent (from 0) carries credential `k mod len(api_keys)`, and a
      round-trip sub-query for day `d` and stay `i` returns on `d + i`. */
  lemma RequestsRoundRobin(s: FlightQuery, sent: seq<Message>)
    requires s.pendingSessions == 0
    requires SentFor(s, sent, QueryCells(s.query))
    ensures forall k :: 0 <= k < |sent| ==>
              && sent[k].body.SearchRequest?
              && sent[k].body.query.apiKey == s.apiKeys[k % |s.apiKeys|]
              && sent[k].correlationId == Some(s.uuid)
              && sent[k].replyTo == Some(s.replyQueue)
              && sent[k].body.query.startDate == QueryCells(s.query)[k].day
              && (RoundTripRequested(s.query) <==> sent[k].body.query.endDate.Some?)
              && (sent[k].body.query.endDate.Some? ==>
                    sent[k].body.query.endDate.value == sent[k].body.query.startDate + QueryCells(s.query)[k].stay.value)
  {
    forall k | 0 <= k < |sent|
      ensures && sent[k].body.SearchRequest?
              && sent[k].body.query.apiKey == s.apiKeys[k % |s.apiKeys|]
              && sent[k].correlationId == Some(s.uuid)
              && sent[k].replyTo == Some(s.replyQueue)
              && sent[k].body.query.startDate == QueryCells(s.query)[k].day
              && (RoundTripRequested(s.query) <==> sent[k].body.query.endDate.Some?)
              && (sent[k].body.query.endDate.Some? ==>
                    sent[k].body.query.endDate.value == sent[k].body.query.startDate + QueryCells(s.query)[k].stay.value)
    {
      var c := QueryCells(s.query)[k];
      assert sent[k] == Request(s, k, c);
      CellStayIffRoundTrip(s.query, k);
    }
  }

  /** The number of sub-queries sent: days x stays for a round trip, one per day one way. */
  lemma DispatchCount(q: TripQuery)
    ensures !RoundTripRequested(q) ==> |QueryCells(q)| == DayCount(q.startDate, q.endDate)
    ensures RoundTripRequested(q) && q.maxDays.Some? ==>
              |QueryCells(q)| == DayCount(q.startDate, q.endDate) * Width(RoundTrip(q.minDays.value, q.maxDays.value))
  {
    if RoundTripRequested(q) && q.maxDays.Some? {
      CellCount(q.startDate, q.endDate, RoundTrip(q.minDays.value, q.maxDays.value));
    } else {
      CellCount(q.startDate, q.endDate, OneWay);
    }
  }

  /** The best flight of a reply a result list is built from. */
  function Pick(r: Reply, kind: LegKind): Option<BestFlight> {
    OfKind((r.direct, r.withStops), kind)
  }

  /** The `Result` built from a best flight and the query it answers. */
  function ResultOf(b: BestFlight, q: SubQuery): FlightResult {
    FlightResult(b.price, b.carriers, q.origin, q.destination, q.startDate, q.endDate)
  }

  /** One `Result` per reply that has a best flight of `kind`, in arrival order. */
  function Collect(results: seq<Reply>, kind: LegKind): seq<FlightResult> {
    if results == [] then []
    else
      var last := results[|results| - 1];
      Collect(results[..|results| - 1], kind)
      + (if Pick(last, kind).Some? then [ResultOf(Pick(last, kind).value, last.query)] else [])
  }

  /** A collected result comes from exactly one reply that has a best flight of that kind,
      carries that reply's price, carriers and query, and so has an end date exactly when
      the sub-query had one; every such reply contributes. */
  lemma {:induction false} CollectedResults(results: seq<Reply>, kind: LegKind)
    ensures forall x :: x in Collect(results, kind) <==>
              exists j :: 0 <= j < |results| && Pick(results[j], kind).Some?
                          && x == ResultOf(Pick(results[j], kind).value, results[j].query)
    ensures forall x :: x in Collect(results, kind) ==>
              (x.endDate.None? <==>
                 exists j :: 0 <= j < |results| && Pick(results[j], kind).Some?
                             && x == ResultOf(Pick(results[j], kind).value, results[j].query)
                             && results[j].query.endDate.None?)
  {
    if results != [] {
      var init := results[..|results| - 1];
      CollectedResults(init, kind);
      forall x ensures x in Collect(results, kind) <==>
              exists j :: 0 <= j < |results| && Pick(results[j], kind).Some?
                          && x == ResultOf(Pick(results[j], kind).value, results[j].query)
      {
        if exists j :: 0 <= j < |results| && Pick(results[j], kind).Some?
                       && x == ResultOf(Pick(results[j], kind).value, results[j].query) {
          var j :| 0 <= j < |results| && Pick(results[j], kind).Some?
                   && x == ResultOf(Pick(results[j], kind).value, results[j].query);
          if j < |init| {
            assert results[j] == init[j];
          }
        }
        if x in Collect(init, kind) {
          var j :| 0 <= j < |init| && Pick(init[j], kind).Some? && x == ResultOf(Pick(init[j], kind).value, init[j].query);
          assert results[j] == init[j];
        }
      }
    }
  }

  /** One list of the finalize step: the collected results sorted by price, stably. */
  function Ranked(results: seq<Reply>, kind: LegKind): seq<FlightResult> {
    SortBy(Collect(results, kind), PriceOf)
  }

  /** The finalize step: direct flights, then flights with stops. */
  function Finalize(results: seq<Reply>): Callback {
    (Ranked(results, Direct), Ranked(results, WithStops))
  }

  /** A list handed to the callback is sorted by price, holds exactly the collected
      results, and keeps equal prices in arrival order. */
  lemma FinalizedList(results: seq<Reply>, kind: LegKind)
    ensures SortedBy(Ranked(results, kind), PriceOf)
    ensures multiset(Ranked(results, kind)) == multiset(Collect(results, kind))
    ensures forall p :: WithKey(Ranked(results, kind), PriceOf, p) == WithKey(Collect(results, kind), PriceOf, p)
  {
  }

  /** No other list is sorted by price and stable on the collected results. */
  lemma FinalizedListIsUnique(results: seq<Reply>, kind: LegKind, other: seq<FlightResult>)
    requires SortedBy(other, PriceOf)
    requires forall p :: WithKey(other, PriceOf, p) == WithKey(Collect(results, kind), PriceOf, p)
    ensures other == Ranked(results, kind)
  {
    StableSortIsUnique(Collect(results, kind), other, PriceOf);
  }

  /** Messages carrying this orchestrator's correlation id. */
  predicate Matches(s: FlightQuery, m: Message) {
    m.correlationId == Some(s.uuid)
  }

  /** Every matching message is a Poller reply (the only writer of the reply queue). */
  predicate RepliesWellFormed(uuid: Uuid, inbox: seq<Message>) {
    forall k :: 0 <= k < |inbox| && inbox[k].correlationId == Some(uuid) ==> inbox[k].body.SearchReply?
  }

  /** `_result_callback` for one delivered message. A closed connection delivers nothing. */
  function Deliver(s: FlightQuery, m: Message): (r: (FlightQuery, Option<Callback>))
    requires Matches(s, m) ==> m.body.SearchReply?
    ensures s.closed ==> r == (s, None)
    ensures r.0.uuid == s.uuid && r.0.query == s.query && r.0.apiKeys == s.apiKeys && r.0.replyQueue == s.replyQueue
    ensures !s.closed && !Matches(s, m) ==> r.0.results == s.results && r.0.pendingSessions == s.pendingSessions
    ensures !s.closed && Matches(s, m) ==>
              r.0.results == s.results + [m.body.reply] && r.0.pendingSessions == s.pendingSessions - 1
    ensures r.1.Some? <==> !s.closed && r.0.pendingSessions == 0
    ensures r.1.Some? ==> r.0.closed && r.1.value == Finalize(r.0.results)
    ensures r.1.None? ==> r.0.closed == s.closed
  {
    if s.closed then (s, None)
    else
      var t := if Matches(s, m)
               then s.(results := s.results + [m.body.reply], pendingSessions := s.pendingSessions - 1)
               else s;
      if t.pendingSessions == 0 then (t.(closed := true), Some(Finalize(t.results))) else (t, None)
  }

  function MatchCount(inbox: seq<Message>, uuid: Uuid): nat {
    if inbox == [] then 0
    else (if inbox[0].correlationId == Some(uuid) then 1 else 0) + MatchCount(inbox[1..], uuid)
  }

  /** The replies among the matching messages, in arrival order. */
  function MatchingReplies(inbox: seq<Message>, uuid: Uuid): seq<Reply> {
    if inbox == [] then []
    else (if inbox[0].correlationId == Some(uuid) && inbox[0].body.SearchReply? then [inbox[0].body.reply] else [])
         + MatchingReplies(inbox[1..], uuid)
  }

  /** What the wait loop leaves behind: the final state, the callbacks made, and how
      many delivered messages it consumed. */
  datatype Waited = Waited(state: FlightQuery, calls: seq<Callback>, consumed: nat)

  /** The wait loop `while self.pending_sessions: process_data_events()`, fed the
      messages that reach the reply queue in order. */
  function Await(s: FlightQuery, inbox: seq<Message>): (w: Waited)
    requires RepliesWellFormed(s.uuid, inbox)
    ensures w.consumed <= |inbox| && w.state.uuid == s.uuid
    decreases |inbox|
  {
    if s.pendingSessions == 0 || inbox == [] then Waited(s, [], 0)
    else
      var d := Deliver(s, inbox[0]);
      var w := Await(d.0, inbox[1..]);
      Waited(w.state, (if d.1.Some? then [d.1.value] else []) + w.calls, w.consumed + 1)
  }

  /** Fewer matching replies than outstanding sub-queries: the loop drains every
      message, never calls back and stays open, counted down by the matches only. */
  lemma {:induction false} AwaitStarved(s: FlightQuery, inbox: seq<Message>)
    requires RepliesWellFormed(s.uuid, inbox)
    requires !s.closed && 0 < s.pendingSessions && MatchCount(inbox, s.uuid) < s.pendingSessions
    ensures var w := Await(s, inbox);
            && w.calls == [] && w.consumed == |inbox| && !w.state.closed
            && w.state.pendingSessions == s.pendingSessions - MatchCount(inbox, s.uuid)
    decreases |inbox|
  {
    if inbox != [] {
      var d := Deliver(s, inbox[0]);
      AwaitStarved(d.0, inbox[1..]);
    }
  }

  /** Enough matching replies: exactly one callback, made on the message that is the
      N-th match, after which the orchestrator is closed with nothing outstanding. */
  lemma {:induction false} AwaitFires(s: FlightQuery, inbox: seq<Message>)
    requires RepliesWellFormed(s.uuid, inbox)
    requires !s.closed && 0 < s.pendingSessions <= MatchCount(inbox, s.uuid)
    ensures var w := Await(s, inbox);
            && |w.calls| == 1 && w.calls[0] == Finalize(w.state.results)
            && w.state.closed && w.state.pendingSessions == 0
            && 0 < w.consumed && inbox[w.consumed - 1].correlationId == Some(s.uuid)
            && MatchCount(inbox[..w.consumed], s.uuid) == s.pendingSessions
    decreases |inbox|
  {
    var m := inbox[0];
    var rest := inbox[1..];
    var d := Deliver(s, m);
    var w := Await(d.0, rest);
    assert Await(s, inbox) == Waited(w.state, (if d.1.Some? then [d.1.value] else []) + w.calls, w.consumed + 1);
    assert inbox[..w.consumed + 1] == [m] + rest[..w.consumed];
    assert ([m] + rest[..w.consumed])[1..] == rest[..w.consumed];
    if d.1.None? {
      AwaitFires(d.0, rest);
    }
  }

  /** The loop records the matching replies it consumed, in arrival order. */
  lemma {:induction false} AwaitRecords(s: FlightQuery, inbox: seq<Message>)
    requires RepliesWellFormed(s.uuid, inbox)
    requires !s.closed && 0 <= s.pendingSessions
    ensures var w := Await(s, inbox);
            w.state.results == s.results + MatchingReplies(inbox[..w.consumed], s.uuid)
    decreases |inbox|
  {
    if s.pendingSessions == 0 || inbox == [] {
      assert inbox[..0] == [];
    } else {
      var m := inbox[0];
      var rest := inbox[1..];
      var d := Deliver(s, m);
      var w := Await(d.0, rest);
      var prefix := inbox[..w.consumed + 1];
      assert prefix[0] == m && prefix[1..] == rest[..w.consumed];
      assert MatchingReplies(prefix, s.uuid)
             == (if Matches(s, m) then [m.body.reply] else []) + MatchingReplies(rest[..w.consumed], s.uuid);
      if d.1.None? {
        AwaitRecords(d.0, rest);
      } else {
        assert rest[..0] == [];
      }
    }
  }

  /** A whole search: after `execute` sent N requests from a fresh orchestrator, N
      matching replies among the delivered messages make the callback fire exactly once
      (never when N = 0) with the finalized lists of exactly those N replies. */
  lemma SearchCallsBackOnce(s: FlightQuery, inbox: seq<Message>)
    requires !s.closed && s.results == [] && s.pendingSessions >= 0
    requires RepliesWellFormed(s.uuid, inbox)
    requires MatchCount(inbox, s.uuid) >= s.pendingSessions
    ensures var w := Await(s, inbox);
            && |w.calls| == (if s.pendingSessions == 0 then 0 else 1)
            && (s.pendingSessions > 0 ==>
                  && |MatchingReplies(inbox[..w.consumed], s.uuid)| == s.pendingSessions
                  && w.calls[0] == Finalize(MatchingReplies(inbox[..w.consumed], s.uuid)))
  {
    if s.pendingSessions > 0 {
      var w := Await(s, inbox);
      AwaitFires(s, inbox);
      AwaitRecords(s, inbox);
      var prefix := inbox[..w.consumed];
      assert RepliesWellFormed(s.uuid, prefix);
      MatchingRepliesCount(prefix, s.uuid);
      assert w.state.results == MatchingReplies(prefix, s.uuid);
    }
  }

  /** A query from its constructor: `__init__` starts with no pending sessions and no
      results, so once `execute` has sent one request per matrix cell, as many matching
      replies make the callback fire once (never for an empty matrix) with exactly those
      replies, finalized. */
  lemma FreshQueryCallsBackOnce(uuid: Uuid, apiKeys: seq<string>, replyQueue: string, query: TripQuery,
                                inbox: seq<Message>)
    requires RepliesWellFormed(uuid, inbox)
    requires MatchCount(inbox, uuid) >= |QueryCells(query)|
    ensures var s := NewFlightQuery(uuid, apiKeys, replyQueue, query);
            var w := Await(s.(pendingSessions := s.pendingSessions + |QueryCells(query)|), inbox);
            && |w.calls| == (if QueryCells(query) == [] then 0 else 1)
            && (QueryCells(query) != [] ==>
                  && |MatchingReplies(inbox[..w.consumed], uuid)| == |QueryCells(query)|
                  && w.calls[0] == Finalize(MatchingReplies(inbox[..w.consumed], uuid)))
  {
    var n := |QueryCells(query)|;
    var t := NewFlightQuery(uuid, apiKeys, replyQueue, query).(pendingSessions := n);
    SearchCallsBackOnce(t, inbox);
    assert n == 0 <==> QueryCells(query) == [];
  }

  lemma {:induction false} MatchingRepliesCount(inbox: seq<Message>, uuid: Uuid)
    requires RepliesWellFormed(uuid, inbox)
    ensures |MatchingReplies(inbox, uuid)| == MatchCount(inbox, uuid)
  {
    if inbox != [] {
      MatchingRepliesCount(inbox[1..], uuid);
    }
  }
}
