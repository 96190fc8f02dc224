/** The command-line search: creates every session first, then polls each one
    in turn, and returns one row per session with a best flight, sorted by
    price. Its error counters are never reset, unlike those of the workers. */
module Sequential {
  import opened Wrappers
  import opened Text
  import opened Matrix
  import opened Reducer
  import opened Gateway
  import opened Legs
  import opened Sorting
  import Messages
  import Maker

  /** The number of long refresh waits after `attempts` counted errors when the
      counter is never reset: one for every error past `API_MAX_ERRORS`. */
  function Overflow(attempts: nat): nat {
    if attempts > ApiMaxErrors then attempts - ApiMaxErrors else 0
  }

  /** The form `create_session` sends for one cell: the Maker's fields, with an
      inbound date exactly for a round-trip cell. */
  function SessionForm(apiKey: string, origin: string, destination: string, cell: Cell): Messages.SubQuery {
    Messages.SubQuery(apiKey, cell.day, origin, destination, ReturnDate(cell))
  }

  /** The forms `create_session` sends for `cells`, one per cell, in order. */
  function Forms(apiKey: string, origin: string, destination: string, dateText: Date -> string,
                 cells: seq<Cell>): seq<string>
  {
    if cells == [] then []
    else
      var n := |cells| - 1;
      Forms(apiKey, origin, destination, dateText, cells[..n])
      + [Maker.Payload(SessionForm(apiKey, origin, destination, cells[n]), dateText)]
  }

  /** The k-th form is the payload of the k-th cell's sub-query. */
  lemma {:induction false} FormsAre(apiKey: string, origin: string, destination: string, dateText: Date -> string,
                                    cells: seq<Cell>)
    ensures |Forms(apiKey, origin, destination, dateText, cells)| == |cells|
    ensures forall k :: 0 <= k < |cells| ==>
              Forms(apiKey, origin, destination, dateText, cells)[k]
              == Maker.Payload(SessionForm(apiKey, origin, destination, cells[k]), dateText)
  {
    if cells != [] {
      var n := |cells| - 1;
      FormsAre(apiKey, origin, destination, dateText, cells[..n]);
      assert forall k :: 0 <= k < n ==> cells[..n][k] == cells[k];
    }
  }

  /** Forms sent for the first cells, one per cell, are the first of `Forms`. */
  lemma FormsPrefix(apiKey: string, origin: string, destination: string, dateText: Date -> string,
                    cells: seq<Cell>, payloads: seq<string>)
    requires |payloads| <= |cells|
    requires forall k :: 0 <= k < |payloads| ==>
               payloads[k] == Maker.Payload(SessionForm(apiKey, origin, destination, cells[k]), dateText)
    ensures payloads <= Forms(apiKey, origin, destination, dateText, cells)
  {
    FormsAre(apiKey, origin, destination, dateText, cells);
    assert payloads == Forms(apiKey, origin, destination, dateText, cells)[..|payloads|];
  }

  /** A round-trip cell, and only such a cell, puts an `inboundDate` field into the
      payload, and that date is the departure day plus the stay. */
  lemma SessionPayloadInbound(apiKey: string, origin: string, destination: string, cell: Cell,
                              dateText: Date -> string)
    requires '&' !in origin && '&' !in destination && '&' !in dateText(cell.day)
    requires cell.stay.Some? ==> '&' !in dateText(cell.day + cell.stay.value)
    ensures var fields := Split(Maker.Payload(SessionForm(apiKey, origin, destination, cell), dateText), '&');
            && (exists k :: 0 <= k < |fields| && Maker.Names(fields[k], "inboundDate")) <==> cell.stay.Some?
    ensures var fields := Split(Maker.Payload(SessionForm(apiKey, origin, destination, cell), dateText), '&');
            cell.stay.Some? ==> |fields| == 9 && fields[8] == "inboundDate=" + dateText(cell.day + cell.stay.value)
  {
    Maker.PayloadDecodes(SessionForm(apiKey, origin, destination, cell), dateText);
  }

  /** `create_session`, fed the gateway's answers in order: every rejection is
      counted and the counter is never reset, so each one past `API_MAX_ERRORS`
      costs a refresh wait; a body of exactly `{}` ends the loop and the token is
      the last `/`-piece of `Location`; a transport exception escapes. `payload`
      is the form sent on every attempt. */
  method CreateSession(apiKey: string, outboundDate: Date, inboundDate: Option<Date>, originPlace: string,
                       destinationPlace: string, dateText: Date -> string, answers: seq<CreateAnswer>)
    returns (outcome: LoopEnd<string>, payload: string, attempts: nat, refreshes: nat, used: nat)
    ensures payload == Maker.Payload(Messages.SubQuery(apiKey, outboundDate, originPlace, destinationPlace, inboundDate), dateText)
    ensures used <= |answers|
    ensures attempts == RejectedCount(answers[..used])
    ensures refreshes == Overflow(attempts)
    ensures outcome.Waiting? ==> used == |answers|
    ensures forall k :: 0 <= k < used && (outcome.Waiting? || k < used - 1) ==> Rejected(answers[k])
    ensures !outcome.Waiting? ==> 0 < used
    ensures outcome.Done? ==>
              && Accepted(answers[used - 1]) && answers[used - 1].location.Some?
              && outcome.value == Maker.Token(answers[used - 1].location.value)
    ensures outcome.Crashed? ==>
              || (answers[used - 1].CreateRaised? && outcome.error == RequestFailed)
              || (Accepted(answers[used - 1]) && answers[used - 1].location.None? && outcome.error == KeyError)
  {
    payload := Maker.Payload(Messages.SubQuery(apiKey, outboundDate, originPlace, destinationPlace, inboundDate), dateText);
    attempts, refreshes, used := 0, 0, 0;
    while true
      invariant used <= |answers|
      invariant attempts == RejectedCount(answers[..used])
      invariant refreshes == Overflow(attempts)
      invariant forall k :: 0 <= k < used ==> Rejected(answers[k])
      decreases |answers| - used
    {
      if used == |answers| {
        return Waiting, payload, attempts, refreshes, used;
      }
      var a := answers[used];
      assert answers[..used + 1][..used] == answers[..used];
      used := used + 1;
      match a
      case CreateRaised =>
        return Crashed(RequestFailed), payload, attempts, refreshes, used;
      case CreateAnswered(text, location) =>
        if text == "{}" {
          if location.None? {
            return Crashed(KeyError), payload, attempts, refreshes, used;
          }
          return Done(Maker.Token(location.value)), payload, attempts, refreshes, used;
        }
        attempts := attempts + 1;
        if attempts > ApiMaxErrors {
          refreshes := refreshes + 1;
        }
    }
  }

  /** `fill_data`, fed the gateway's answers in order: polls until `Status` is
      `UpdatesComplete`; every parsed answer is counted, never reset; a transport
      exception, or a body that is not JSON, escapes before it is counted. */
  method FillData(answers: seq<PollAnswer>) returns (outcome: LoopEnd<Session>, attempts: nat, refreshes: nat, used: nat)
    ensures used <= |answers|
    ensures attempts == AnsweredCount(answers[..used])
    ensures refreshes == Overflow(attempts)
    ensures outcome.Waiting? ==> used == |answers|
    ensures forall k :: 0 <= k < used && (outcome.Waiting? || k < used - 1) ==>
              answers[k].PollAnswered? && !Complete(answers[k])
    ensures !outcome.Waiting? ==> 0 < used
    ensures outcome.Done? ==> Complete(answers[used - 1]) && outcome.value == answers[used - 1].session
    ensures outcome.Crashed? ==>
              || (answers[used - 1].PollRaised? && outcome.error == RequestFailed)
              || (answers[used - 1].PollMalformed? && outcome.error == ValueError)
  {
    attempts, refreshes, used := 0, 0, 0;
    while true
      invariant used <= |answers|
      invariant attempts == AnsweredCount(answers[..used])
      invariant refreshes == Overflow(attempts)
      invariant forall k :: 0 <= k < used ==> answers[k].PollAnswered? && !Complete(answers[k])
      decreases |answers| - used
    {
      if used == |answers| {
        return Waiting, attempts, refreshes, used;
      }
      var a := answers[used];
      assert answers[..used + 1][..used] == answers[..used];
      used := used + 1;
      if a.PollRaised? {
        return Crashed(RequestFailed), attempts, refreshes, used;
      }
      if a.PollMalformed? {
        return Crashed(ValueError), attempts, refreshes, used;
      }
      attempts := attempts + 1;
      if attempts > ApiMaxErrors {
        refreshes := refreshes + 1;
      }
      if Complete(a) {
        return Done(a.session), attempts, refreshes, used;
      }
    }
  }

  /** The counters of the command-line search only grow: after n rejections the
      count is n, where the Maker's would be n mod (API_MAX_ERRORS + 1). */
  lemma {:induction false} CounterNeverResets(answers: seq<CreateAnswer>)
    requires forall k :: 0 <= k < |answers| ==> Rejected(answers[k])
    ensures RejectedCount(answers) == |answers|
    ensures |answers| > ApiMaxErrors ==> Overflow(RejectedCount(answers)) == |answers| - ApiMaxErrors
  {
    if answers != [] {
      CounterNeverResets(answers[..|answers| - 1]);
    }
  }

  /** The sessions of the complete answers, in order. */
  function CompleteSessions(answers: seq<PollAnswer>): seq<Session> {
    if answers == [] then []
    else
      var last := answers[|answers| - 1];
      CompleteSessions(answers[..|answers| - 1]) + (if Complete(last) then [last.session] else [])
  }

  lemma {:induction false} CompleteSessionsAppend(a: seq<PollAnswer>, b: seq<PollAnswer>)
    ensures CompleteSessions(a + b) == CompleteSessions(a) + CompleteSessions(b)
    decreases |b|
  {
    if b != [] {
      var init := b[..|b| - 1];
      assert (a + b)[..|a + b| - 1] == a + init;
      CompleteSessionsAppend(a, init);
    } else {
      assert a + b == a;
    }
  }

  /** The locations of the accepted answers, in order. */
  function AcceptedLocations(answers: seq<CreateAnswer>): seq<Option<string>> {
    if answers == [] then []
    else
      var last := answers[|answers| - 1];
      AcceptedLocations(answers[..|answers| - 1]) + (if Accepted(last) then [last.location] else [])
  }

  lemma {:induction false} AcceptedLocationsAppend(a: seq<CreateAnswer>, b: seq<CreateAnswer>)
    ensures AcceptedLocations(a + b) == AcceptedLocations(a) + AcceptedLocations(b)
    decreases |b|
  {
    if b != [] {
      var init := b[..|b| - 1];
      assert (a + b)[..|a + b| - 1] == a + init;
      AcceptedLocationsAppend(a, init);
    } else {
      assert a + b == a;
    }
  }

  /** No answer before the last one is accepted: the last accepted answer is the only one. */
  lemma {:induction false} OnlyLastAccepted(answers: seq<CreateAnswer>)
    requires |answers| > 0 && Accepted(answers[|answers| - 1])
    requires forall k :: 0 <= k < |answers| - 1 ==> Rejected(answers[k])
    ensures AcceptedLocations(answers) == [answers[|answers| - 1].location]
  {
    NoneAccepted(answers[..|answers| - 1]);
  }

  lemma {:induction false} NoneAccepted(answers: seq<CreateAnswer>)
    requires forall k :: 0 <= k < |answers| ==> Rejected(answers[k])
    ensures AcceptedLocations(answers) == []
  {
    if answers != [] {
      NoneAccepted(answers[..|answers| - 1]);
    }
  }

  lemma {:induction false} OnlyLastComplete(answers: seq<PollAnswer>)
    requires |answers| > 0 && Complete(answers[|answers| - 1])
    requires forall k :: 0 <= k < |answers| - 1 ==> !Complete(answers[k])
    ensures CompleteSessions(answers) == [answers[|answers| - 1].session]
  {
    NoneComplete(answers[..|answers| - 1]);
  }

  lemma {:induction false} NoneComplete(answers: seq<PollAnswer>)
    requires forall k :: 0 <= k < |answers| ==> !Complete(answers[k])
    ensures CompleteSessions(answers) == []
  {
    if answers != [] {
      NoneComplete(answers[..|answers| - 1]);
    }
  }

  /** A row of the output: departure day, stay length for round trips, then the
      best flight's price and carriers. */
  datatype Row = Row(start: Date, days: Option<int>, price: Price, carriers: set<string>)

  /** The sort key `e[1]` / `e[2]`: the price. */
  function RowPrice(r: Row): int {
    r.price
  }

  function RowOf(cell: Cell, b: BestFlight): Row {
    Row(cell.day, cell.stay, b.price, b.carriers)
  }

  /** One row per session whose best flight of `kind` exists, in session order. */
  function Rows(cells: seq<Cell>, found: seq<Found>, kind: LegKind): seq<Row>
    requires |found| == |cells|
  {
    if cells == [] then []
    else
      var n := |cells| - 1;
      Rows(cells[..n], found[..n], kind)
      + (if OfKind(found[n], kind).Some? then [RowOf(cells[n], OfKind(found[n], kind).value)] else [])
  }

  /** Exactly the sessions with a best flight of `kind` give a row, carrying that
      session's day, stay, price and carriers. */
  lemma {:induction false} RowsAreTheFoundFlights(cells: seq<Cell>, found: seq<Found>, kind: LegKind)
    requires |found| == |cells|
    ensures forall r :: r in Rows(cells, found, kind) <==>
              exists k :: 0 <= k < |cells| && OfKind(found[k], kind).Some? && r == RowOf(cells[k], OfKind(found[k], kind).value)
    ensures |Rows(cells, found, kind)| <= |cells|
  {
    if cells != [] {
      var n := |cells| - 1;
      RowsAreTheFoundFlights(cells[..n], found[..n], kind);
      forall r ensures r in Rows(cells, found, kind) <==>
              exists k :: 0 <= k < |cells| && OfKind(found[k], kind).Some? && r == RowOf(cells[k], OfKind(found[k], kind).value)
      {
        if exists k :: 0 <= k < |cells| && OfKind(found[k], kind).Some? && r == RowOf(cells[k], OfKind(found[k], kind).value) {
          var k :| 0 <= k < |cells| && OfKind(found[k], kind).Some? && r == RowOf(cells[k], OfKind(found[k], kind).value);
          if k < n {
            assert cells[..n][k] == cells[k] && found[..n][k] == found[k];
          }
        }
        if r in Rows(cells[..n], found[..n], kind) {
          var k :| 0 <= k < n && OfKind(found[..n][k], kind).Some? && r == RowOf(cells[..n][k], OfKind(found[..n][k], kind).value);
          assert cells[..n][k] == cells[k] && found[..n][k] == found[k];
        }
      }
    }
  }

  /** `tokens` are the `Location` tokens of the accepted answers, in order. */
  predicate TokensOf(tokens: seq<string>, locations: seq<Option<string>>) {
    && |tokens| == |locations|
    && forall k :: 0 <= k < |tokens| ==> locations[k].Some? && tokens[k] == Maker.Token(locations[k].value)
  }

  /** `found` are the best pairs of the completed sessions, in order. */
  predicate FoundOf(found: seq<Found>, sessions: seq<Session>) {
    && |found| == |sessions|
    && forall k :: 0 <= k < |found| ==> BestPair(sessions[k]) == Success(found[k])
  }

  /** A chunk of answers ending in its first accepted one adds exactly its location. */
  lemma ChunkAccepts(done: seq<CreateAnswer>, rest: seq<CreateAnswer>, u: nat)
    requires 0 < u <= |rest| && Accepted(rest[u - 1])
    requires forall k :: 0 <= k < u - 1 ==> Rejected(rest[k])
    ensures AcceptedLocations(done + rest[..u]) == AcceptedLocations(done) + [rest[u - 1].location]
  {
    AcceptedLocationsAppend(done, rest[..u]);
    OnlyLastAccepted(rest[..u]);
  }

  lemma TokensOfAppend(tokens: seq<string>, locations: seq<Option<string>>, token: string, location: string)
    requires TokensOf(tokens, locations) && token == Maker.Token(location)
    ensures TokensOf(tokens + [token], locations + [Some(location)])
  {
  }

  /** A chunk of answers ending in its first complete one adds exactly that session. */
  lemma ChunkCompletes(done: seq<PollAnswer>, rest: seq<PollAnswer>, u: nat)
    requires 0 < u <= |rest| && Complete(rest[u - 1])
    requires forall k :: 0 <= k < u - 1 ==> rest[k].PollAnswered? && !Complete(rest[k])
    ensures CompleteSessions(done + rest[..u]) == CompleteSessions(done) + [rest[u - 1].session]
  {
    CompleteSessionsAppend(done, rest[..u]);
    OnlyLastComplete(rest[..u]);
  }

  /** One more session created keeps the tokens in step with the accepted answers. */
  lemma CreateAllStep(creates: seq<CreateAnswer>, used: nat, rest: seq<CreateAnswer>, u: nat,
                      tokens: seq<string>, token: string)
    requires used <= |creates| && rest == creates[used..] && 0 < u <= |rest|
    requires TokensOf(tokens, AcceptedLocations(creates[..used]))
    requires Accepted(rest[u - 1]) && rest[u - 1].location.Some? && token == Maker.Token(rest[u - 1].location.value)
    requires forall k :: 0 <= k < u - 1 ==> Rejected(rest[k])
    requires CleanCreates(creates[..used])
    ensures TokensOf(tokens + [token], AcceptedLocations(creates[..used + u]))
    ensures CleanCreates(creates[..used + u]) && creates[used + u - 1] == rest[u - 1]
  {
    CreatesRejectedRun(creates, used, rest, u - 1);
    assert creates[..used + u][..used + u - 1] == creates[..used + u - 1];
    assert creates[..used + u] == creates[..used] + rest[..u];
    ChunkAccepts(creates[..used], rest, u);
    TokensOfAppend(tokens, AcceptedLocations(creates[..used]), token, rest[u - 1].location.value);
  }

  /** One more session polled adds exactly its completed answer's session. */
  lemma PollAllStep(polls: seq<PollAnswer>, used: nat, rest: seq<PollAnswer>, u: nat)
    requires used <= |polls| && rest == polls[used..] && 0 < u <= |rest|
    requires Complete(rest[u - 1])
    requires forall k :: 0 <= k < u - 1 ==> rest[k].PollAnswered? && !Complete(rest[k])
    ensures CompleteSessions(polls[..used + u]) == CompleteSessions(polls[..used]) + [rest[u - 1].session]
  {
    assert polls[..used + u] == polls[..used] + rest[..u];
    ChunkCompletes(polls[..used], rest, u);
  }

  /** One more session polled to a best pair keeps the found pairs in step with
      the completed answers. */
  lemma PollAllAdvance(polls: seq<PollAnswer>, used: nat, rest: seq<PollAnswer>, u: nat,
                       found: seq<Found>, f: Found)
    requires used <= |polls| && rest == polls[used..] && 0 < u <= |rest|
    requires Complete(rest[u - 1]) && BestPair(rest[u - 1].session) == Success(f)
    requires forall k :: 0 <= k < u - 1 ==> rest[k].PollAnswered? && !Complete(rest[k])
    requires FoundOf(found, CompleteSessions(polls[..used])) && ParsedPolls(polls[..used])
    ensures FoundOf(found + [f], CompleteSessions(polls[..used + u]))
    ensures ParsedPolls(polls[..used + u]) && polls[used + u - 1] == rest[u - 1]
  {
    PollsParsedStep(polls, used, rest, u);
    PollAllStep(polls, used, rest, u);
    var sessions := CompleteSessions(polls[..used]);
    var session := rest[u - 1].session;
    forall k | 0 <= k < |found| + 1
      ensures BestPair((sessions + [session])[k]) == Success((found + [f])[k])
    {
      if k < |found| {
        assert (sessions + [session])[k] == sessions[k] && (found + [f])[k] == found[k];
      }
    }
  }

  /** A chunk of answers ending in its first complete one keeps the answers parsed. */
  lemma PollsParsedStep(polls: seq<PollAnswer>, used: nat, rest: seq<PollAnswer>, u: nat)
    requires used <= |polls| && rest == polls[used..] && 0 < u <= |rest| && ParsedPolls(polls[..used])
    requires Complete(rest[u - 1])
    requires forall k :: 0 <= k < u - 1 ==> rest[k].PollAnswered? && !Complete(rest[k])
    ensures ParsedPolls(polls[..used + u]) && polls[used + u - 1] == rest[u - 1]
  {
    PollsPendingRun(polls, used, rest, u - 1);
    assert polls[..used + u] == polls[..used + u - 1] + [rest[u - 1]];
  }

  /** No create answer raised, and every accepted one carries a `Location`. */
  predicate CleanCreates(creates: seq<CreateAnswer>) {
    creates == [] ||
    var last := creates[|creates| - 1];
    && CleanCreates(creates[..|creates| - 1])
    && last.CreateAnswered?
    && (Accepted(last) ==> last.location.Some?)
  }

  /** `CleanCreates` answer by answer. */
  lemma {:induction false} CleanCreatesMeans(creates: seq<CreateAnswer>)
    ensures CleanCreates(creates) <==>
              && (forall k :: 0 <= k < |creates| ==> creates[k].CreateAnswered?)
              && (forall k :: 0 <= k < |creates| && Accepted(creates[k]) ==> creates[k].location.Some?)
  {
    if creates != [] {
      var init := creates[..|creates| - 1];
      CleanCreatesMeans(init);
      assert forall k :: 0 <= k < |init| ==> init[k] == creates[k];
    }
  }

  lemma {:induction false} CleanCreatesAppend(a: seq<CreateAnswer>, b: seq<CreateAnswer>)
    requires CleanCreates(a) && CleanCreates(b)
    ensures CleanCreates(a + b)
    decreases |b|
  {
    if b != [] {
      var init := b[..|b| - 1];
      assert (a + b)[..|a + b| - 1] == a + init;
      CleanCreatesAppend(a, init);
    } else {
      assert a + b == a;
    }
  }

  lemma {:induction false} RejectedCreatesClean(creates: seq<CreateAnswer>)
    requires forall k :: 0 <= k < |creates| ==> Rejected(creates[k])
    ensures CleanCreates(creates)
  {
    if creates != [] {
      RejectedCreatesClean(creates[..|creates| - 1]);
    }
  }

  /** The first loop, creating `n` sessions, escapes with `e` at answer `c - 1`:
      every earlier answer was clean and fewer than `n` were accepted, and that
      answer raised, or was accepted without a `Location`. */
  predicate CreatesCrashAt(creates: seq<CreateAnswer>, n: nat, c: int, e: Error) {
    && 0 < c <= |creates|
    && CleanCreates(creates[..c - 1])
    && |AcceptedLocations(creates[..c - 1])| < n
    && (|| (creates[c - 1].CreateRaised? && e == RequestFailed)
        || (Accepted(creates[c - 1]) && creates[c - 1].location.None? && e == KeyError))
  }

  /** A run of rejected answers after a clean prefix keeps it clean and accepts nothing. */
  lemma CreatesRejectedRun(creates: seq<CreateAnswer>, used: nat, rest: seq<CreateAnswer>, m: nat)
    requires used <= |creates| && rest == creates[used..] && m <= |rest| && CleanCreates(creates[..used])
    requires forall k :: 0 <= k < m ==> Rejected(rest[k])
    ensures CleanCreates(creates[..used + m])
    ensures AcceptedLocations(creates[..used + m]) == AcceptedLocations(creates[..used])
  {
    var run := rest[..m];
    assert creates[..used + m] == creates[..used] + run;
    AcceptedLocationsAppend(creates[..used], run);
    NoneAccepted(run);
    RejectedCreatesClean(run);
    CleanCreatesAppend(creates[..used], run);
  }

  /** A `create_session` that runs out of answers after `used`: every answer left
      was rejected, so the answers stay clean and accept nothing more. */
  lemma CreateNextWaits(creates: seq<CreateAnswer>, used: nat)
    requires used <= |creates| && CleanCreates(creates[..used])
    requires forall k :: used <= k < |creates| ==> Rejected(creates[k])
    ensures CleanCreates(creates) && AcceptedLocations(creates) == AcceptedLocations(creates[..used])
  {
    var rest := creates[used..];
    CreatesRejectedRun(creates, used, rest, |rest|);
    assert creates[..used + |rest|] == creates;
  }

  /** A `create_session` that escapes at answer `used + u - 1`: the answers before
      it were rejected, so the loop stops there. */
  lemma CreateNextCrashes(creates: seq<CreateAnswer>, used: nat, u: nat, n: nat, e: Error)
    requires 0 < u && used + u <= |creates|
    requires CleanCreates(creates[..used]) && |AcceptedLocations(creates[..used])| < n
    requires forall k :: used <= k < used + u - 1 ==> Rejected(creates[k])
    requires || (creates[used + u - 1].CreateRaised? && e == RequestFailed)
             || (Accepted(creates[used + u - 1]) && creates[used + u - 1].location.None? && e == KeyError)
    ensures CreatesCrashAt(creates, n, used + u, e)
    ensures AcceptedLocations(creates[..used + u - 1]) == AcceptedLocations(creates[..used])
  {
    var rest := creates[used..];
    CreatesRejectedRun(creates, used, rest, u - 1);
  }

  /** One turn of the first loop: `create_session` for the next cell on the
      answers left after `used`. */
  method CreateNext(cells: seq<Cell>, apiKey: string, origin: string, destination: string,
                    dateText: Date -> string, creates: seq<CreateAnswer>, used: nat, tokens: seq<string>)
    returns (outcome: LoopEnd<string>, payload: string, u: nat)
    requires |tokens| < |cells| && used <= |creates|
    requires TokensOf(tokens, AcceptedLocations(creates[..used])) && CleanCreates(creates[..used])
    ensures used + u <= |creates|
    ensures payload == Maker.Payload(SessionForm(apiKey, origin, destination, cells[|tokens|]), dateText)
    ensures outcome.Done? ==>
              && 0 < u && Accepted(creates[used + u - 1])
              && TokensOf(tokens + [outcome.value], AcceptedLocations(creates[..used + u]))
              && CleanCreates(creates[..used + u])
    ensures outcome.Waiting? ==>
              && used + u == |creates| && CleanCreates(creates)
              && AcceptedLocations(creates) == AcceptedLocations(creates[..used])
    ensures outcome.Crashed? ==>
              && CreatesCrashAt(creates, |cells|, used + u, outcome.error)
              && AcceptedLocations(creates[..used + u - 1]) == AcceptedLocations(creates[..used])
  {
    var cell := cells[|tokens|];
    var rest := creates[used..];
    var o, form, _, _, n := CreateSession(apiKey, cell.day, ReturnDate(cell), origin, destination, dateText, rest);
    outcome, payload, u := o, form, n;
    if outcome.Done? {
      CreateAllStep(creates, used, rest, u, tokens, outcome.value);
    } else if outcome.Waiting? {
      assert forall k :: used <= k < |creates| ==> creates[k] == rest[k - used];
      CreateNextWaits(creates, used);
    } else {
      assert forall k :: used <= k < used + u ==> creates[k] == rest[k - used];
      CreateNextCrashes(creates, used, u, |cells|, outcome.error);
    }
  }

  /** The first loop of the searches: `create_session` once per cell, in order,
      each call consuming the answers the previous one left. `payloads` are the
      forms sent, one per call made. */
  method CreateAll(cells: seq<Cell>, apiKey: string, origin: string, destination: string,
                   dateText: Date -> string, creates: seq<CreateAnswer>)
    returns (outcome: LoopEnd<seq<string>>, payloads: seq<string>, used: nat)
    ensures used <= |creates| && |payloads| <= |cells|
    ensures forall k :: 0 <= k < |payloads| ==>
              payloads[k] == Maker.Payload(SessionForm(apiKey, origin, destination, cells[k]), dateText)
    ensures outcome.Done? ==>
              && |outcome.value| == |cells| && |payloads| == |cells|
              && TokensOf(outcome.value, AcceptedLocations(creates[..used]))
              && CleanCreates(creates[..used])
              && (used == 0 || Accepted(creates[used - 1]))
    ensures outcome.Waiting? ==>
              && used == |creates| && CleanCreates(creates)
              && |AcceptedLocations(creates)| < |cells|
              && |payloads| == |AcceptedLocations(creates)| + 1
    ensures outcome.Crashed? ==>
              && CreatesCrashAt(creates, |cells|, used, outcome.error)
              && |payloads| == |AcceptedLocations(creates[..used - 1])| + 1
  {
    var tokens: seq<string> := [];
    payloads, used := [], 0;
    assert creates[..used] == [];
    while |tokens| < |cells|
      invariant used <= |creates| && |tokens| <= |cells| && |payloads| == |tokens|
      invariant forall k :: 0 <= k < |payloads| ==>
                  payloads[k] == Maker.Payload(SessionForm(apiKey, origin, destination, cells[k]), dateText)
      invariant TokensOf(tokens, AcceptedLocations(creates[..used])) && CleanCreates(creates[..used])
      invariant used == 0 || Accepted(creates[used - 1])
      decreases |cells| - |tokens|
    {
      var o, payload, u := CreateNext(cells, apiKey, origin, destination, dateText, creates, used, tokens);
      payloads := payloads + [payload];
      if o.Waiting? {
        return Waiting, payloads, used + u;
      } else if o.Crashed? {
        return Crashed(o.error), payloads, used + u;
      }
      used := used + u;
      tokens := tokens + [o.value];
    }
    outcome := Done(tokens);
  }

  /** `poll_results`: poll one session to completion, then the best direct flight
      and the best flight with stops of the completed answer; an unknown carrier id
      raises `KeyError`. */
  method PollSessionResults(answers: seq<PollAnswer>) returns (outcome: LoopEnd<Found>, used: nat)
    ensures used <= |answers|
    ensures outcome.Waiting? ==> used == |answers|
    ensures forall k :: 0 <= k < used && (outcome.Waiting? || k < used - 1) ==>
              answers[k].PollAnswered? && !Complete(answers[k])
    ensures outcome.Done? ==> 0 < used && Complete(answers[used - 1])
                              && BestPair(answers[used - 1].session) == Success(outcome.value)
    ensures outcome.Crashed? ==>
              && 0 < used
              && (|| (answers[used - 1].PollRaised? && outcome.error == RequestFailed)
                  || (answers[used - 1].PollMalformed? && outcome.error == ValueError)
                  || (Complete(answers[used - 1]) && BestPair(answers[used - 1].session) == Failure(KeyError)
                      && outcome.error == KeyError))
  {
    var o, _, _, u := FillData(answers);
    used := u;
    if !o.Done? {
      return (if o.Waiting? then Waiting else Crashed(o.error)), used;
    }
    var pair := PollResults(o.value);
    if pair.Failure? {
      assert pair.error == KeyError;
      return Crashed(pair.error), used;
    }
    outcome := Done(pair.value);
  }

  /** Every poll answer was a parsed reply: none raised, none was malformed. */
  predicate ParsedPolls(polls: seq<PollAnswer>) {
    forall k :: 0 <= k < |polls| ==> polls[k].PollAnswered?
  }

  /** The second loop escapes with `e` at answer `p - 1`, having found `found`:
      every earlier answer parsed and `found` are the best pairs of the complete
      ones, and that answer raised, was not JSON, or completed with an unknown
      carrier id. */
  predicate PollsCrashAt(polls: seq<PollAnswer>, found: seq<Found>, p: int, e: Error) {
    && 0 < p <= |polls|
    && ParsedPolls(polls[..p - 1])
    && FoundOf(found, CompleteSessions(polls[..p - 1]))
    && (|| (polls[p - 1].PollRaised? && e == RequestFailed)
        || (polls[p - 1].PollMalformed? && e == ValueError)
        || (Complete(polls[p - 1]) && BestPair(polls[p - 1].session) == Failure(KeyError) && e == KeyError))
  }

  /** A run of parsed incomplete answers after a parsed prefix keeps it parsed
      and completes nothing. */
  lemma PollsPendingRun(polls: seq<PollAnswer>, used: nat, rest: seq<PollAnswer>, m: nat)
    requires used <= |polls| && rest == polls[used..] && m <= |rest| && ParsedPolls(polls[..used])
    requires forall k :: 0 <= k < m ==> rest[k].PollAnswered? && !Complete(rest[k])
    ensures ParsedPolls(polls[..used + m])
    ensures CompleteSessions(polls[..used + m]) == CompleteSessions(polls[..used])
  {
    var run := rest[..m];
    assert polls[..used + m] == polls[..used] + run;
    CompleteSessionsAppend(polls[..used], run);
    NoneComplete(run);
  }

  /** A `poll_results` that runs out of answers after `used`: every answer left
      parsed and none completed, so the pairs found so far are still all of them. */
  lemma PollNextWaits(polls: seq<PollAnswer>, used: nat, found: seq<Found>)
    requires used <= |polls| && ParsedPolls(polls[..used]) && FoundOf(found, CompleteSessions(polls[..used]))
    requires forall k :: used <= k < |polls| ==> polls[k].PollAnswered? && !Complete(polls[k])
    ensures ParsedPolls(polls) && FoundOf(found, CompleteSessions(polls))
  {
    var rest := polls[used..];
    PollsPendingRun(polls, used, rest, |rest|);
    assert polls[..used + |rest|] == polls;
    assert CompleteSessions(polls) == CompleteSessions(polls[..used]);
  }

  /** A `poll_results` that escapes at answer `used + u - 1`: the answers before it
      parsed and completed nothing, so the loop stops there with the pairs found so far. */
  lemma PollNextCrashes(polls: seq<PollAnswer>, used: nat, u: nat, found: seq<Found>, e: Error)
    requires 0 < u && used + u <= |polls|
    requires ParsedPolls(polls[..used]) && FoundOf(found, CompleteSessions(polls[..used]))
    requires forall k :: used <= k < used + u - 1 ==> polls[k].PollAnswered? && !Complete(polls[k])
    requires || (polls[used + u - 1].PollRaised? && e == RequestFailed)
             || (polls[used + u - 1].PollMalformed? && e == ValueError)
             || (Complete(polls[used + u - 1]) && BestPair(polls[used + u - 1].session) == Failure(KeyError) && e == KeyError)
    ensures PollsCrashAt(polls, found, used + u, e)
  {
    var rest := polls[used..];
    PollsPendingRun(polls, used, rest, u - 1);
    assert CompleteSessions(polls[..used + u - 1]) == CompleteSessions(polls[..used]);
  }

  /** One turn of the second loop: `poll_results` on the answers left after `used`. */
  method PollNext(polls: seq<PollAnswer>, used: nat, found: seq<Found>) returns (outcome: LoopEnd<Found>, u: nat)
    requires used <= |polls| && FoundOf(found, CompleteSessions(polls[..used])) && ParsedPolls(polls[..used])
    ensures used + u <= |polls|
    ensures outcome.Done? ==>
              && 0 < u && Complete(polls[used + u - 1])
              && FoundOf(found + [outcome.value], CompleteSessions(polls[..used + u]))
              && ParsedPolls(polls[..used + u])
    ensures outcome.Waiting? ==>
              && used + u == |polls| && ParsedPolls(polls)
              && FoundOf(found, CompleteSessions(polls))
    ensures outcome.Crashed? ==> PollsCrashAt(polls, found, used + u, outcome.error)
  {
    var rest := polls[used..];
    outcome, u := PollSessionResults(rest);
    if outcome.Done? {
      PollAllAdvance(polls, used, rest, u, found, outcome.value);
    } else if outcome.Waiting? {
      assert forall k :: used <= k < |polls| ==> polls[k] == rest[k - used];
      PollNextWaits(polls, used, found);
    } else {
      assert forall k :: used <= k < used + u ==> polls[k] == rest[k - used];
      PollNextCrashes(polls, used, u, found, outcome.error);
    }
  }

  /** The second loop of the searches: `poll_results` once per session, each
      `fill_data` consuming the answers the previous one left. */
  method PollAll(n: nat, polls: seq<PollAnswer>) returns (outcome: LoopEnd<seq<Found>>, found: seq<Found>, used: nat)
    ensures used <= |polls| && |found| <= n
    ensures outcome.Done? ==>
              && outcome.value == found && |found| == n
              && FoundOf(found, CompleteSessions(polls[..used])) && ParsedPolls(polls[..used])
              && (used == 0 || Complete(polls[used - 1]))
    ensures outcome.Waiting? ==>
              && used == |polls| && ParsedPolls(polls)
              && FoundOf(found, CompleteSessions(polls)) && |found| < n
    ensures outcome.Crashed? ==> PollsCrashAt(polls, found, used, outcome.error) && |found| < n
  {
    found, used := [], 0;
    assert polls[..used] == [];
    while |found| < n
      invariant used <= |polls| && |found| <= n
      invariant FoundOf(found, CompleteSessions(polls[..used])) && ParsedPolls(polls[..used])
      invariant used == 0 || Complete(polls[used - 1])
      decreases n - |found|
    {
      var o, u := PollNext(polls, used, found);
      if o.Waiting? {
        return Waiting, found, used + u;
      } else if o.Crashed? {
        return Crashed(o.error), found, used + u;
      }
      used := used + u;
      found := found + [o.value];
    }
    outcome := Done(found);
  }

  /** The first loop created all `n` sessions cleanly within the first `c` answers. */
  predicate CreatesDone(creates: seq<CreateAnswer>, c: int, n: nat) {
    && 0 <= c <= |creates|
    && CleanCreates(creates[..c])
    && |AcceptedLocations(creates[..c])| == n
  }

  /** `search_one_way` (`stays` is `OneWay`) and `search_round_trip` (`stays` is
      `RoundTrip(min_days, max_days)`): one session per cell of the matrix, created
      in day-major order, then each polled in turn; the two row lists sorted by
      price, stably. `creates` and `polls` are the gateway's answers in order;
      `payloads` are the forms sent, and `created` and `polled` count the answers
      each loop consumed. */
  method Search(apiKey: string, origin: string, destination: string, dateText: Date -> string,
                start: Date, end: Date, stays: Stays, creates: seq<CreateAnswer>, polls: seq<PollAnswer>)
    returns (outcome: LoopEnd<(seq<Row>, seq<Row>)>, payloads: seq<string>, tokens: seq<string>, found: seq<Found>,
             created: nat, polled: nat)
    ensures created <= |creates| && polled <= |polls| && |payloads| <= |Cells(start, end, stays)|
    ensures payloads <= Forms(apiKey, origin, destination, dateText, Cells(start, end, stays))
    ensures outcome.Done? ==>
              && CreatesDone(creates, created, |Cells(start, end, stays)|)
              && TokensOf(tokens, AcceptedLocations(creates[..created]))
              && FoundOf(found, CompleteSessions(polls[..polled])) && ParsedPolls(polls[..polled])
              && (polled == 0 || Complete(polls[polled - 1]))
    ensures outcome.Done? ==>
              && |payloads| == |tokens| == |Cells(start, end, stays)| && |found| == |tokens|
              && outcome.value.0 == SortBy(Rows(Cells(start, end, stays), found, Direct), RowPrice)
              && outcome.value.1 == SortBy(Rows(Cells(start, end, stays), found, WithStops), RowPrice)
    ensures outcome.Waiting? ==>
              || (&& created == |creates| && CleanCreates(creates[..created])
                  && |AcceptedLocations(creates[..created])| < |Cells(start, end, stays)|)
              || (&& CreatesDone(creates, created, |Cells(start, end, stays)|)
                  && polled == |polls| && ParsedPolls(polls[..polled]) && FoundOf(found, CompleteSessions(polls[..polled]))
                  && |found| < |Cells(start, end, stays)|)
    ensures outcome.Crashed? ==>
              || CreatesCrashAt(creates, |Cells(start, end, stays)|, created, outcome.error)
              || (&& CreatesDone(creates, created, |Cells(start, end, stays)|)
                  && PollsCrashAt(polls, found, polled, outcome.error) && |found| < |Cells(start, end, stays)|)
  {
    var cells := Cells(start, end, stays);
    tokens, found, polled := [], [], 0;
    assert creates[..|creates|] == creates && polls[..|polls|] == polls;
    var made;
    made, payloads, created := CreateAll(cells, apiKey, origin, destination, dateText, creates);
    FormsPrefix(apiKey, origin, destination, dateText, cells, payloads);
    if made.Waiting? {
      return Waiting, payloads, tokens, found, created, polled;
    } else if made.Crashed? {
      return Crashed(made.error), payloads, tokens, found, created, polled;
    }
    tokens := made.value;
    var answered;
    answered, found, polled := PollAll(|tokens|, polls);
    if answered.Waiting? {
      return Waiting, payloads, tokens, found, created, polled;
    } else if answered.Crashed? {
      return Crashed(answered.error), payloads, tokens, found, created, polled;
    }
    outcome := Done((SortBy(Rows(cells, found, Direct), RowPrice), SortBy(Rows(cells, found, WithStops), RowPrice)));
  }

  /** The output lists are sorted by price, hold exactly the rows of the sessions
      with a best flight, and keep equal prices in session order: departure day,
      then stay length. */
  lemma SearchOutput(start: Date, end: Date, stays: Stays, found: seq<Found>, kind: LegKind)
    requires |found| == |Cells(start, end, stays)|
    ensures var out := SortBy(Rows(Cells(start, end, stays), found, kind), RowPrice);
            && SortedBy(out, RowPrice)
            && multiset(out) == multiset(Rows(Cells(start, end, stays), found, kind))
            && forall p :: WithKey(out, RowPrice, p) == WithKey(Rows(Cells(start, end, stays), found, kind), RowPrice, p)
  {
  }
}
