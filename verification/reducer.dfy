/** The best-flight reducer shared by the Poller worker and the sequential
    search: the cheapest pricing option over the itineraries whose legs all
    belong to one partition, and the carriers of that itinerary. */
module Reducer {
  import opened Wrappers

  type LegId = string
  type Price = int

  /** Leg id to the names of the leg's carriers, in leg order
      (`direct_flights` or `stops_flights`). */
  type LegMap = map<LegId, seq<string>>

  datatype Itinerary = Itinerary(outboundLegId: LegId, inboundLegId: Option<LegId>, pricingOptions: seq<Price>)

  /** `(price, airlines)`: the winning price and the carrier names of its itinerary. */
  datatype BestFlight = BestFlight(price: Price, carriers: set<string>)

  /** The inbound leg as the reducer sees it: `in_id` is tested for truthiness,
      so an absent or empty id means there is no inbound leg. */
  function InboundLeg(it: Itinerary): Option<LegId> {
    match it.inboundLegId
    case Some(id) => if id == "" then None else Some(id)
    case None => None
  }

  /** The itinerary is not skipped: its outbound leg, and its inbound leg if any, are in the map. */
  predicate Qualifies(it: Itinerary, flights: LegMap) {
    it.outboundLegId in flights && (InboundLeg(it).Some? ==> InboundLeg(it).value in flights)
  }

  /** Union of the outbound leg's carriers and the inbound leg's carriers. */
  function Carriers(it: Itinerary, flights: LegMap): set<string>
    requires Qualifies(it, flights)
  {
    (set c | c in flights[it.outboundLegId])
    + (if InboundLeg(it).Some? then set c | c in flights[InboundLeg(it).value] else {})
  }

  /** The candidate answers an itinerary contributes: one per pricing option, in order,
      or none when it is skipped. */
  function Offers(it: Itinerary, flights: LegMap): seq<BestFlight> {
    if Qualifies(it, flights)
    then seq(|it.pricingOptions|, j requires 0 <= j < |it.pricingOptions| =>
               BestFlight(it.pricingOptions[j], Carriers(it, flights)))
    else []
  }

  /** Every candidate of every itinerary, in the order the loops visit them. */
  function Candidates(its: seq<Itinerary>, flights: LegMap): seq<BestFlight> {
    if its == [] then [] else Candidates(its[..|its| - 1], flights) + Offers(its[|its| - 1], flights)
  }

  /** One step of the fold: a strictly cheaper offer replaces the best so far. */
  function Improve(best: Option<BestFlight>, offer: BestFlight): Option<BestFlight> {
    if best.None? || offer.price < best.value.price then Some(offer) else best
  }

  /** The fold over a candidate list, from `None`. */
  function Scan(cs: seq<BestFlight>): Option<BestFlight> {
    if cs == [] then None else Improve(Scan(cs[..|cs| - 1]), cs[|cs| - 1])
  }

  /** `cs[k]` has the least price of `cs` and every earlier candidate is dearer. */
  predicate FirstCheapest(cs: seq<BestFlight>, k: int) {
    && 0 <= k < |cs|
    && (forall j :: 0 <= j < |cs| ==> cs[k].price <= cs[j].price)
    && (forall j :: 0 <= j < k ==> cs[k].price < cs[j].price)
  }

  /** The fold finds nothing on an empty list and otherwise the first candidate of least price. */
  lemma {:induction false} ScanFindsFirstCheapest(cs: seq<BestFlight>)
    ensures Scan(cs).None? <==> cs == []
    ensures Scan(cs).Some? ==> exists k :: FirstCheapest(cs, k) && Scan(cs).value == cs[k]
  {
    if cs != [] {
      var init := cs[..|cs| - 1];
      var last := cs[|cs| - 1];
      assert cs == init + [last];
      assert Scan(cs) == Improve(Scan(init), last);
      ScanFindsFirstCheapest(init);
      if init == [] {
        assert FirstCheapest(cs, 0);
      } else {
        var k :| FirstCheapest(init, k) && Scan(init).value == init[k];
        ImproveKeepsFirstCheapest(init, last, k);
      }
    }
  }

  lemma ImproveKeepsFirstCheapest(init: seq<BestFlight>, last: BestFlight, k: int)
    requires FirstCheapest(init, k)
    ensures var cs := init + [last];
            var r := Improve(Some(init[k]), last);
            r.Some? && (if last.price < init[k].price then FirstCheapest(cs, |init|) && r.value == cs[|init|]
                        else FirstCheapest(cs, k) && r.value == cs[k])
  {
    var cs := init + [last];
    if last.price < init[k].price {
      assert FirstCheapest(cs, |init|);
    } else {
      assert FirstCheapest(cs, k);
    }
  }

  lemma ScanOneMore(done: seq<BestFlight>, offers: seq<BestFlight>, j: int)
    requires 0 <= j < |offers|
    ensures Scan(done + offers[..j + 1]) == Improve(Scan(done + offers[..j]), offers[j])
  {
    var cs := done + offers[..j + 1];
    assert cs[..|cs| - 1] == done + offers[..j];
    assert cs[|cs| - 1] == offers[j];
  }

  /** The inner loop of `_get_best_flight`: each pricing option of a qualifying
      itinerary that is strictly cheaper than the best so far replaces it, with the
      itinerary's carriers. */
  method ImproveWithOptions(best: Option<BestFlight>, it: Itinerary, flights: LegMap, ghost done: seq<BestFlight>)
    returns (r: Option<BestFlight>)
    requires Qualifies(it, flights) && best == Scan(done)
    ensures r == Scan(done + Offers(it, flights))
  {
    var offers := Offers(it, flights);
    r := best;
    var j := 0;
    assert done + offers[..0] == done;
    while j < |it.pricingOptions|
      invariant 0 <= j <= |it.pricingOptions|
      invariant r == Scan(done + offers[..j])
    {
      var p := it.pricingOptions[j];
      ScanOneMore(done, offers, j);
      assert offers[j] == BestFlight(p, Carriers(it, flights));
      if r.None? || p < r.value.price {
        r := Some(BestFlight(p, Carriers(it, flights)));
      }
      j := j + 1;
    }
    assert offers[..j] == offers;
  }

  /** `_get_best_flight(itineraries, flights)`: the outer loop skips itineraries
      whose legs are not in the map. */
  method GetBestFlight(itineraries: seq<Itinerary>, flights: LegMap) returns (best: Option<BestFlight>)
    ensures best == Scan(Candidates(itineraries, flights))
    ensures best.None? <==> Candidates(itineraries, flights) == []
    ensures best.Some? ==> exists k :: FirstCheapest(Candidates(itineraries, flights), k)
                                      && best.value == Candidates(itineraries, flights)[k]
  {
    best := None;
    var i := 0;
    while i < |itineraries|
      invariant 0 <= i <= |itineraries|
      invariant best == Scan(Candidates(itineraries[..i], flights))
    {
      var it := itineraries[i];
      ghost var done := Candidates(itineraries[..i], flights);
      assert itineraries[..i + 1][..i] == itineraries[..i];
      assert Candidates(itineraries[..i + 1], flights) == done + Offers(it, flights);
      if Qualifies(it, flights) {
        best := ImproveWithOptions(best, it, flights, done);
      } else {
        assert done + Offers(it, flights) == done;
      }
      i := i + 1;
    }
    assert itineraries[..i] == itineraries;
    ScanFindsFirstCheapest(Candidates(itineraries, flights));
  }

  /** The candidates are exactly the pricing options of the qualifying itineraries,
      each paired with the carriers of its itinerary. */
  lemma {:induction false} CandidatesAreOptions(its: seq<Itinerary>, flights: LegMap)
    ensures forall c :: c in Candidates(its, flights) <==>
              exists i, j :: 0 <= i < |its| && Qualifies(its[i], flights) && 0 <= j < |its[i].pricingOptions|
                             && c == BestFlight(its[i].pricingOptions[j], Carriers(its[i], flights))
  {
    if its != [] {
      var init := its[..|its| - 1];
      var last := its[|its| - 1];
      CandidatesAreOptions(init, flights);
      forall c ensures c in Candidates(its, flights) <==>
              exists i, j :: 0 <= i < |its| && Qualifies(its[i], flights) && 0 <= j < |its[i].pricingOptions|
                             && c == BestFlight(its[i].pricingOptions[j], Carriers(its[i], flights))
      {
        if c in Offers(last, flights) {
          var j :| 0 <= j < |Offers(last, flights)| && Offers(last, flights)[j] == c;
          assert its[|its| - 1] == last;
        }
        if exists i, j :: 0 <= i < |its| && Qualifies(its[i], flights) && 0 <= j < |its[i].pricingOptions|
                          && c == BestFlight(its[i].pricingOptions[j], Carriers(its[i], flights)) {
          var i, j :| 0 <= i < |its| && Qualifies(its[i], flights) && 0 <= j < |its[i].pricingOptions|
                      && c == BestFlight(its[i].pricingOptions[j], Carriers(its[i], flights));
          if i < |its| - 1 {
            assert its[i] == init[i];
          } else {
            assert c == Offers(last, flights)[j];
          }
        }
      }
    }
  }

  /** In the source's own terms: the reducer finds something exactly when some qualifying
      itinerary has a pricing option; then its price is one of those options, no qualifying
      option is cheaper, and its carriers are those of the itinerary it came from. */
  lemma BestIsCheapestOption(its: seq<Itinerary>, flights: LegMap)
    ensures Scan(Candidates(its, flights)).Some? <==>
              exists i :: 0 <= i < |its| && Qualifies(its[i], flights) && |its[i].pricingOptions| > 0
    ensures Scan(Candidates(its, flights)).Some? ==>
              var b := Scan(Candidates(its, flights)).value;
              && (exists i, j :: 0 <= i < |its| && Qualifies(its[i], flights) && 0 <= j < |its[i].pricingOptions|
                                 && b.price == its[i].pricingOptions[j] && b.carriers == Carriers(its[i], flights))
              && (forall i, j :: 0 <= i < |its| && Qualifies(its[i], flights) && 0 <= j < |its[i].pricingOptions|
                                 ==> b.price <= its[i].pricingOptions[j])
  {
    var cs := Candidates(its, flights);
    ScanFindsFirstCheapest(cs);
    CandidatesAreOptions(its, flights);
    if exists i :: 0 <= i < |its| && Qualifies(its[i], flights) && |its[i].pricingOptions| > 0 {
      var i :| 0 <= i < |its| && Qualifies(its[i], flights) && |its[i].pricingOptions| > 0;
      assert BestFlight(its[i].pricingOptions[0], Carriers(its[i], flights)) in cs;
    }
    if cs != [] {
      var b := Scan(cs).value;
      var k :| FirstCheapest(cs, k) && b == cs[k];
      assert cs[k] in cs;
      forall i, j | 0 <= i < |its| && Qualifies(its[i], flights) && 0 <= j < |its[i].pricingOptions|
        ensures b.price <= its[i].pricingOptions[j]
      {
        var c := BestFlight(its[i].pricingOptions[j], Carriers(its[i], flights));
        assert c in cs;
      }
    }
  }

  /** Ties keep the first-seen option: an offer at the current best price changes nothing. */
  lemma TieKeepsFirst(cs: seq<BestFlight>, offer: BestFlight)
    requires Scan(cs).Some? && offer.price == Scan(cs).value.price
    ensures Scan(cs + [offer]) == Scan(cs)
  {
    assert (cs + [offer])[..|cs|] == cs;
  }

  /** Which of the two best flights of a session: through direct legs or legs with stops. */
  datatype LegKind = Direct | WithStops

  /** The best direct flight and the best flight with stops of one session. */
  type Found = (Option<BestFlight>, Option<BestFlight>)

  function OfKind(pair: Found, kind: LegKind): Option<BestFlight> {
    if kind.Direct? then pair.0 else pair.1
  }
}
