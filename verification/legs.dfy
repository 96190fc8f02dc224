/** Turning a completed poll into the two best flights: the carrier-name
    map, the split of legs into direct legs and legs with stops, and the
    reducer run once per partition. */
module Legs {
  import opened Wrappers
  import opened Reducer
  import opened Gateway

  /** No later carrier has the same id as `carriers[i]`. */
  predicate LastWithId(carriers: seq<Carrier>, i: int)
    requires 0 <= i < |carriers|
  {
    forall j :: i < j < |carriers| ==> carriers[j].id != carriers[i].id
  }

  /** `airlines[carrier['Id']] = carrier['Name']` for every carrier in order. */
  function CarrierNames(carriers: seq<Carrier>): (names: map<CarrierId, string>)
    ensures names.Keys == set c | c in carriers :: c.id
    ensures forall i :: 0 <= i < |carriers| && LastWithId(carriers, i) ==> names[carriers[i].id] == carriers[i].name
  {
    if carriers == [] then map[]
    else
      var init := carriers[..|carriers| - 1];
      var last := carriers[|carriers| - 1];
      assert carriers == init + [last];
      assert forall i :: 0 <= i < |init| && LastWithId(carriers, i) ==> LastWithId(init, i);
      CarrierNames(init)[last.id := last.name]
  }

  /** Every carrier id of the leg has a name. */
  predicate Resolvable(leg: Leg, names: map<CarrierId, string>) {
    forall k :: 0 <= k < |leg.carrierIds| ==> leg.carrierIds[k] in names
  }

  /** `tuple(airlines[x] for x in leg['Carriers'])`: a `KeyError` on an unknown carrier id. */
  function LegCarriers(leg: Leg, names: map<CarrierId, string>): (r: Result<seq<string>>)
    ensures r.Success? <==> Resolvable(leg, names)
    ensures r.Success? ==> |r.value| == |leg.carrierIds|
                           && forall k :: 0 <= k < |leg.carrierIds| ==> r.value[k] == names[leg.carrierIds[k]]
  {
    if Resolvable(leg, names)
    then Success(seq(|leg.carrierIds|, k requires 0 <= k < |leg.carrierIds| => names[leg.carrierIds[k]]))
    else Failure(KeyError)
  }

  /** `direct_flights` and `stops_flights`. */
  datatype Partition = Partition(direct: LegMap, withStops: LegMap)

  /** `not leg['Stops']`. */
  predicate IsDirect(leg: Leg) {
    leg.stops == 0
  }

  /** No later leg of the same kind has the same id: its entry is the one that stays. */
  predicate LastOfKind(legs: seq<Leg>, i: int)
    requires 0 <= i < |legs|
  {
    forall j :: i < j < |legs| && legs[j].id == legs[i].id ==> IsDirect(legs[j]) != IsDirect(legs[i])
  }

  /** The map a leg of this kind is entered into. */
  function MapOf(p: Partition, leg: Leg): LegMap {
    if IsDirect(leg) then p.direct else p.withStops
  }

  /** The maps hold exactly the ids of the legs of their kind. */
  ghost predicate KeysOf(legs: seq<Leg>, p: Partition) {
    && (forall id :: id in p.direct <==> exists i :: 0 <= i < |legs| && legs[i].id == id && IsDirect(legs[i]))
    && (forall id :: id in p.withStops <==> exists i :: 0 <= i < |legs| && legs[i].id == id && !IsDirect(legs[i]))
  }

  /** Each id maps to the carrier names of the last leg of its kind with that id. */
  predicate ValuesOf(legs: seq<Leg>, names: map<CarrierId, string>, p: Partition) {
    forall i :: 0 <= i < |legs| && LastOfKind(legs, i) ==>
      && LegCarriers(legs[i], names).Success?
      && legs[i].id in MapOf(p, legs[i])
      && MapOf(p, legs[i])[legs[i].id] == LegCarriers(legs[i], names).value
  }

  /** `p` holds what the loop over `legs` leaves in the two maps. */
  ghost predicate Partitions(legs: seq<Leg>, names: map<CarrierId, string>, p: Partition) {
    KeysOf(legs, p) && ValuesOf(legs, names, p)
  }

  /** One iteration: the leg's names go into the map of its kind. */
  function Place(p: Partition, leg: Leg, flights: seq<string>): Partition {
    if IsDirect(leg) then p.(direct := p.direct[leg.id := flights]) else p.(withStops := p.withStops[leg.id := flights])
  }

  lemma PlaceExtends(legs: seq<Leg>, names: map<CarrierId, string>, p: Partition, flights: seq<string>)
    requires |legs| > 0 && Partitions(legs[..|legs| - 1], names, p)
    requires LegCarriers(legs[|legs| - 1], names) == Success(flights)
    ensures Partitions(legs, names, Place(p, legs[|legs| - 1], flights))
  {
    PlaceKeys(legs, p, flights);
    PlaceValues(legs, names, p, flights);
  }

  lemma PlaceKeys(legs: seq<Leg>, p: Partition, flights: seq<string>)
    requires |legs| > 0 && KeysOf(legs[..|legs| - 1], p)
    ensures KeysOf(legs, Place(p, legs[|legs| - 1], flights))
  {
    var init := legs[..|legs| - 1];
    assert forall i :: 0 <= i < |init| ==> init[i] == legs[i];
  }

  lemma PlaceValues(legs: seq<Leg>, names: map<CarrierId, string>, p: Partition, flights: seq<string>)
    requires |legs| > 0 && ValuesOf(legs[..|legs| - 1], names, p)
    requires LegCarriers(legs[|legs| - 1], names) == Success(flights)
    ensures ValuesOf(legs, names, Place(p, legs[|legs| - 1], flights))
  {
    var init := legs[..|legs| - 1];
    var last := legs[|legs| - 1];
    var q := Place(p, last, flights);
    forall i | 0 <= i < |legs| && LastOfKind(legs, i)
      ensures && LegCarriers(legs[i], names).Success?
              && legs[i].id in MapOf(q, legs[i])
              && MapOf(q, legs[i])[legs[i].id] == LegCarriers(legs[i], names).value
    {
      if i < |init| {
        assert init[i] == legs[i];
        assert LastOfKind(init, i);
        assert legs[i].id != last.id || IsDirect(last) != IsDirect(legs[i]);
      }
    }
  }

  /** Some leg is unresolvable exactly when some earlier leg or the last one is. */
  lemma UnresolvableSplits(legs: seq<Leg>, init: seq<Leg>, names: map<CarrierId, string>)
    requires |legs| > 0 && init == legs[..|legs| - 1]
    ensures (exists i :: 0 <= i < |legs| && !Resolvable(legs[i], names))
            <==> (exists i :: 0 <= i < |init| && !Resolvable(init[i], names)) || !Resolvable(legs[|legs| - 1], names)
  {
    assert forall i :: 0 <= i < |init| ==> init[i] == legs[i];
  }

  /** The loop over `response['Legs']` that fills the two maps; an unknown carrier
      id raises `KeyError`. */
  function PartitionLegs(legs: seq<Leg>, names: map<CarrierId, string>): (r: Result<Partition>)
    ensures r.Failure? <==> exists i :: 0 <= i < |legs| && !Resolvable(legs[i], names)
    ensures r.Failure? ==> r.error == KeyError
    ensures r.Success? ==> Partitions(legs, names, r.value)
  {
    if legs == [] then Success(Partition(map[], map[]))
    else
      var init := legs[..|legs| - 1];
      var last := legs[|legs| - 1];
      UnresolvableSplits(legs, init, names);
      match PartitionLegs(init, names)
      case Failure(e) => Failure(e)
      case Success(p) =>
        match LegCarriers(last, names)
        case Failure(e) => Failure(e)
        case Success(flights) =>
          PlaceExtends(legs, names, p, flights);
          Success(Place(p, last, flights))
  }

  /** With distinct leg ids every leg lands in exactly one of the two maps,
      under its id, with its carrier names in leg order. */
  lemma PartitionSplitsLegs(legs: seq<Leg>, names: map<CarrierId, string>)
    requires forall i, j :: 0 <= i < j < |legs| ==> legs[i].id != legs[j].id
    requires PartitionLegs(legs, names).Success?
    ensures var p := PartitionLegs(legs, names).value;
            forall i :: 0 <= i < |legs| ==>
              && (legs[i].id in p.direct <==> IsDirect(legs[i]))
              && (legs[i].id in p.withStops <==> !IsDirect(legs[i]))
              && (IsDirect(legs[i]) ==> p.direct[legs[i].id] == LegCarriers(legs[i], names).value)
              && (!IsDirect(legs[i]) ==> p.withStops[legs[i].id] == LegCarriers(legs[i], names).value)
  {
    var p := PartitionLegs(legs, names).value;
    forall i | 0 <= i < |legs|
      ensures (legs[i].id in p.direct <==> IsDirect(legs[i]))
      ensures (legs[i].id in p.withStops <==> !IsDirect(legs[i]))
    {
      if legs[i].id in p.direct {
        var j :| 0 <= j < |legs| && legs[j].id == legs[i].id && IsDirect(legs[j]);
        assert i == j;
      }
      if legs[i].id in p.withStops {
        var j :| 0 <= j < |legs| && legs[j].id == legs[i].id && !IsDirect(legs[j]);
        assert i == j;
      }
    }
    assert forall i :: 0 <= i < |legs| ==> LastOfKind(legs, i);
  }

  /** The two best flights of a completed session: the reducer over the direct legs
      and over the legs with stops, as `poll_results` computes them. */
  function BestPair(s: Session): Result<Found> {
    match PartitionLegs(s.legs, CarrierNames(s.carriers))
    case Failure(e) => Failure(e)
    case Success(p) => Success((Scan(Candidates(s.itineraries, p.direct)), Scan(Candidates(s.itineraries, p.withStops))))
  }

  /** `poll_results` and lines 75-88 of `_poll_session`: name map,
      partition, then the reducer loop once per partition. */
  method PollResults(s: Session) returns (r: Result<Found>)
    ensures r == BestPair(s)
    ensures r.Failure? <==> exists i :: 0 <= i < |s.legs| && !Resolvable(s.legs[i], CarrierNames(s.carriers))
  {
    var names := CarrierNames(s.carriers);
    var part := PartitionLegs(s.legs, names);
    if part.Failure? {
      return Failure(part.error);
    }
    var bestDirect := GetBestFlight(s.itineraries, part.value.direct);
    var bestWithStops := GetBestFlight(s.itineraries, part.value.withStops);
    r := Success((bestDirect, bestWithStops));
  }
}
