/** The records the hotspot search works on.

    In the script latitude, longitude and fares are floats and timestamps are
    the raw text of the CSV column. Latitude, longitude and timestamps are
    only compared, so each becomes an integer that keeps the same equality
    and the same order. Fares also go through subtraction, absolute value,
    modulo and addition in the pattern test, so they are taken to be
    integer-valued. */
module TaxiTypes {

  datatype Option<T> = None | Some(value: T)

  /** One row of the cleaned trip table. */
  datatype Trip = Trip(lat: int, lon: int, ts: int, fare: int, car: string)

  /** A (latitude, longitude) pair: the key of a location group and of the score table. */
  datatype Location = Location(lat: int, lon: int)

  /** The trips sharing one location, in the order the detector scans them. */
  datatype Group = Group(loc: Location, trips: seq<Trip>)

  /** Three fares, in the order of the trips or of a permutation of them. */
  type FareTriple = (int, int, int)

  /** One accepted triple of trips at a location. */
  datatype Cluster = Cluster(
    loc: Location,
    cars: (string, string, string),
    fares: FareTriple,
    originalFares: FareTriple,
    patternFares: FareTriple,
    ts: int,
    signature: int)

  /** The value stored per location by the scoring pass. */
  datatype LocationInfo = LocationInfo(score: int, clusters: seq<Cluster>, earliest: Option<int>)

  /** A group's trips are in timestamp order. */
  predicate SortedByTime(trips: seq<Trip>)
  {
    forall p, q :: 0 <= p < q < |trips| ==> trips[p].ts <= trips[q].ts
  }
}
