/**
 * `geocode_addresses` of `address_geocoding.py`: every row that has neither
 * coordinate but has a street address is sent to the geocoding service once,
 * and its coordinates are then set from the answer, or cleared when there is
 * none or the call timed out.
 *
 * The service is a parameter: a function from the position of the call in
 * the run and the query to one of the three outcomes, so that nothing is
 * assumed about it beyond what the loop itself relies on.
 */
module Geocoding {

  import opened Wrappers
  import opened Records

  /** The `timeout=` of every call, in seconds. */
  const TIMEOUT := 10

  /** One call `geolocator.geocode(address, timeout=...)`. */
  datatype GeoQuery = GeoQuery(address: Value, timeout: int)

  /** A location, no location (`None`), or `GeocoderTimedOut`. */
  datatype GeoOutcome = Found(latitude: real, longitude: real) | NotFound | TimedOut

  /** The answer the service gives to the call made `n`-th in the run. */
  type Geocoder = (nat, GeoQuery) -> GeoOutcome

  /** `k not in row or not row[k]`. */
  predicate Missing(row: Row, k: string) {
    k !in Keys(row) || !Truthy(Get(row, k).value)
  }

  /** The condition under which the loop calls the service for a row. */
  predicate NeedsGeocoding(row: Row)
    ensures NeedsGeocoding(row) <==> !Truthy(GetOrNull(row, "latitude")) && !Truthy(GetOrNull(row, "longitude"))
                                     && Truthy(GetOrNull(row, "street_address"))
  {
    Missing(row, "latitude") && Missing(row, "longitude")
    && "street_address" in Keys(row) && Truthy(Get(row, "street_address").value)
  }

  function QueryOf(row: Row): GeoQuery {
    GeoQuery(GetOrNull(row, "street_address"), TIMEOUT)
  }

  /**
   * Writing the answer into the row: both coordinates from a location, both
   * `None` otherwise. No other column is touched.
   */
  function ApplyOutcome(row: Row, outcome: GeoOutcome): (r: Row)
    ensures Keys(r) == Keys(row) + {"latitude", "longitude"}
    ensures Get(r, "latitude") == Some(if outcome.Found? then Float(outcome.latitude) else Null)
    ensures Get(r, "longitude") == Some(if outcome.Found? then Float(outcome.longitude) else Null)
    ensures forall k :: k != "latitude" && k != "longitude" ==> Get(r, k) == Get(row, k)
    ensures DistinctKeys(row) ==> DistinctKeys(r)
  {
    match outcome
    case Found(lat, lon) => Set(Set(row, "latitude", Float(lat)), "longitude", Float(lon))
    case _ => Set(Set(row, "latitude", Null), "longitude", Null)
  }

  /** The calls the loop makes, in row order: one per row that needs one. */
  function Queries(rows: seq<Row>): (r: seq<GeoQuery>)
    ensures |r| <= |rows|
    ensures forall q :: q in r ==> q.timeout == TIMEOUT && Truthy(q.address)
    decreases |rows|
  {
    if rows == [] then []
    else
      var prefix, last := rows[..|rows| - 1], rows[|rows| - 1];
      Queries(prefix) + (if NeedsGeocoding(last) then [QueryOf(last)] else [])
  }

  /** The rows after the loop, when the service answers as `geocoder` says. */
  function GeocodeAll(rows: seq<Row>, geocoder: Geocoder): (r: seq<Row>)
    ensures |r| == |rows|
    decreases |rows|
  {
    if rows == [] then []
    else
      var prefix, last := rows[..|rows| - 1], rows[|rows| - 1];
      var row := if NeedsGeocoding(last) then ApplyOutcome(last, geocoder(|Queries(prefix)|, QueryOf(last))) else last;
      GeocodeAll(prefix, geocoder) + [row]
  }

  /**
   * Row by row: row `i` is geocoded with the answer to the call made after
   * the calls for the rows before it, and any other row is kept as it is.
   */
  lemma {:induction false} GeocodeRow(rows: seq<Row>, geocoder: Geocoder, i: nat)
    requires i < |rows|
    ensures GeocodeAll(rows, geocoder)[i]
            == if NeedsGeocoding(rows[i]) then ApplyOutcome(rows[i], geocoder(|Queries(rows[..i])|, QueryOf(rows[i])))
               else rows[i]
    decreases |rows|
  {
    var prefix := rows[..|rows| - 1];
    if i < |rows| - 1 {
      GeocodeRow(prefix, geocoder, i);
      assert prefix[..i] == rows[..i];
    }
  }

  /** Exactly the rows that need geocoding are sent, each once, in row order. */
  lemma {:induction false} QueriesStep(rows: seq<Row>, i: nat)
    requires i < |rows|
    ensures Queries(rows[..i + 1]) == Queries(rows[..i]) + (if NeedsGeocoding(rows[i]) then [QueryOf(rows[i])] else [])
  {
    assert rows[..i + 1][..i] == rows[..i];
  }

  /** A row that is already located, or has no street address, is never sent and never changed. */
  lemma LocatedRowsUntouched(rows: seq<Row>, geocoder: Geocoder, i: nat)
    requires i < |rows| && !NeedsGeocoding(rows[i])
    ensures GeocodeAll(rows, geocoder)[i] == rows[i]
    ensures Queries(rows[..i + 1]) == Queries(rows[..i])
  {
    GeocodeRow(rows, geocoder, i);
    QueriesStep(rows, i);
  }

  /** Example: an address resolved to (37.4, -122.1) gets those coordinates. */
  lemma AmphitheatreExample(geocoder: Geocoder)
    requires geocoder(0, GeoQuery(Str("1600 Amphitheatre Pkwy"), TIMEOUT)) == Found(37.4, -122.1)
    ensures var r := GeocodeAll([[Field("street_address", Str("1600 Amphitheatre Pkwy"))]], geocoder)[0];
            Get(r, "latitude") == Some(Float(37.4)) && Get(r, "longitude") == Some(Float(-122.1))
            && Get(r, "street_address") == Some(Str("1600 Amphitheatre Pkwy"))
  {
    var row := [Field("street_address", Str("1600 Amphitheatre Pkwy"))];
    assert [row][..0] == [];
    assert Keys(row) == {"street_address"};
    assert NeedsGeocoding(row);
  }

  /**
   * A row whose lookup failed is left with both coordinates empty, so a
   * second run asks the service again; a location away from zero is final.
   */
  lemma FailedRowsRetried(row: Row, outcome: GeoOutcome)
    requires NeedsGeocoding(row)
    ensures !outcome.Found? ==> NeedsGeocoding(ApplyOutcome(row, outcome))
    ensures outcome.Found? && (outcome.latitude != 0.0 || outcome.longitude != 0.0)
            ==> !NeedsGeocoding(ApplyOutcome(row, outcome))
  {
  }

  /** geocode_addresses. */
  method GeocodeAddresses(data: array<Row>, geocoder: Geocoder) returns (queries: seq<GeoQuery>)
    modifies data
    ensures queries == Queries(old(data[..]))
    ensures data[..] == GeocodeAll(old(data[..]), geocoder)
  {
    queries := [];
    for i := 0 to data.Length
      invariant queries == Queries(old(data[..])[..i])
      invariant data[..i] == GeocodeAll(old(data[..])[..i], geocoder)
      invariant forall j :: i <= j < data.Length ==> data[j] == old(data[j])
    {
      assert old(data[..])[..i + 1][..i] == old(data[..])[..i];
      var row := data[i];
      if Missing(row, "latitude") && Missing(row, "longitude") {
        if "street_address" in Keys(row) && Truthy(Get(row, "street_address").value) {
          var query := GeoQuery(Get(row, "street_address").value, TIMEOUT);
          var location := geocoder(|queries|, query);
          queries := queries + [query];
          match location {
            case Found(lat, lon) =>
              row := Set(row, "latitude", Float(lat));
              row := Set(row, "longitude", Float(lon));
            case _ =>
              row := Set(row, "latitude", Null);
              row := Set(row, "longitude", Null);
          }
          data[i] := row;
        }
      }
    }
    assert old(data[..])[..data.Length] == old(data[..]);
  }
}
