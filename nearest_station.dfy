/** distance_merge_price.py: the time-aware distance from each property to the
    nearest railway station that already existed in the year of the sale. The
    geodesic distance is a parameter: any function of two coordinates that
    gives `None` where the library raises. */
module NearestStation {
  import opened Frames

  /** A row of the property or the station table: its Latitude and Longitude
      cells and the other columns. */
  datatype Located<X> = Located(latitude: Cell, longitude: Cell, rest: X)

  predicate HasCoordinates<X>(r: Located<X>) { r.latitude.Number? && r.longitude.Number? }

  function PositionOf<X>(r: Located<X>): Coord
    requires HasCoordinates(r)
  {
    Coord(r.latitude.x, r.longitude.x)
  }

  function CoerceRow<X>(r: Located<X>, parseNumber: string -> Option<real>): Located<X>
  {
    Located(ToNumeric(r.latitude, parseNumber), ToNumeric(r.longitude, parseNumber), r.rest)
  }

  /** Lines 15-17 on one table: both coordinate columns coerced to numbers,
      then the rows with a missing coordinate dropped. */
  function CoerceCoordinates<X>(rows: seq<Located<X>>, parseNumber: string -> Option<real>)
    : (kept: seq<Located<X>>)
    ensures forall r :: r in kept ==> HasCoordinates(r)
    ensures forall r :: r in rows && HasCoordinates(CoerceRow(r, parseNumber)) ==> CoerceRow(r, parseNumber) in kept
    ensures IsSubsequence(kept, Map(rows, r => CoerceRow(r, parseNumber)))
    ensures |kept| == Count(Map(rows, r => CoerceRow(r, parseNumber)), HasCoordinates)
  {
    var coerced := Map(rows, r => CoerceRow(r, parseNumber));
    FilterIsSubsequence(coerced, HasCoordinates);
    forall r | r in rows && HasCoordinates(CoerceRow(r, parseNumber))
      ensures CoerceRow(r, parseNumber) in coerced
    {
      var i :| 0 <= i < |rows| && rows[i] == r;
      assert coerced[i] == CoerceRow(r, parseNumber);
    }
    Filter(coerced, HasCoordinates)
  }

  /** A data frame whose coordinate columns the script overwrites and whose
      invalid rows it drops in place. */
  class Frame<X> {
    var rows: seq<Located<X>>

    constructor (rows0: seq<Located<X>>)
      ensures rows == rows0
    {
      rows := rows0;
    }

    /** One pass of the loop at lines 14-17. */
    method CoerceAndDropInvalid(parseNumber: string -> Option<real>)
      modifies this
      ensures rows == CoerceCoordinates(old(rows), parseNumber)
      ensures forall r :: r in rows ==> HasCoordinates(r)
    {
      rows := CoerceCoordinates(rows, parseNumber);
    }
  }

  /** Lines 14-17: the same cleaning applied, in place, to both tables. */
  method CleanBothFrames<P, S>(properties: Frame<P>, stations: Frame<S>, parseNumber: string -> Option<real>)
    requires properties as object != stations as object
    modifies properties, stations
    ensures properties.rows == CoerceCoordinates(old(properties.rows), parseNumber)
    ensures stations.rows == CoerceCoordinates(old(stations.rows), parseNumber)
  {
    properties.CoerceAndDropInvalid(parseNumber);
    stations.CoerceAndDropInvalid(parseNumber);
  }

  /** The columns of the property table besides the coordinates. */
  datatype PropertyColumns<P> = PropertyColumns(dateOfTransfer: Option<string>, rest: P)
  /** The columns of the station table besides the coordinates. */
  datatype StationColumns<S> = StationColumns(creationYear: Cell, rest: S)

  datatype Coord = Coord(latitude: real, longitude: real)

  /** A property with numeric coordinates and a known year of sale. */
  datatype Property<P> = Property(position: Coord, yearOfTransaction: int, columns: PropertyColumns<P>)
  /** A station with numeric coordinates and a numeric creation year. */
  datatype Station<S> = Station(position: Coord, creationYear: real, columns: StationColumns<S>)
  /** A property with the added `distance_to_station` column. */
  datatype PropertyWithDistance<P> = PropertyWithDistance(property: Property<P>, distanceToStation: Option<real>)

  function PropertyYear<P>(r: Located<PropertyColumns<P>>, parseDate: string -> Option<Date>): Option<int>
  {
    match r.rest.dateOfTransfer
    case None => None
    case Some(t) => match parseDate(t) case None => None case Some(d) => Some(d.year)
  }

  /** Lines 20-23: the year of sale from the parsed transfer date; rows whose
      date does not parse are dropped. */
  function PrepareProperties<P>(rows: seq<Located<PropertyColumns<P>>>, parseDate: string -> Option<Date>)
    : (props: seq<Property<P>>)
    requires forall r :: r in rows ==> HasCoordinates(r)
    ensures |props| == Count(rows, (r: Located<PropertyColumns<P>>) => PropertyYear(r, parseDate).Some?)
  {
    if rows == [] then []
    else
      var r := rows[0];
      assert r in rows;
      assert forall q :: q in rows[1..] ==> q in rows;
      var tail := PrepareProperties(rows[1..], parseDate);
      match PropertyYear(r, parseDate)
      case None => tail
      case Some(y) => [Property(PositionOf(r), y, r.rest)] + tail
  }

  /** Every kept property comes from a row whose date parses, with that year
      and that row's position and columns. */
  lemma {:induction false} PreparedPropertyOrigin<P>(rows: seq<Located<PropertyColumns<P>>>,
                                                     parseDate: string -> Option<Date>, p: Property<P>)
    requires forall r :: r in rows ==> HasCoordinates(r)
    requires p in PrepareProperties(rows, parseDate)
    ensures exists r :: r in rows && HasCoordinates(r) && PropertyYear(r, parseDate) == Some(p.yearOfTransaction)
                        && p.position == PositionOf(r) && p.columns == r.rest
    decreases |rows|
  {
    var r := rows[0];
    assert r in rows;
    assert forall q :: q in rows[1..] ==> q in rows;
    var tail := PrepareProperties(rows[1..], parseDate);
    if p in tail {
      PreparedPropertyOrigin(rows[1..], parseDate, p);
      var o :| o in rows[1..] && HasCoordinates(o) && PropertyYear(o, parseDate) == Some(p.yearOfTransaction)
               && p.position == PositionOf(o) && p.columns == o.rest;
      assert o in rows;
    }
  }

  /** Every row whose date parses yields a kept property with its position and
      columns. */
  lemma {:induction false} PreparedPropertyKept<P>(rows: seq<Located<PropertyColumns<P>>>,
                                                   parseDate: string -> Option<Date>, r: Located<PropertyColumns<P>>)
    requires forall q :: q in rows ==> HasCoordinates(q)
    requires r in rows && PropertyYear(r, parseDate).Some?
    ensures exists p :: p in PrepareProperties(rows, parseDate) && p.position == PositionOf(r)
                        && p.yearOfTransaction == PropertyYear(r, parseDate).value && p.columns == r.rest
    decreases |rows|
  {
    assert rows[0] in rows;
    assert forall q :: q in rows[1..] ==> q in rows;
    var tail := PrepareProperties(rows[1..], parseDate);
    if r != rows[0] {
      assert r in rows[1..];
      PreparedPropertyKept(rows[1..], parseDate, r);
      var p :| p in tail && p.position == PositionOf(r)
               && p.yearOfTransaction == PropertyYear(r, parseDate).value && p.columns == r.rest;
      assert p in PrepareProperties(rows, parseDate);
    } else {
      var p := Property(PositionOf(r), PropertyYear(r, parseDate).value, r.rest);
      assert PrepareProperties(rows, parseDate) == [p] + tail;
      assert p in PrepareProperties(rows, parseDate);
    }
  }

  /** Lines 26-27: creation years coerced to numbers; stations without one are
      dropped. */
  function PrepareStations<S>(rows: seq<Located<StationColumns<S>>>, parseNumber: string -> Option<real>)
    : (stations: seq<Station<S>>)
    requires forall r :: r in rows ==> HasCoordinates(r)
    ensures |stations| == Count(rows, (r: Located<StationColumns<S>>) => ToNumeric(r.rest.creationYear, parseNumber).Number?)
    ensures forall s :: s in stations ==>
              exists r :: r in rows && HasCoordinates(r) && ToNumeric(r.rest.creationYear, parseNumber) == Number(s.creationYear)
                          && s.position == PositionOf(r)
  {
    if rows == [] then []
    else
      var r := rows[0];
      assert r in rows;
      var tail := PrepareStations(rows[1..], parseNumber);
      assert forall q :: q in rows[1..] ==> q in rows;
      match ToNumeric(r.rest.creationYear, parseNumber)
      case Number(y) =>
        var s := Station(PositionOf(r), y, StationColumns(Number(y), r.rest.rest));
        assert forall q :: q in [s] + tail ==> q == s || q in tail;
        [s] + tail
      case _ => tail
  }

  /** Every row whose creation year coerces to a number yields a kept
      station with that year, its position and its other columns. */
  lemma {:induction false} PreparedStationKept<S>(rows: seq<Located<StationColumns<S>>>,
                                                  parseNumber: string -> Option<real>, r: Located<StationColumns<S>>)
    requires forall q :: q in rows ==> HasCoordinates(q)
    requires r in rows && ToNumeric(r.rest.creationYear, parseNumber).Number?
    ensures exists s :: s in PrepareStations(rows, parseNumber) && s.position == PositionOf(r)
                        && Number(s.creationYear) == ToNumeric(r.rest.creationYear, parseNumber)
                        && s.columns.rest == r.rest.rest
    decreases |rows|
  {
    assert rows[0] in rows;
    assert forall q :: q in rows[1..] ==> q in rows;
    var tail := PrepareStations(rows[1..], parseNumber);
    if r != rows[0] {
      assert r in rows[1..];
      PreparedStationKept(rows[1..], parseNumber, r);
      var s :| s in tail && s.position == PositionOf(r)
               && Number(s.creationYear) == ToNumeric(r.rest.creationYear, parseNumber)
               && s.columns.rest == r.rest.rest;
      assert s in PrepareStations(rows, parseNumber);
    } else {
      var y := ToNumeric(r.rest.creationYear, parseNumber).x;
      var s := Station(PositionOf(r), y, StationColumns(Number(y), r.rest.rest));
      assert PrepareStations(rows, parseNumber) == [s] + tail;
      assert s in PrepareStations(rows, parseNumber);
    }
  }

  predicate ExistedBy<S>(s: Station<S>, year: int) { s.creationYear <= year as real }

  /** Line 35: the stations whose creation year is at most the year of sale. */
  function ValidStations<S>(stations: seq<Station<S>>, year: int): (valid: seq<Station<S>>)
    ensures forall s :: s in valid ==> s in stations && ExistedBy(s, year)
    ensures forall s :: s in stations && ExistedBy(s, year) ==> s in valid
  {
    if stations == [] then []
    else (if ExistedBy(stations[0], year) then [stations[0]] else []) + ValidStations(stations[1..], year)
  }

  lemma {:induction false} ValidStationsAppend<S>(a: seq<Station<S>>, b: seq<Station<S>>, year: int)
    ensures ValidStations(a + b, year) == ValidStations(a, year) + ValidStations(b, year)
  {
    if a == [] {
      assert a + b == b;
    } else {
      assert (a + b)[0] == a[0] && (a + b)[1..] == a[1..] + b;
      ValidStationsAppend(a[1..], b, year);
    }
  }

  /** Lines 41-45: `distances.min()` over the given stations. The geodesic
      distance is `None` where the library raises (a latitude outside
      [-90, 90], a non-finite coordinate); one such station sends the whole
      `apply` to the handler at lines 46-48, which returns `None`, as does
      an empty table. */
  function MinDistance<S>(here: Coord, stations: seq<Station<S>>, dist: (Coord, Coord) -> Option<real>)
    : (m: Option<real>)
    ensures m.None? <==> stations == [] || exists s :: s in stations && dist(here, s.position).None?
    ensures m.Some? ==> forall s :: s in stations ==>
              dist(here, s.position).Some? && m.value <= dist(here, s.position).value
    ensures m.Some? ==> exists s :: s in stations && dist(here, s.position) == Some(m.value)
  {
    if stations == [] then None
    else
      assert forall s :: s in stations ==> s == stations[0] || s in stations[1..];
      match dist(here, stations[0].position)
      case None => None
      case Some(d) =>
        if |stations| == 1 then Some(d)
        else
          assert stations[1] in stations[1..];
          match MinDistance(here, stations[1..], dist)
          case None => None
          case Some(e) => Some(if d <= e then d else e)
  }

  /** Lines 30-48: `get_nearest_station_distance`. */
  function NearestStationDistance<S>(here: Coord, year: int, stations: seq<Station<S>>,
                                     dist: (Coord, Coord) -> Option<real>)
    : (m: Option<real>)
    ensures m.None? <==> (forall s :: s in stations ==> !ExistedBy(s, year))
                         || exists s :: s in stations && ExistedBy(s, year) && dist(here, s.position).None?
    ensures m.Some? ==> forall s :: s in stations && ExistedBy(s, year) ==>
              dist(here, s.position).Some? && m.value <= dist(here, s.position).value
    ensures m.Some? ==> exists s :: s in stations && ExistedBy(s, year) && dist(here, s.position) == Some(m.value)
  {
    var valid := ValidStations(stations, year);
    if valid == [] then None
    else
      assert valid[0] in valid;
      MinDistance(here, valid, dist)
  }

  /** A station that opened after the year of sale can be added anywhere in
      the station table without changing the result. */
  lemma LaterStationIrrelevant<S>(here: Coord, year: int, before: seq<Station<S>>, s: Station<S>,
                                  after: seq<Station<S>>, dist: (Coord, Coord) -> Option<real>)
    requires !ExistedBy(s, year)
    ensures NearestStationDistance(here, year, before + [s] + after, dist)
         == NearestStationDistance(here, year, before + after, dist)
  {
    var vb, va := ValidStations(before, year), ValidStations(after, year);
    ValidStationsAppend(before + [s], after, year);
    ValidStationsAppend(before, [s], year);
    ValidStationsAppend(before, after, year);
    assert ValidStations([s], year) == [];
    assert vb + [] == vb;
  }

  /** For fixed coordinates a later year of sale never gives a larger
      distance, since the set of stations that existed only grows; a later
      year can only lose its distance to a station opened in between whose
      distance the library rejects. */
  lemma NearestIsMonotoneInYear<S>(here: Coord, y1: int, y2: int, stations: seq<Station<S>>,
                                   dist: (Coord, Coord) -> Option<real>)
    requires y1 <= y2
    requires NearestStationDistance(here, y1, stations, dist).Some?
    ensures NearestStationDistance(here, y2, stations, dist).Some? ==>
              NearestStationDistance(here, y2, stations, dist).value
              <= NearestStationDistance(here, y1, stations, dist).value
    ensures NearestStationDistance(here, y2, stations, dist).None? ==>
              exists s :: s in stations && ExistedBy(s, y2) && !ExistedBy(s, y1) && dist(here, s.position).None?
  {
    var m1 := NearestStationDistance(here, y1, stations, dist);
    var s :| s in stations && ExistedBy(s, y1) && dist(here, s.position) == Some(m1.value);
    assert ExistedBy(s, y2);
  }

  /** With a non-negative distance the nearest distance is non-negative. */
  lemma NearestIsNonNegative<S>(here: Coord, year: int, stations: seq<Station<S>>, dist: (Coord, Coord) -> Option<real>)
    requires forall a, b :: dist(a, b).Some? ==> dist(a, b).value >= 0.0
    requires NearestStationDistance(here, year, stations, dist).Some?
    ensures NearestStationDistance(here, year, stations, dist).value >= 0.0
  {
    var m := NearestStationDistance(here, year, stations, dist);
    var s :| s in stations && ExistedBy(s, year) && dist(here, s.position) == Some(m.value);
  }

  /** Line 52: `properties.apply(get_nearest_station_distance, axis=1)`; one
      value per property, in order. */
  method AddDistanceColumn<P, S>(properties: seq<Property<P>>, stations: seq<Station<S>>, dist: (Coord, Coord) -> Option<real>)
    returns (out: seq<PropertyWithDistance<P>>)
    ensures |out| == |properties|
    ensures forall i :: 0 <= i < |properties| ==>
              out[i].property == properties[i]
              && out[i].distanceToStation
                 == NearestStationDistance(properties[i].position, properties[i].yearOfTransaction, stations, dist)
  {
    out := [];
    for i := 0 to |properties|
      invariant |out| == i
      invariant forall k :: 0 <= k < i ==>
                  out[k].property == properties[k]
                  && out[k].distanceToStation
                     == NearestStationDistance(properties[k].position, properties[k].yearOfTransaction, stations, dist)
    {
      var p := properties[i];
      out := out + [PropertyWithDistance(p, NearestStationDistance(p.position, p.yearOfTransaction, stations, dist))];
    }
  }

  /** The whole script after its in-place cleaning loop. */
  method DistanceMergePrice<P, S>(propertyFrame: Frame<PropertyColumns<P>>, stationFrame: Frame<StationColumns<S>>,
                                  parseNumber: string -> Option<real>, parseDate: string -> Option<Date>,
                                  dist: (Coord, Coord) -> Option<real>)
    returns (out: seq<PropertyWithDistance<P>>)
    requires propertyFrame as object != stationFrame as object
    modifies propertyFrame, stationFrame
    ensures propertyFrame.rows == CoerceCoordinates(old(propertyFrame.rows), parseNumber)
    ensures stationFrame.rows == CoerceCoordinates(old(stationFrame.rows), parseNumber)
    ensures |out| == |PrepareProperties(propertyFrame.rows, parseDate)|
    ensures forall i :: 0 <= i < |out| ==>
              out[i].property == PrepareProperties(propertyFrame.rows, parseDate)[i]
              && out[i].distanceToStation
                 == NearestStationDistance(out[i].property.position, out[i].property.yearOfTransaction,
                                           PrepareStations(stationFrame.rows, parseNumber), dist)
  {
    CleanBothFrames(propertyFrame, stationFrame, parseNumber);
    var properties := PrepareProperties(propertyFrame.rows, parseDate);
    var stations := PrepareStations(stationFrame.rows, parseNumber);
    out := AddDistanceColumn(properties, stations, dist);
  }
}
