/** real_price_with_station_info.py: attach the nearest-station record of each
    property's postcode, with sentinel values where there is none, and convert
    the distance from kilometres to metres. */
module StationInfo {
  import opened Frames
  import opened Text

  /** A property record: its postcode and the other columns. */
  datatype PropertyRecord<X> = PropertyRecord(postcode: Option<string>, rest: X)

  /** The station columns selected at lines 18-19, keyed by postcode. */
  datatype StationRecord = StationRecord(
    postcode: Option<string>,
    nearestStationName: Option<string>,
    stationLat: Option<real>,
    stationLon: Option<real>,
    stationCreationYear: Option<real>,
    distanceToStationKm: Option<real>)

  /** The output row. `postcode_clean` and `distance_to_station_km` are not
      part of it (line 33). */
  datatype PropertyWithStation<X> = PropertyWithStation(
    property: PropertyRecord<X>,
    nearestStationName: string,
    stationLat: Option<real>,
    stationLon: Option<real>,
    stationCreationYear: real,
    distanceToStation: real)

  const NoStationName: string := "NO_STATION"

  /** Lines 13-14 on the text of a postcode: spaces removed, then upper-cased. */
  function CleanPostcode(s: string): (c: string)
    ensures ' ' !in c
    ensures forall ch :: ch in c ==> !IsLowerLetter(ch)
  {
    var t := RemoveChar(s, ' ');
    UpperKeepsSpaces(t);
    Upper(t)
  }

  /** `postcode_clean`, the same for both tables. */
  function PostcodeKey(cell: Option<string>): string
  {
    CleanPostcode(AsStr(cell))
  }

  /** Cleaning a cleaned postcode changes nothing. */
  lemma CleanPostcodeIdempotent(s: string)
    ensures CleanPostcode(CleanPostcode(s)) == CleanPostcode(s)
  {
    var c := CleanPostcode(s);
    RemoveAbsentChar(c, ' ');
    UpperKeepsUpper(c);
  }

  /** A space anywhere in a postcode does not change its key. */
  lemma CleanPostcodeIgnoresSpace(a: string, b: string)
    ensures CleanPostcode(a + " " + b) == CleanPostcode(a + b)
  {
    RemoveCharAppend(a + " ", b, ' ');
    RemoveCharAppend(a, " ", ' ');
    RemoveCharAppend(a, b, ' ');
    assert RemoveChar(" ", ' ') == [];
    assert RemoveChar(a + " ", ' ') == RemoveChar(a, ' ');
  }

  /** Two postcodes that differ only in the letter case of one character have
      the same key. */
  lemma CleanPostcodeIgnoresCase(a: string, c1: char, c2: char, b: string)
    requires UpperChar(c1) == UpperChar(c2)
    ensures CleanPostcode(a + [c1] + b) == CleanPostcode(a + [c2] + b)
  {
    if c1 == ' ' || c2 == ' ' {
      assert c1 == c2;
    } else {
      CleanPostcodeSplit(a, c1, b);
      CleanPostcodeSplit(a, c2, b);
    }
  }

  /** The key of a text with a non-space character in the middle. */
  lemma CleanPostcodeSplit(a: string, c: char, b: string)
    requires c != ' '
    ensures CleanPostcode(a + [c] + b)
            == Upper(RemoveChar(a, ' ')) + [UpperChar(c)] + Upper(RemoveChar(b, ' '))
  {
    var ra, rb := RemoveChar(a, ' '), RemoveChar(b, ' ');
    RemoveCharSplit(a, c, b, ' ');
    UpperSplit(ra, c, rb);
  }

  function PropertyKey<X>(p: PropertyRecord<X>): string { PostcodeKey(p.postcode) }

  function StationKey(s: StationRecord): string { PostcodeKey(s.postcode) }

  /** Lines 25-30 on one merged pair: `NO_STATION`, -1 and -1 km fill the
      missing cells, and the distance is converted to metres. */
  function FillStation<X>(pair: (PropertyRecord<X>, Option<StationRecord>)): (r: PropertyWithStation<X>)
    ensures r.property == pair.0
    ensures pair.1.None? ==>
              r.nearestStationName == NoStationName && r.stationCreationYear == -1.0
              && r.distanceToStation == -1000.0 && r.stationLat.None? && r.stationLon.None?
    ensures pair.1.Some? ==>
              r.stationLat == pair.1.value.stationLat && r.stationLon == pair.1.value.stationLon
    ensures pair.1.Some? && pair.1.value.nearestStationName.Some? ==>
              r.nearestStationName == pair.1.value.nearestStationName.value
    ensures pair.1.Some? && pair.1.value.stationCreationYear.Some? ==>
              r.stationCreationYear == pair.1.value.stationCreationYear.value
    ensures pair.1.Some? && pair.1.value.distanceToStationKm.Some? ==>
              r.distanceToStation == 1000.0 * pair.1.value.distanceToStationKm.value
    ensures pair.1.Some? && pair.1.value.nearestStationName.None? ==> r.nearestStationName == NoStationName
    ensures pair.1.Some? && pair.1.value.stationCreationYear.None? ==> r.stationCreationYear == -1.0
    ensures pair.1.Some? && pair.1.value.distanceToStationKm.None? ==> r.distanceToStation == -1000.0
  {
    var s := match pair.1
      case None => StationRecord(None, None, None, None, None, None)
      case Some(s) => s;
    var name := match s.nearestStationName case None => NoStationName case Some(n) => n;
    var year := match s.stationCreationYear case None => -1.0 case Some(y) => y;
    var km := match s.distanceToStationKm case None => -1.0 case Some(d) => d;
    PropertyWithStation(pair.0, name, s.stationLat, s.stationLon, year, km * 1000.0)
  }

  /** Lines 13-33: normalise both keys, left-merge, fill, convert, drop. */
  function MergeStationInfo<X>(properties: seq<PropertyRecord<X>>, stations: seq<StationRecord>)
    : (out: seq<PropertyWithStation<X>>)
    ensures |out| >= |properties|
    ensures forall r :: r in out ==> r.property in properties
    ensures forall p :: p in properties ==> exists r :: r in out && r.property == p
  {
    var joined := LeftJoin(properties, stations, PropertyKey, StationKey);
    var out := Map(joined, FillStation);
    forall r | r in out
      ensures r.property in properties
    {
      MapOrigin(joined, FillStation, r);
    }
    forall p | p in properties
      ensures exists r :: r in out && r.property == p
    {
      var pair :| pair in joined && pair.0 == p;
      MapMember(joined, FillStation, pair);
    }
    out
  }

  /** When every cleaned postcode occurs at most once in the station table,
      the output has one row per property, in order; a property whose key
      matches no station is filled as an unmatched row (the sentinels), and
      one that matches is filled from that station (its name, position and
      creation year, the distance in metres, or the sentinel of each missing
      cell). */
  lemma MergeStationInfoOneToOne<X>(properties: seq<PropertyRecord<X>>, stations: seq<StationRecord>)
    requires UniqueKeys(stations, StationKey)
    ensures |MergeStationInfo(properties, stations)| == |properties|
    ensures forall i :: 0 <= i < |properties| ==> MergeStationInfo(properties, stations)[i].property == properties[i]
    ensures forall i :: (0 <= i < |properties| && forall s :: s in stations ==> StationKey(s) != PropertyKey(properties[i])) ==>
              MergeStationInfo(properties, stations)[i] == FillStation((properties[i], None))
    ensures forall i :: (0 <= i < |properties| && forall s :: s in stations ==> StationKey(s) != PropertyKey(properties[i])) ==>
              && MergeStationInfo(properties, stations)[i].nearestStationName == NoStationName
              && MergeStationInfo(properties, stations)[i].stationCreationYear == -1.0
              && MergeStationInfo(properties, stations)[i].distanceToStation == -1000.0
    ensures forall i, s :: 0 <= i < |properties| && s in stations && StationKey(s) == PropertyKey(properties[i]) ==>
              MergeStationInfo(properties, stations)[i] == FillStation((properties[i], Some(s)))
    ensures forall i, s :: 0 <= i < |properties| && s in stations && StationKey(s) == PropertyKey(properties[i])
                           && s.distanceToStationKm.Some? ==>
              MergeStationInfo(properties, stations)[i].distanceToStation == 1000.0 * s.distanceToStationKm.value
  {
    StationJoinOneToOne(properties, stations);
    forall i, s | 0 <= i < |properties| && s in stations && StationKey(s) == PropertyKey(properties[i])
      ensures MergeStationInfo(properties, stations)[i] == FillStation((properties[i], Some(s)))
      ensures s.distanceToStationKm.Some? ==>
                MergeStationInfo(properties, stations)[i].distanceToStation == 1000.0 * s.distanceToStationKm.value
    {
      MatchedStationRow(properties, stations, i, s);
    }
    forall i | 0 <= i < |properties| && forall s :: s in stations ==> StationKey(s) != PropertyKey(properties[i])
      ensures MergeStationInfo(properties, stations)[i] == FillStation((properties[i], None))
      ensures && MergeStationInfo(properties, stations)[i].nearestStationName == NoStationName
              && MergeStationInfo(properties, stations)[i].stationCreationYear == -1.0
              && MergeStationInfo(properties, stations)[i].distanceToStation == -1000.0
    {
      UnmatchedStationRow(properties, stations, i);
    }
  }

  /** With unique station keys the left merge pairs each property with at
      most one station, in order. */
  lemma StationJoinOneToOne<X>(properties: seq<PropertyRecord<X>>, stations: seq<StationRecord>)
    requires UniqueKeys(stations, StationKey)
    ensures |LeftJoin(properties, stations, PropertyKey, StationKey)| == |properties|
    ensures forall i :: 0 <= i < |properties| ==> LeftJoin(properties, stations, PropertyKey, StationKey)[i].0 == properties[i]
    ensures forall i :: 0 <= i < |properties| ==>
              (LeftJoin(properties, stations, PropertyKey, StationKey)[i].1.None?
               <==> forall s :: s in stations ==> StationKey(s) != PropertyKey(properties[i]))
    ensures |MergeStationInfo(properties, stations)| == |properties|
    ensures forall i :: 0 <= i < |properties| ==>
              MergeStationInfo(properties, stations)[i] == FillStation(LeftJoin(properties, stations, PropertyKey, StationKey)[i])
  {
    forall i | 0 <= i < |properties|
      ensures |MatchesOf(stations, StationKey, PropertyKey(properties[i]))| <= 1
    {
      UniqueKeysMatchAtMostOne(stations, StationKey, PropertyKey(properties[i]));
    }
    LeftJoinOneToOne(properties, stations, PropertyKey, StationKey);
  }

  /** A property whose key matches a station is filled from that station. */
  lemma MatchedStationRow<X>(properties: seq<PropertyRecord<X>>, stations: seq<StationRecord>, i: int, s: StationRecord)
    requires UniqueKeys(stations, StationKey)
    requires 0 <= i < |properties| && s in stations && StationKey(s) == PropertyKey(properties[i])
    ensures |MergeStationInfo(properties, stations)| == |properties|
    ensures MergeStationInfo(properties, stations)[i] == FillStation((properties[i], Some(s)))
    ensures s.distanceToStationKm.Some? ==>
              MergeStationInfo(properties, stations)[i].distanceToStation == 1000.0 * s.distanceToStationKm.value
  {
    var joined := LeftJoin(properties, stations, PropertyKey, StationKey);
    StationJoinOneToOne(properties, stations);
    assert joined[i] in joined;
    UniqueKeysSameRow(stations, StationKey, s, joined[i].1.value);
  }

  /** A property whose key matches no station is filled with the sentinels. */
  lemma UnmatchedStationRow<X>(properties: seq<PropertyRecord<X>>, stations: seq<StationRecord>, i: int)
    requires UniqueKeys(stations, StationKey)
    requires 0 <= i < |properties| && forall s :: s in stations ==> StationKey(s) != PropertyKey(properties[i])
    ensures |MergeStationInfo(properties, stations)| == |properties|
    ensures MergeStationInfo(properties, stations)[i] == FillStation((properties[i], None))
    ensures && MergeStationInfo(properties, stations)[i].nearestStationName == NoStationName
            && MergeStationInfo(properties, stations)[i].stationCreationYear == -1.0
            && MergeStationInfo(properties, stations)[i].distanceToStation == -1000.0
  {
    StationJoinOneToOne(properties, stations);
  }
}
