/** create_interaction_features.py: coerce the three numeric columns, fill
    missing business counts with 0, drop rows without price or distance, and
    add the interaction column and three 0/1 dummies. */
module Interactions {
  import opened Frames
  import opened Text

  /** A row as read: the three columns the script coerces. */
  datatype RawRow<X> = RawRow(realPrice: Cell, businessCount: Cell, distanceToStation: Cell, rest: X)

  /** A row after lines 8-12: the business count is always a number. */
  datatype NumericRow<X> = NumericRow(realPrice: Option<real>, businessCount: real, distanceToStation: Option<real>, rest: X)

  /** A row of the output with the derived columns of lines 17-23. */
  datatype FeatureRow<X> = FeatureRow(
    row: NumericRow<X>,
    distanceTimesBusiness: real,
    nearStation: int,
    businessDense: int,
    targetArea: int)

  const NearStationMetres: real := 2000.0

  function AsNumber(c: Cell): Option<real>
  {
    match c
    case Number(x) => Some(x)
    case _ => None
  }

  /** Line 9: the text of the cell with every comma removed, then
      `to_numeric(errors='coerce')`. A number is written out by `astype(str)`
      and read back as itself; a missing cell becomes "nan", which is read
      back as missing. */
  function ParseBusinessCount(c: Cell, parseNumber: string -> Option<real>): (n: Option<real>)
    ensures c.Number? ==> n == Some(c.x)
    ensures c.Missing? ==> n.None?
    ensures c.Text? ==> n == parseNumber(RemoveChar(c.t, ','))
  {
    match c
    case Missing => None
    case Number(x) => Some(x)
    case Text(t) => parseNumber(RemoveChar(t, ','))
  }

  /** Thousands separators do not change the parsed count. */
  lemma CommaIgnored(a: string, b: string, parseNumber: string -> Option<real>)
    ensures ParseBusinessCount(Text(a + "," + b), parseNumber) == ParseBusinessCount(Text(a + b), parseNumber)
  {
    var ra, rb := RemoveChar(a, ','), RemoveChar(b, ',');
    RemoveCharAppend(a + ",", b, ',');
    RemoveCharAppend(a, ",", ',');
    RemoveCharAppend(a, b, ',');
    assert RemoveChar(",", ',') == [];
    assert RemoveChar(a + ",", ',') == ra;
    assert RemoveChar(a + "," + b, ',') == ra + rb;
  }

  /** Lines 8-12 on one row. */
  function Coerce<X>(r: RawRow<X>, parseNumber: string -> Option<real>): (n: NumericRow<X>)
    ensures n.rest == r.rest
    ensures n.businessCount == match ParseBusinessCount(r.businessCount, parseNumber) case None => 0.0 case Some(x) => x
    ensures r.realPrice.Number? ==> n.realPrice == Some(r.realPrice.x)
    ensures r.realPrice.Missing? ==> n.realPrice.None?
    ensures r.distanceToStation.Number? ==> n.distanceToStation == Some(r.distanceToStation.x)
    ensures r.distanceToStation.Missing? ==> n.distanceToStation.None?
    ensures r.realPrice.Text? ==> n.realPrice == parseNumber(r.realPrice.t)
    ensures r.distanceToStation.Text? ==> n.distanceToStation == parseNumber(r.distanceToStation.t)
  {
    var count := match ParseBusinessCount(r.businessCount, parseNumber) case None => 0.0 case Some(x) => x;
    NumericRow(AsNumber(ToNumeric(r.realPrice, parseNumber)), count,
               AsNumber(ToNumeric(r.distanceToStation, parseNumber)), r.rest)
  }

  /** Line 14's `dropna` subset: price and distance only. */
  predicate HasPriceAndDistance<X>(n: NumericRow<X>)
  {
    n.realPrice.Some? && n.distanceToStation.Some?
  }

  /** Lines 17 and 21-23 on one kept row, given the median count of the kept
      rows. */
  function AddFeatures<X>(n: NumericRow<X>, medianCount: real): (f: FeatureRow<X>)
    requires HasPriceAndDistance(n)
    ensures f.row == n
    ensures f.distanceTimesBusiness == n.distanceToStation.value * n.businessCount
    ensures f.nearStation in {0, 1} && f.businessDense in {0, 1} && f.targetArea in {0, 1}
    ensures f.nearStation == 1 <==> n.distanceToStation.value < NearStationMetres
    ensures f.businessDense == 1 <==> n.businessCount > medianCount
    ensures f.targetArea == 1 <==> f.nearStation == 1 && f.businessDense == 1
  {
    var near := if n.distanceToStation.value < NearStationMetres then 1 else 0;
    var dense := if n.businessCount > medianCount then 1 else 0;
    FeatureRow(n, n.distanceToStation.value * n.businessCount, near, dense, BitAnd(near, dense))
  }

  /** `&` on two 0/1 integers. */
  function BitAnd(a: int, b: int): (c: int)
    requires a in {0, 1} && b in {0, 1}
    ensures c in {0, 1}
    ensures c == 1 <==> a == 1 && b == 1
  {
    if a == 1 && b == 1 then 1 else 0
  }

  /** A property exactly at the threshold is not near a station. */
  lemma NearStationIsStrict<X>(n: NumericRow<X>, medianCount: real)
    requires HasPriceAndDistance(n) && n.distanceToStation.value == NearStationMetres
    ensures AddFeatures(n, medianCount).nearStation == 0
    ensures AddFeatures(n, medianCount).targetArea == 0
  {
  }

  /** Moving closer to a station never loses `near_station` or
      `target_area`. */
  lemma TargetAreaMonotone<X>(n: NumericRow<X>, m: NumericRow<X>, medianCount: real)
    requires HasPriceAndDistance(n) && HasPriceAndDistance(m)
    requires m.distanceToStation.value <= n.distanceToStation.value && m.businessCount == n.businessCount
    ensures AddFeatures(n, medianCount).nearStation == 1 ==> AddFeatures(m, medianCount).nearStation == 1
    ensures AddFeatures(n, medianCount).targetArea == 1 ==> AddFeatures(m, medianCount).targetArea == 1
  {
  }

  function CoerceAll<X>(rows: seq<RawRow<X>>, parseNumber: string -> Option<real>): seq<NumericRow<X>>
  {
    Map(rows, r => Coerce(r, parseNumber))
  }

  function KeptCounts<X>(kept: seq<NumericRow<X>>): seq<real>
  {
    Map(kept, (n: NumericRow<X>) => n.businessCount)
  }

  function FeaturesOf<X>(kept: seq<NumericRow<X>>, medianCount: real): (out: seq<FeatureRow<X>>)
    requires forall i :: 0 <= i < |kept| ==> HasPriceAndDistance(kept[i])
    ensures |out| == |kept|
    ensures forall i :: 0 <= i < |kept| ==> out[i] == AddFeatures(kept[i], medianCount)
  {
    seq(|kept|, i requires 0 <= i < |kept| => AddFeatures(kept[i], medianCount))
  }

  /** The whole script. `median` stands for `Series.median`, applied to the
      business counts of the kept rows. */
  function CreateInteractionFeatures<X>(rows: seq<RawRow<X>>, parseNumber: string -> Option<real>, median: seq<real> -> real)
    : (out: seq<FeatureRow<X>>)
    ensures |out| == Count(CoerceAll(rows, parseNumber), HasPriceAndDistance)
    ensures forall f :: f in out ==> f.row in CoerceAll(rows, parseNumber) && HasPriceAndDistance(f.row)
    ensures forall i :: 0 <= i < |out| ==> out[i].row == Filter(CoerceAll(rows, parseNumber), HasPriceAndDistance)[i]
    ensures forall f :: f in out ==>
              (f.businessDense == 1 <==>
                 f.row.businessCount > median(KeptCounts(Filter(CoerceAll(rows, parseNumber), HasPriceAndDistance))))
    ensures forall f :: f in out ==>
              f == AddFeatures(f.row, median(KeptCounts(Filter(CoerceAll(rows, parseNumber), HasPriceAndDistance))))
  {
    var kept := Filter(CoerceAll(rows, parseNumber), HasPriceAndDistance);
    assert forall i :: 0 <= i < |kept| ==> kept[i] in kept;
    FeaturesOfRows(kept, median(KeptCounts(kept)));
    FeaturesOf(kept, median(KeptCounts(kept)))
  }

  /** Each output row is the feature row of one kept row. */
  lemma FeaturesOfRows<X>(kept: seq<NumericRow<X>>, medianCount: real)
    requires forall i :: 0 <= i < |kept| ==> HasPriceAndDistance(kept[i])
    ensures forall f :: f in FeaturesOf(kept, medianCount) ==>
              f.row in kept && HasPriceAndDistance(f.row) && f == AddFeatures(f.row, medianCount)
  {
    var out := FeaturesOf(kept, medianCount);
    forall f | f in out
      ensures f.row in kept && HasPriceAndDistance(f.row) && f == AddFeatures(f.row, medianCount)
    {
      var i :| 0 <= i < |out| && out[i] == f;
      assert kept[i] in kept;
    }
  }

  /** A row is dropped only for a missing or unparsable price or distance:
      whatever its business count, a row with both is kept, with a count of
      0 when the count is missing or unparsable. */
  lemma OnlyPriceAndDistanceDrop<X>(rows: seq<RawRow<X>>, parseNumber: string -> Option<real>, median: seq<real> -> real, r: RawRow<X>)
    requires r in rows && HasPriceAndDistance(Coerce(r, parseNumber))
    ensures exists f :: f in CreateInteractionFeatures(rows, parseNumber, median) && f.row == Coerce(r, parseNumber)
    ensures ParseBusinessCount(r.businessCount, parseNumber).None? ==> Coerce(r, parseNumber).businessCount == 0.0
  {
    var all := CoerceAll(rows, parseNumber);
    var kept := Filter(all, HasPriceAndDistance);
    MapMember(rows, r => Coerce(r, parseNumber), r);
    var n := Coerce(r, parseNumber);
    assert n in kept;
    var i :| 0 <= i < |kept| && kept[i] == n;
    assert forall j :: 0 <= j < |kept| ==> kept[j] in kept;
    var out := CreateInteractionFeatures(rows, parseNumber, median);
    assert out[i].row == n;
  }
}
