/** Outliner_cleaned.py: upper-case the town, drop rows outside the manual
    caps, then keep the rows inside the interquartile window of all three
    numeric columns. */
module Outliers {
  import opened Frames
  import opened Text

  /** A row of the enriched price table: the columns the script reads. */
  datatype PriceRow<X> = PriceRow(
    town: Option<string>,
    realPrice: Option<real>,
    distanceToStation: Option<real>,
    businessCount: Option<real>,
    rest: X)

  const PriceCap: real := 2000000.0
  const DistanceCap: real := 20000.0

  /** Line 12: `str.upper()`; a missing town stays missing. */
  function UpperTown<X>(r: PriceRow<X>): (u: PriceRow<X>)
    ensures u.town.None? <==> r.town.None?
    ensures u.town.Some? ==> u.town.value == Upper(r.town.value)
    ensures u.town.Some? ==> |u.town.value| == |r.town.value|
                             && forall c :: c in u.town.value ==> !IsLowerLetter(c)
    ensures u.realPrice == r.realPrice && u.distanceToStation == r.distanceToStation
            && u.businessCount == r.businessCount && u.rest == r.rest
  {
    r.(town := match r.town case None => None case Some(t) => Some(Upper(t)))
  }

  /** Lines 15-21: all three values present, price and distance strictly
      below their caps. */
  predicate WithinCaps<X>(r: PriceRow<X>)
  {
    && r.realPrice.Some? && r.distanceToStation.Some? && r.businessCount.Some?
    && r.realPrice.value < PriceCap && r.distanceToStation.value < DistanceCap
  }

  function ApplyCaps<X>(rows: seq<PriceRow<X>>): (capped: seq<PriceRow<X>>)
    ensures forall r :: r in capped ==> WithinCaps(r)
    ensures forall r :: r in capped ==> r.town.None? || forall c :: c in r.town.value ==> !IsLowerLetter(c)
    ensures forall r :: r in rows && WithinCaps(r) ==> UpperTown(r) in capped
    ensures IsSubsequence(capped, Map(rows, UpperTown))
    ensures |capped| == Count(Map(rows, UpperTown), WithinCaps)
  {
    var upper := Map(rows, UpperTown);
    forall r | r in rows && WithinCaps(r)
      ensures UpperTown(r) in Filter(upper, WithinCaps)
    {
      MapMember(rows, UpperTown, r);
    }
    forall r | r in Filter(upper, WithinCaps)
      ensures r.town.None? || forall c :: c in r.town.value ==> !IsLowerLetter(c)
    {
      MapOrigin(rows, UpperTown, r);
    }
    FilterIsSubsequence(upper, WithinCaps);
    Filter(upper, WithinCaps)
  }

  /** The first and third quartiles of a column. */
  datatype Quartiles = Quartiles(q1: real, q3: real)

  /** Lines 24-28: `between` with both ends inclusive. */
  predicate IqrKeeps(x: real, q: Quartiles)
  {
    var iqr := q.q3 - q.q1;
    q.q1 - 1.5 * iqr <= x <= q.q3 + 1.5 * iqr
  }

  /** A missing value is never `between` its bounds; a value between the
      quartiles always is. */
  predicate InWindow(x: Option<real>, q: Quartiles): (keep: bool)
    ensures x.None? ==> !keep
    ensures x.Some? && q.q1 <= x.value <= q.q3 ==> keep
  {
    x.Some? && IqrKeeps(x.value, q)
  }

  /** Every value from the first to the third quartile passes. */
  lemma QuartileRangePasses(x: real, q: Quartiles)
    requires q.q1 <= q.q3 && q.q1 <= x <= q.q3
    ensures IqrKeeps(x, q)
  {
  }

  /** Both fences themselves pass, and nothing beyond them does. */
  lemma FencesAreInclusive(q: Quartiles, x: real)
    ensures IqrKeeps(q.q1 - 1.5 * (q.q3 - q.q1), q) <==> q.q1 <= q.q3
    ensures IqrKeeps(q.q3 + 1.5 * (q.q3 - q.q1), q) <==> q.q1 <= q.q3
    ensures x < q.q1 - 1.5 * (q.q3 - q.q1) || x > q.q3 + 1.5 * (q.q3 - q.q1) ==> !IqrKeeps(x, q)
  {
  }

  function Prices<X>(rows: seq<PriceRow<X>>): seq<Option<real>> { Map(rows, (r: PriceRow<X>) => r.realPrice) }
  function Distances<X>(rows: seq<PriceRow<X>>): seq<Option<real>> { Map(rows, (r: PriceRow<X>) => r.distanceToStation) }
  function Counts<X>(rows: seq<PriceRow<X>>): seq<Option<real>> { Map(rows, (r: PriceRow<X>) => r.businessCount) }

  /** The three window masks, with quartiles fixed in advance. */
  predicate PriceInWindow<X>(r: PriceRow<X>, q: Quartiles) { InWindow(r.realPrice, q) }
  predicate DistanceInWindow<X>(r: PriceRow<X>, q: Quartiles) { InWindow(r.distanceToStation, q) }
  predicate CountInWindow<X>(r: PriceRow<X>, q: Quartiles) { InWindow(r.businessCount, q) }

  /** All three windows, with quartiles fixed in advance. */
  predicate InAllWindows<X>(r: PriceRow<X>, qp: Quartiles, qd: Quartiles, qc: Quartiles)
  {
    PriceInWindow(r, qp) && DistanceInWindow(r, qd) && CountInWindow(r, qc)
  }

  /** Lines 31-36. The quartiles of each column are computed once, on the
      capped table (`quartiles` stands for `series.quantile(0.25)` and
      `series.quantile(0.75)`), and the row must lie in all three windows. */
  function IqrFilter<X>(capped: seq<PriceRow<X>>, quartiles: seq<Option<real>> -> Quartiles)
    : (kept: seq<PriceRow<X>>)
    ensures IsSubsequence(kept, capped)
    ensures forall r :: r in kept ==>
              r in capped && PriceInWindow(r, quartiles(Prices(capped)))
              && DistanceInWindow(r, quartiles(Distances(capped)))
              && CountInWindow(r, quartiles(Counts(capped)))
    ensures forall r :: (r in capped && PriceInWindow(r, quartiles(Prices(capped)))
                         && DistanceInWindow(r, quartiles(Distances(capped)))
                         && CountInWindow(r, quartiles(Counts(capped)))) ==> r in kept
    ensures |kept| == Count(capped, r => InAllWindows(r, quartiles(Prices(capped)), quartiles(Distances(capped)),
                                                      quartiles(Counts(capped))))
  {
    var qp, qd, qc := quartiles(Prices(capped)), quartiles(Distances(capped)), quartiles(Counts(capped));
    FilterIsSubsequence(capped, r => InAllWindows(r, qp, qd, qc));
    Filter(capped, r => InAllWindows(r, qp, qd, qc))
  }

  /** The combined mask keeps the same rows as the three masks applied one
      after the other, provided all three use the quartiles of the capped
      table. */
  lemma IqrFilterIsThreeMasks<X>(capped: seq<PriceRow<X>>, quartiles: seq<Option<real>> -> Quartiles,
                                 price: PriceRow<X> -> bool, distance: PriceRow<X> -> bool, count: PriceRow<X> -> bool)
    requires forall r :: price(r) == PriceInWindow(r, quartiles(Prices(capped)))
    requires forall r :: distance(r) == DistanceInWindow(r, quartiles(Distances(capped)))
    requires forall r :: count(r) == CountInWindow(r, quartiles(Counts(capped)))
    ensures IqrFilter(capped, quartiles) == Filter(Filter(Filter(capped, price), distance), count)
  {
    var qp, qd, qc := quartiles(Prices(capped)), quartiles(Distances(capped)), quartiles(Counts(capped));
    var pd := (r: PriceRow<X>) => price(r) && distance(r);
    FilterConjunction(capped, price, distance, pd);
    FilterConjunction(capped, pd, count, r => InAllWindows(r, qp, qd, qc));
  }

  /** Lines 11-36: the rows handed to winsorisation. A row is kept exactly
      when it passes the caps and then lies in all three interquartile
      windows, each computed on the capped table; the order is kept. */
  function RemoveOutliers<X>(rows: seq<PriceRow<X>>, quartiles: seq<Option<real>> -> Quartiles)
    : (out: seq<PriceRow<X>>)
    ensures forall r :: r in out ==> WithinCaps(r) && r in ApplyCaps(rows)
    ensures forall r :: r in out ==>
              InAllWindows(r, quartiles(Prices(ApplyCaps(rows))), quartiles(Distances(ApplyCaps(rows))),
                           quartiles(Counts(ApplyCaps(rows))))
    ensures forall r :: (r in rows && WithinCaps(r)
                         && InAllWindows(UpperTown(r), quartiles(Prices(ApplyCaps(rows))),
                                         quartiles(Distances(ApplyCaps(rows))), quartiles(Counts(ApplyCaps(rows))))) ==>
              UpperTown(r) in out
    ensures IsSubsequence(out, Map(rows, UpperTown))
    ensures |out| == Count(ApplyCaps(rows), r => InAllWindows(r, quartiles(Prices(ApplyCaps(rows))),
                                                              quartiles(Distances(ApplyCaps(rows))),
                                                              quartiles(Counts(ApplyCaps(rows)))))
  {
    var capped := ApplyCaps(rows);
    var out := IqrFilter(capped, quartiles);
    SubsequenceTransitive(out, capped, Map(rows, UpperTown));
    out
  }
}
