/** clean_naptan_data.py: the active railway stations of the NaPTAN stop
    register, with their opening year, one row per station name. */
module Naptan {
  import opened Frames
  import opened Text

  /** A NaPTAN stop record: the columns the script reads, the rest in `rest`. */
  datatype StopRecord<X> = StopRecord(
    stopType: Option<string>,
    status: Option<string>,
    creationDateTime: Option<string>,
    commonName: Option<string>,
    localityName: Option<string>,
    town: Option<string>,
    latitude: Option<real>,
    longitude: Option<real>,
    rest: X)

  /** A stop with the added `creation_year` column. */
  datatype DatedStop<X> = DatedStop(stop: StopRecord<X>, creationYear: Option<int>)

  /** The six output columns, in the order of lines 22-23. */
  datatype Station = Station(
    commonName: Option<string>,
    localityName: Option<string>,
    town: Option<string>,
    latitude: Option<real>,
    longitude: Option<real>,
    creationYear: Option<int>)

  const RailStopTypes: set<string> := {"RSE", "RLY"}
  const ActiveStatuses: set<string> := {"active", "act"}

  /** Line 7: `isin(['RSE', 'RLY'])`; a missing stop type is not in the list. */
  predicate IsRailStop<X>(s: StopRecord<X>)
  {
    s.stopType.Some? && s.stopType.value in RailStopTypes
  }

  /** Lines 10-11: the year of the parsed creation timestamp, if it parses. */
  function AddCreationYear<X>(s: StopRecord<X>, parseDate: string -> Option<Date>): (d: DatedStop<X>)
    ensures d.stop == s
    ensures s.creationDateTime.None? ==> d.creationYear.None?
    ensures d.creationYear.Some? <==>
              s.creationDateTime.Some? && parseDate(s.creationDateTime.value).Some?
    ensures s.creationDateTime.Some? && parseDate(s.creationDateTime.value).Some? ==>
              d.creationYear == Some(parseDate(s.creationDateTime.value).value.year)
  {
    var year := match s.creationDateTime
      case None => None
      case Some(t) => match parseDate(t) case None => None case Some(date) => Some(date.year);
    DatedStop(s, year)
  }

  function WithCreationYears<X>(stops: seq<StopRecord<X>>, parseDate: string -> Option<Date>): seq<DatedStop<X>>
  {
    Map(stops, s => AddCreationYear(s, parseDate))
  }

  /** Lines 14-16: `str.lower().isin(['active', 'act'])`; a missing status
      stays missing under `str.lower` and fails the test. */
  predicate IsActive<X>(d: DatedStop<X>)
  {
    d.stop.status.Some? && Lower(d.stop.status.value) in ActiveStatuses
  }

  /** Line 19's `dropna` subset. */
  predicate IsComplete<X>(d: DatedStop<X>)
  {
    d.stop.latitude.Some? && d.stop.longitude.Some? && d.creationYear.Some?
  }

  /** Lines 22-23. */
  function Project<X>(d: DatedStop<X>): Station
  {
    Station(d.stop.commonName, d.stop.localityName, d.stop.town, d.stop.latitude, d.stop.longitude, d.creationYear)
  }

  /** The status test ignores letter case. */
  lemma ActiveIgnoresCase()
    ensures Lower("ACTIVE") == "active" && Lower("Act") == "act"
    ensures Lower("inactive") !in ActiveStatuses
  {
  }

  // ---------------------------------------------------------------------------
  // `drop_duplicates(subset=['CommonName'])` (line 26)
  // ---------------------------------------------------------------------------

  /** Keep-first de-duplication, given the names already kept. Two missing
      names count as duplicates, as they do for pandas. */
  function DedupeFrom(rows: seq<Station>, seen: set<Option<string>>): (out: seq<Station>)
    ensures forall o :: o in out ==> o in rows && o.commonName !in seen
  {
    if rows == [] then []
    else if rows[0].commonName in seen then DedupeFrom(rows[1..], seen)
    else [rows[0]] + DedupeFrom(rows[1..], seen + {rows[0].commonName})
  }

  function DropDuplicateNames(rows: seq<Station>): (d: seq<Station>)
    ensures NamesUnique(d)
    ensures IsSubsequence(d, rows)
  {
    DedupeNamesUnique(rows, {});
    DedupeIsSubsequence(rows, {});
    DedupeFrom(rows, {})
  }

  /** No two rows share a name. */
  predicate NamesUnique(rows: seq<Station>)
  {
    forall i, j :: 0 <= i < j < |rows| ==> rows[i].commonName != rows[j].commonName
  }

  /** The names seen after the first row. */
  function TailSeen(rows: seq<Station>, seen: set<Option<string>>): set<Option<string>>
    requires rows != []
  {
    if rows[0].commonName in seen then seen else seen + {rows[0].commonName}
  }

  /** A row whose name no other row has can be put in front. */
  lemma NamesUniqueCons(x: Station, rest: seq<Station>)
    requires NamesUnique(rest)
    requires forall o :: o in rest ==> o.commonName != x.commonName
    ensures NamesUnique([x] + rest)
  {
    var out := [x] + rest;
    forall i, j | 0 <= i < j < |out|
      ensures out[i].commonName != out[j].commonName
    {
      assert out[j] == rest[j - 1];
      if i == 0 {
        assert rest[j - 1] in rest;
      } else {
        assert out[i] == rest[i - 1];
      }
    }
  }

  /** No two kept rows share a name. */
  lemma {:induction false} DedupeNamesUnique(rows: seq<Station>, seen: set<Option<string>>)
    ensures NamesUnique(DedupeFrom(rows, seen))
  {
    if rows != [] {
      DedupeNamesUnique(rows[1..], TailSeen(rows, seen));
      if rows[0].commonName !in seen {
        NamesUniqueCons(rows[0], DedupeFrom(rows[1..], TailSeen(rows, seen)));
      }
    }
  }

  /** Every row of the de-duplication of the tail is a row of the whole. */
  lemma DedupeTailIncluded(rows: seq<Station>, seen: set<Option<string>>)
    requires rows != []
    ensures forall o :: o in DedupeFrom(rows[1..], TailSeen(rows, seen)) ==> o in DedupeFrom(rows, seen)
  {
  }

  /** A row whose name is not already seen keeps a row of that name. */
  lemma {:induction false} DedupeKeepsEveryName(rows: seq<Station>, seen: set<Option<string>>, r: Station)
    requires r in rows && r.commonName !in seen
    ensures exists o :: o in DedupeFrom(rows, seen) && o.commonName == r.commonName
    decreases |rows|
  {
    if r.commonName == rows[0].commonName {
      assert DedupeFrom(rows, seen)[0] == rows[0];
    } else {
      assert r in rows[1..] && r.commonName !in TailSeen(rows, seen);
      DedupeKeepsEveryName(rows[1..], TailSeen(rows, seen), r);
      var o :| o in DedupeFrom(rows[1..], TailSeen(rows, seen)) && o.commonName == r.commonName;
      DedupeTailIncluded(rows, seen);
    }
  }

  /** The row kept for a name is the first row with that name. */
  lemma {:induction false} DedupeKeepsFirst(rows: seq<Station>, seen: set<Option<string>>)
    ensures forall o :: o in DedupeFrom(rows, seen) ==>
              exists i :: 0 <= i < |rows| && rows[i] == o
                          && forall j :: 0 <= j < i ==> rows[j].commonName != o.commonName
  {
    if rows != [] {
      var tailSeen := TailSeen(rows, seen);
      DedupeKeepsFirst(rows[1..], tailSeen);
      forall o | o in DedupeFrom(rows, seen)
        ensures exists i :: 0 <= i < |rows| && rows[i] == o
                            && forall j :: 0 <= j < i ==> rows[j].commonName != o.commonName
      {
        if rows[0].commonName !in seen && o == rows[0] {
          assert rows[0] == o;
        } else {
          assert o in DedupeFrom(rows[1..], tailSeen);
          var i :| 0 <= i < |rows[1..]| && rows[1..][i] == o
                   && forall j :: 0 <= j < i ==> rows[1..][j].commonName != o.commonName;
          assert o.commonName !in tailSeen;
          assert rows[0].commonName in tailSeen;
          assert rows[i + 1] == o;
        }
      }
    }
  }

  /** De-duplication keeps rows in their order. */
  lemma {:induction false} DedupeIsSubsequence(rows: seq<Station>, seen: set<Option<string>>)
    ensures IsSubsequence(DedupeFrom(rows, seen), rows)
  {
    if rows != [] {
      var tailSeen := TailSeen(rows, seen);
      DedupeIsSubsequence(rows[1..], tailSeen);
      var out := DedupeFrom(rows, seen);
      if rows[0].commonName !in seen {
        assert out[0] == rows[0] && out[1..] == DedupeFrom(rows[1..], tailSeen);
      }
    }
  }

  // ---------------------------------------------------------------------------
  // The whole script (lines 7-26)
  // ---------------------------------------------------------------------------

  /** Lines 7-23: the filtered, dated and projected stops, before
      de-duplication. */
  function Projected<X>(stops: seq<StopRecord<X>>, parseDate: string -> Option<Date>): seq<Station>
  {
    var rail := Filter(stops, IsRailStop);
    var dated := WithCreationYears(rail, parseDate);
    var active := Filter(dated, IsActive);
    var complete := Filter(active, IsComplete);
    Map(complete, Project)
  }

  /** Lines 7-26. */
  function CleanNaptan<X>(stops: seq<StopRecord<X>>, parseDate: string -> Option<Date>): (stations: seq<Station>)
    ensures NamesUnique(stations)
  {
    DropDuplicateNames(Projected(stops, parseDate))
  }

  /** Every kept station comes from a railway stop with an active status, and
      has a position and an opening year. */
  lemma CleanNaptanRows<X>(stops: seq<StopRecord<X>>, parseDate: string -> Option<Date>, o: Station)
    requires o in CleanNaptan(stops, parseDate)
    ensures o.latitude.Some? && o.longitude.Some? && o.creationYear.Some?
    ensures exists s :: s in stops && IsRailStop(s) && s.status.Some? && Lower(s.status.value) in ActiveStatuses
                        && o == Project(AddCreationYear(s, parseDate))
  {
    var rail := Filter(stops, IsRailStop);
    var dated := WithCreationYears(rail, parseDate);
    var complete := Filter(Filter(dated, IsActive), IsComplete);
    assert o in Projected(stops, parseDate);
    MapOrigin(complete, Project, o);
    var d :| d in complete && o == Project(d);
    MapOrigin(rail, s => AddCreationYear(s, parseDate), d);
    var s :| s in rail && d == AddCreationYear(s, parseDate);
    assert s in stops && IsRailStop(s);
  }

  /** Every station name that survives the filters keeps a row. */
  lemma CleanNaptanKeepsEveryName<X>(stops: seq<StopRecord<X>>, parseDate: string -> Option<Date>, r: Station)
    requires r in Projected(stops, parseDate)
    ensures exists o :: o in CleanNaptan(stops, parseDate) && o.commonName == r.commonName
  {
    DedupeKeepsEveryName(Projected(stops, parseDate), {}, r);
  }

  /** The row kept for a name is the first filtered row with that name. */
  lemma CleanNaptanKeepsFirst<X>(stops: seq<StopRecord<X>>, parseDate: string -> Option<Date>, o: Station)
    requires o in CleanNaptan(stops, parseDate)
    ensures var projected := Projected(stops, parseDate);
            exists i :: 0 <= i < |projected| && projected[i] == o
                        && forall j :: 0 <= j < i ==> projected[j].commonName != o.commonName
  {
    DedupeKeepsFirst(Projected(stops, parseDate), {});
  }

  /** The output follows the order of the register: it is a subsequence of
      the register's rows, each dated and projected. */
  lemma CleanNaptanIsSubsequence<X>(stops: seq<StopRecord<X>>, parseDate: string -> Option<Date>)
    ensures IsSubsequence(CleanNaptan(stops, parseDate), Map(WithCreationYears(stops, parseDate), Project))
  {
    var rail := Filter(stops, IsRailStop);
    var dated := WithCreationYears(rail, parseDate);
    var active := Filter(dated, IsActive);
    var complete := Filter(active, IsComplete);
    var projected := Projected(stops, parseDate);
    var all := WithCreationYears(stops, parseDate);
    DedupeIsSubsequence(projected, {});
    FilterIsSubsequence(stops, IsRailStop);
    MapSubsequence(rail, stops, s => AddCreationYear(s, parseDate));
    FilterIsSubsequence(dated, IsActive);
    FilterIsSubsequence(active, IsComplete);
    SubsequenceTransitive(complete, active, dated);
    SubsequenceTransitive(complete, dated, all);
    MapSubsequence(complete, all, Project);
    SubsequenceTransitive(CleanNaptan(stops, parseDate), projected, Map(all, Project));
  }
}
