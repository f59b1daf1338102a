/** merge_codepoint_latlon.py: read the Code-Point Open files of a folder,
    keep postcode, easting and northing, attach latitude and longitude, and
    left-merge them into the property table on the normalised postcode. */
module CodePoint {
  import opened Frames
  import opened Text

  /** A file of the Code-Point folder: its name and, read with `header=None`,
      its records as raw text cells. */
  datatype CsvFile = CsvFile(name: string, rows: seq<seq<Option<string>>>)

  /** Columns 0, 2 and 3 of a record, renamed Postcode, Easting, Northing. */
  datatype CodePointRow = CodePointRow(postcode: Option<string>, easting: Option<string>, northing: Option<string>)

  /** Where the reading stage stops. `UnreadableFile`: `read_csv` finds no
      record, or a record wider than the first; `MissingColumns`: the frame
      has no column 3, so `df[[0, 2, 3]]` raises; `NoCsvFiles`:
      `pd.concat([])` raises. */
  datatype Outcome<T> = Success(value: T) | UnreadableFile(file: string) | MissingColumns(file: string) | NoCsvFiles

  predicate EndsWith(s: string, suffix: string)
  {
    |suffix| <= |s| && s[|s| - |suffix|..] == suffix
  }

  /** Line 15. */
  predicate IsCsv(f: CsvFile) { EndsWith(f.name, ".csv") }

  /** A cell of a `header=None` frame: records shorter than the frame are
      padded with missing values. */
  function Column(row: seq<Option<string>>, k: nat): Option<string>
  {
    if k < |row| then row[k] else None
  }

  function SelectColumns(row: seq<Option<string>>): CodePointRow
  {
    CodePointRow(Column(row, 0), Column(row, 2), Column(row, 3))
  }

  function SelectedRows(f: CsvFile): seq<CodePointRow>
  {
    Map(f.rows, SelectColumns)
  }

  /** `read_csv` finds at least one record and none wider than the first,
      which fixes the width of the frame. */
  predicate Parsable(f: CsvFile)
  {
    f.rows != [] && forall i :: 0 <= i < |f.rows| ==> |f.rows[i]| <= |f.rows[0]|
  }

  /** The frame has a column 3, so `df[[0, 2, 3]]` finds its three labels. */
  predicate HasColumns(f: CsvFile)
    requires f.rows != []
  {
    4 <= |f.rows[0]|
  }

  /** Lines 17-19 on one file. */
  function ReadFile(f: CsvFile): (r: Outcome<seq<CodePointRow>>)
    ensures !r.NoCsvFiles?
    ensures r.Success? <==> Parsable(f) && HasColumns(f)
    ensures r.UnreadableFile? <==> !Parsable(f)
    ensures r.Success? ==> r.value == SelectedRows(f)
    ensures r.UnreadableFile? || r.MissingColumns? ==> r.file == f.name
  {
    if !Parsable(f) then UnreadableFile(f.name)
    else if !HasColumns(f) then MissingColumns(f.name)
    else Success(SelectedRows(f))
  }

  /** Reading a list of csv files one after the other: the first failure
      stops the reading; otherwise the frames are concatenated. */
  function ReadAll(csv: seq<CsvFile>): (r: Outcome<seq<CodePointRow>>)
    ensures !r.NoCsvFiles?
  {
    if csv == [] then Success([])
    else
      var head := ReadAll(csv[..|csv| - 1]);
      if !head.Success? then head
      else
        var tail := ReadFile(csv[|csv| - 1]);
        if !tail.Success? then tail
        else Success(head.value + tail.value)
  }

  /** Reading succeeds exactly when every file reads, and then yields the
      files' selected records, file after file. */
  lemma {:induction false} ReadAllSucceeds(csv: seq<CsvFile>)
    ensures ReadAll(csv).Success? <==> forall i :: 0 <= i < |csv| ==> ReadFile(csv[i]).Success?
    ensures ReadAll(csv).Success? ==> ReadAll(csv).value == Concat(Map(csv, SelectedRows))
  {
    if csv != [] {
      var init := csv[..|csv| - 1];
      ReadAllSucceeds(init);
      assert forall i :: 0 <= i < |init| ==> init[i] == csv[i];
      assert Map(csv, SelectedRows)[..|csv| - 1] == Map(init, SelectedRows);
    }
  }

  /** A failed read reports the first file that cannot be read. */
  lemma {:induction false} ReadAllReportsFirstFailure(csv: seq<CsvFile>)
    requires !ReadAll(csv).Success?
    ensures exists i :: 0 <= i < |csv| && ReadAll(csv) == ReadFile(csv[i])
                        && forall j :: 0 <= j < i ==> ReadFile(csv[j]).Success?
  {
    var init := csv[..|csv| - 1];
    if !ReadAll(init).Success? {
      ReadAllReportsFirstFailure(init);
      var i :| 0 <= i < |init| && ReadAll(init) == ReadFile(init[i])
               && forall j :: 0 <= j < i ==> ReadFile(init[j]).Success?;
      assert forall j :: 0 <= j <= i ==> init[j] == csv[j];
    } else {
      ReadAllSucceeds(init);
      assert forall j :: 0 <= j < |init| ==> init[j] == csv[j];
    }
  }

  /** One more file: the shape the reading loop follows. */
  lemma ReadAllSnoc(prefix: seq<CsvFile>, f: CsvFile)
    ensures ReadAll(prefix + [f]) ==
              if !ReadAll(prefix).Success? then ReadAll(prefix)
              else if !ReadFile(f).Success? then ReadFile(f)
              else Success(ReadAll(prefix).value + ReadFile(f).value)
  {
    assert (prefix + [f])[..|prefix|] == prefix;
  }

  /** Lines 12-22: the spreadsheet files of the folder, read in listing order
      and concatenated; no csv file at all is an error. */
  function CombineCodePoint(files: seq<CsvFile>): (r: Outcome<seq<CodePointRow>>)
    ensures r.NoCsvFiles? <==> forall f :: f in files ==> !IsCsv(f)
  {
    var csv := Filter(files, IsCsv);
    if csv == [] then NoCsvFiles
    else
      assert csv[0] in csv;
      ReadAll(csv)
  }

  /** Once reading has failed, later files change nothing. */
  lemma {:induction false} ReadAllFailureStops(a: seq<CsvFile>, b: seq<CsvFile>)
    requires !ReadAll(a).Success?
    ensures ReadAll(a + b) == ReadAll(a)
    decreases |b|
  {
    if b == [] {
      assert a + b == a;
    } else {
      assert (a + b)[..|a + b| - 1] == a + b[..|b| - 1];
      ReadAllFailureStops(a, b[..|b| - 1]);
    }
  }

  /** The state of the reading loop after the first i files: `frames` holds
      the records of the csv files among them, all of which could be read. */
  predicate ReadSoFar(files: seq<CsvFile>, i: nat, frames: seq<seq<CodePointRow>>)
    requires i <= |files|
  {
    var csv := Filter(files[..i], IsCsv);
    ReadAll(csv) == Success(Concat(frames)) && (frames == [] <==> csv == [])
  }

  /** Lines 12-22 as the loop the script runs: `df_list` collects one frame
      per csv file; the first file that cannot be read ends the run. */
  method ReadCodePointFolder(files: seq<CsvFile>) returns (r: Outcome<seq<CodePointRow>>)
    ensures r == CombineCodePoint(files)
  {
    var frames: seq<seq<CodePointRow>> := [];
    for i := 0 to |files|
      invariant ReadSoFar(files, i, frames)
    {
      ReadNext(files, i, frames);
      var f := files[i];
      if IsCsv(f) {
        var df := ReadFile(f);
        if !df.Success? {
          return df;
        }
        frames := frames + [df.value];
      }
    }
    ReadEnd(files, frames);
    if frames == [] {
      return NoCsvFiles;
    }
    return Success(Concat(frames));
  }

  /** The csv files among the first i + 1 files. */
  lemma CsvPrefixStep(files: seq<CsvFile>, i: nat)
    requires i < |files|
    ensures Filter(files[..i + 1], IsCsv) ==
              Filter(files[..i], IsCsv) + (if IsCsv(files[i]) then [files[i]] else [])
  {
    assert files[..i + 1] == files[..i] + [files[i]];
    FilterAppend(files[..i], [files[i]], IsCsv);
  }

  /** One turn of the loop: a file that is not a csv file changes nothing, a
      csv file that reads adds its records as one more frame, and a csv file
      that cannot be read decides the outcome of the whole folder. */
  lemma ReadNext(files: seq<CsvFile>, i: nat, frames: seq<seq<CodePointRow>>)
    requires i < |files| && ReadSoFar(files, i, frames)
    ensures !IsCsv(files[i]) ==> ReadSoFar(files, i + 1, frames)
    ensures IsCsv(files[i]) && ReadFile(files[i]).Success? ==>
              ReadSoFar(files, i + 1, frames + [ReadFile(files[i]).value])
    ensures IsCsv(files[i]) && !ReadFile(files[i]).Success? ==>
              CombineCodePoint(files) == ReadFile(files[i])
  {
    var csv, f := Filter(files[..i], IsCsv), files[i];
    CsvPrefixStep(files, i);
    if !IsCsv(f) {
      assert csv + [] == csv;
    } else {
      ReadAllSnoc(csv, f);
      if ReadFile(f).Success? {
        ConcatSnoc(frames, ReadFile(f).value);
      } else {
        ReadFailureIsFinal(files, i);
      }
    }
  }

  /** Once the csv files among the first i + 1 files fail to read, the whole
      folder fails the same way. */
  lemma ReadFailureIsFinal(files: seq<CsvFile>, i: nat)
    requires i < |files| && !ReadAll(Filter(files[..i + 1], IsCsv)).Success?
    ensures CombineCodePoint(files) == ReadAll(Filter(files[..i + 1], IsCsv))
  {
    var prefix := Filter(files[..i + 1], IsCsv);
    assert files == files[..i + 1] + files[i + 1..];
    FilterAppend(files[..i + 1], files[i + 1..], IsCsv);
    ReadAllFailureStops(prefix, Filter(files[i + 1..], IsCsv));
    assert prefix != [] by {
      assert ReadAll([]).Success?;
    }
  }

  /** After the last file the loop state is the outcome of the folder. */
  lemma ReadEnd(files: seq<CsvFile>, frames: seq<seq<CodePointRow>>)
    requires ReadSoFar(files, |files|, frames)
    ensures CombineCodePoint(files) == if frames == [] then NoCsvFiles else Success(Concat(frames))
  {
    assert files[..|files|] == files;
  }

  /** When every csv file reads, the combined table holds every record of
      every csv file, file after file, and nothing else. */
  lemma CombineKeepsEveryRecord(files: seq<CsvFile>)
    requires CombineCodePoint(files).Success?
    ensures forall f, i :: f in files && IsCsv(f) && 0 <= i < |f.rows| ==>
              SelectColumns(f.rows[i]) in CombineCodePoint(files).value
    ensures forall r :: r in CombineCodePoint(files).value ==>
              exists f, row :: f in files && IsCsv(f) && row in f.rows && r == SelectColumns(row)
  {
    forall f, i | f in files && IsCsv(f) && 0 <= i < |f.rows|
      ensures SelectColumns(f.rows[i]) in CombineCodePoint(files).value
    {
      RecordIsCombined(files, f, i);
    }
    forall r | r in CombineCodePoint(files).value
      ensures exists f, row :: f in files && IsCsv(f) && row in f.rows && r == SelectColumns(row)
    {
      CombinedIsRecord(files, r);
    }
  }

  /** One record of one csv file is in the combined table. */
  lemma RecordIsCombined(files: seq<CsvFile>, f: CsvFile, i: nat)
    requires CombineCodePoint(files).Success?
    requires f in files && IsCsv(f) && i < |f.rows|
    ensures SelectColumns(f.rows[i]) in CombineCodePoint(files).value
  {
    var csv := Filter(files, IsCsv);
    var frames := Map(csv, SelectedRows);
    ReadAllSucceeds(csv);
    MapMember(csv, SelectedRows, f);
    assert SelectedRows(f)[i] == SelectColumns(f.rows[i]);
  }

  /** One row of the combined table is a record of one csv file. */
  lemma CombinedIsRecord(files: seq<CsvFile>, r: CodePointRow)
    requires CombineCodePoint(files).Success? && r in CombineCodePoint(files).value
    ensures exists f, row :: f in files && IsCsv(f) && row in f.rows && r == SelectColumns(row)
  {
    var csv := Filter(files, IsCsv);
    var frames := Map(csv, SelectedRows);
    ReadAllSucceeds(csv);
    var fr :| fr in frames && r in fr;
    MapOrigin(csv, SelectedRows, fr);
    var f :| f in csv && fr == SelectedRows(f);
    var i :| 0 <= i < |fr| && fr[i] == r;
    assert f.rows[i] in f.rows;
  }

  // ---------------------------------------------------------------------------
  // Postcode normalisation (lines 39-40)
  // ---------------------------------------------------------------------------

  /** `astype(str).str.strip().str.replace(" ", "").str.upper()`. */
  function NormalizePostcode(cell: Option<string>): (p: string)
    ensures p == Upper(RemoveChar(Strip(AsStr(cell)), ' '))
    ensures ' ' !in p
    ensures forall c :: c in p ==> !IsLowerLetter(c)
    ensures p == [] || (!IsSpace(p[0]) && !IsSpace(p[|p| - 1]))
  {
    var s := Strip(AsStr(cell));
    var t := RemoveChar(s, ' ');
    RemoveCharKeepsEnds(s, ' ');
    UpperKeepsSpaces(t);
    UpperKeepsTrimmed(t);
    Upper(t)
  }

  /** Removing a character that is at neither end keeps both ends. */
  lemma RemoveCharKeepsEnds(s: string, c: char)
    requires s == [] || (s[0] != c && s[|s| - 1] != c)
    ensures RemoveChar(s, c) == [] <==> s == []
    ensures s != [] ==> RemoveChar(s, c)[0] == s[0]
    ensures s != [] ==> RemoveChar(s, c)[|RemoveChar(s, c)| - 1] == s[|s| - 1]
  {
    if s != [] {
      assert s == [] + [s[0]] + s[1..];
      RemoveCharSplit([], s[0], s[1..], c);
      assert RemoveChar([], c) == [];
      var n := |s| - 1;
      assert s == s[..n] + [s[n]] + [];
      RemoveCharSplit(s[..n], s[n], [], c);
    }
  }

  /** Normalising a normalised postcode changes nothing. */
  lemma NormalizePostcodeIdempotent(cell: Option<string>)
    ensures NormalizePostcode(Some(NormalizePostcode(cell))) == NormalizePostcode(cell)
  {
    var p := NormalizePostcode(cell);
    StripKeepsTrimmed(p);
    RemoveAbsentChar(p, ' ');
    UpperKeepsUpper(p);
  }

  // ---------------------------------------------------------------------------
  // Lat/lon and the merge (lines 25-29, 39-47)
  // ---------------------------------------------------------------------------

  /** A Code-Point record with the coordinates pyproj gives it. */
  datatype GeoRow = GeoRow(postcode: Option<string>, easting: Option<string>, northing: Option<string>,
                           longitude: Option<real>, latitude: Option<real>)

  /** Lines 25-29: the British National Grid to WGS84 conversion is the
      parameter `toLonLat`, which returns (longitude, latitude). */
  function AddLonLat(rows: seq<CodePointRow>, toLonLat: (Option<string>, Option<string>) -> (Option<real>, Option<real>))
    : (out: seq<GeoRow>)
    ensures |out| == |rows|
    ensures forall i :: 0 <= i < |rows| ==>
              out[i].postcode == rows[i].postcode && out[i].easting == rows[i].easting
              && out[i].northing == rows[i].northing
              && (out[i].longitude, out[i].latitude) == toLonLat(rows[i].easting, rows[i].northing)
  {
    Map(rows, (r: CodePointRow) => var ll := toLonLat(r.easting, r.northing); GeoRow(r.postcode, r.easting, r.northing, ll.0, ll.1))
  }

  datatype PropertyRow<X> = PropertyRow(postcode: Option<string>, rest: X)

  /** Line 39: after it the postcode column holds text in every row. */
  function NormalizeProperty<X>(p: PropertyRow<X>): (q: PropertyRow<X>)
    ensures q.postcode.Some? && q.rest == p.rest
  {
    PropertyRow(Some(NormalizePostcode(p.postcode)), p.rest)
  }

  /** Line 40. */
  function NormalizeGeo(g: GeoRow): GeoRow
  {
    g.(postcode := Some(NormalizePostcode(g.postcode)))
  }

  /** Line 43's mask. */
  predicate HasPostcode<X>(p: PropertyRow<X>) { p.postcode.Some? }

  /** Line 43 after line 39: `astype(str)` has already turned every missing
      postcode into the text "nan", so the `notna` mask removes no row. */
  lemma NotnaRemovesNothing<X>(properties: seq<PropertyRow<X>>)
    ensures Filter(Map(properties, NormalizeProperty), HasPostcode) == Map(properties, NormalizeProperty)
  {
    FilterAll(Map(properties, NormalizeProperty), HasPostcode);
  }

  /** A merged row: the property, then Easting, Northing, Longitude and
      Latitude; the right-hand `Postcode` is dropped (line 47). */
  datatype MergedRow<X> = MergedRow(property: PropertyRow<X>, easting: Option<string>, northing: Option<string>,
                                    longitude: Option<real>, latitude: Option<real>)

  function PropertyKey<X>(p: PropertyRow<X>): Option<string> { p.postcode }

  function GeoKey(g: GeoRow): Option<string> { g.postcode }

  function DropPostcode<X>(pair: (PropertyRow<X>, Option<GeoRow>)): (m: MergedRow<X>)
    ensures m.property == pair.0
    ensures pair.1.None? ==> m.easting.None? && m.northing.None? && m.longitude.None? && m.latitude.None?
    ensures pair.1.Some? ==> m.longitude == pair.1.value.longitude && m.latitude == pair.1.value.latitude
    ensures pair.1.Some? ==> m.easting == pair.1.value.easting && m.northing == pair.1.value.northing
  {
    match pair.1
    case None => MergedRow(pair.0, None, None, None, None)
    case Some(g) => MergedRow(pair.0, g.easting, g.northing, g.longitude, g.latitude)
  }

  /** Lines 39-47: normalise both postcodes, drop the rows the `notna` mask
      rejects, left-merge, drop the right-hand postcode. Every property row
      survives. */
  function MergeLatLon<X>(properties: seq<PropertyRow<X>>, codepoint: seq<GeoRow>): (merged: seq<MergedRow<X>>)
    ensures |merged| >= |properties|
    ensures forall p :: p in properties ==> exists m :: m in merged && m.property == NormalizeProperty(p)
  {
    var left := Filter(Map(properties, NormalizeProperty), HasPostcode);
    var joined := LeftJoin(left, Map(codepoint, NormalizeGeo), PropertyKey, GeoKey);
    NotnaRemovesNothing(properties);
    var merged := Map(joined, DropPostcode);
    forall p | p in properties
      ensures exists m :: m in merged && m.property == NormalizeProperty(p)
    {
      var k :| 0 <= k < |properties| && properties[k] == p;
      assert left[k] in left;
      var pair :| pair in joined && pair.0 == left[k];
      MapMember(joined, DropPostcode, pair);
    }
    merged
  }

  /** Each merged row is a normalised property row; it has no coordinates
      when no Code-Point postcode normalises to its postcode, a latitude it
      does have is that of a Code-Point record with its postcode, and when
      some record's postcode matches, the row carries the Easting, Northing,
      longitude and latitude of one such record. */
  lemma MergedRowsOrigin<X>(properties: seq<PropertyRow<X>>, codepoint: seq<GeoRow>, m: MergedRow<X>)
    requires m in MergeLatLon(properties, codepoint)
    ensures exists p :: p in properties && m.property == NormalizeProperty(p)
    ensures (forall g :: g in codepoint ==> Some(NormalizePostcode(g.postcode)) != m.property.postcode) ==>
              m.latitude.None? && m.longitude.None?
    ensures m.latitude.Some? ==>
              exists g :: g in codepoint && Some(NormalizePostcode(g.postcode)) == m.property.postcode
                          && g.latitude == m.latitude
    ensures (exists g :: g in codepoint && Some(NormalizePostcode(g.postcode)) == m.property.postcode) ==>
              exists g :: g in codepoint && Some(NormalizePostcode(g.postcode)) == m.property.postcode
                          && m.easting == g.easting && m.northing == g.northing
                          && m.longitude == g.longitude && m.latitude == g.latitude
  {
    var left := Filter(Map(properties, NormalizeProperty), HasPostcode);
    var right := Map(codepoint, NormalizeGeo);
    var joined := LeftJoin(left, right, PropertyKey, GeoKey);
    NotnaRemovesNothing(properties);
    var merged := Map(joined, DropPostcode);
    MapOrigin(joined, DropPostcode, m);
    var pair :| pair in joined && m == DropPostcode(pair);
    MapOrigin(properties, NormalizeProperty, pair.0);
    if pair.1.Some? {
      MapOrigin(codepoint, NormalizeGeo, pair.1.value);
    } else if g :| g in codepoint && Some(NormalizePostcode(g.postcode)) == m.property.postcode {
      MapMember(codepoint, NormalizeGeo, g);
      assert false;
    }
  }

  /** No two Code-Point records share a normalised postcode. */
  predicate UniquePostcodes(codepoint: seq<GeoRow>)
  {
    forall a, b :: 0 <= a < b < |codepoint| ==>
      NormalizePostcode(codepoint[a].postcode) != NormalizePostcode(codepoint[b].postcode)
  }

  /** When normalised Code-Point postcodes are unique, the merge keeps the
      property rows' count and order, and a property whose postcode matches
      record g carries g's Easting, Northing, longitude and latitude. */
  lemma MergeLatLonOneToOne<X>(properties: seq<PropertyRow<X>>, codepoint: seq<GeoRow>)
    requires UniquePostcodes(codepoint)
    ensures |MergeLatLon(properties, codepoint)| == |properties|
    ensures forall i :: 0 <= i < |properties| ==> MergeLatLon(properties, codepoint)[i].property == NormalizeProperty(properties[i])
    ensures forall i, g :: 0 <= i < |properties| && g in codepoint
                           && Some(NormalizePostcode(g.postcode)) == NormalizeProperty(properties[i]).postcode ==>
              MergeLatLon(properties, codepoint)[i] == MergedRow(NormalizeProperty(properties[i]), g.easting, g.northing, g.longitude, g.latitude)
  {
    GeoJoinOneToOne(properties, codepoint);
    MergeLatLonIsJoin(properties, codepoint);
    forall i, g | 0 <= i < |properties| && g in codepoint
                  && Some(NormalizePostcode(g.postcode)) == NormalizeProperty(properties[i]).postcode
      ensures MergeLatLon(properties, codepoint)[i] == MergedRow(NormalizeProperty(properties[i]), g.easting, g.northing, g.longitude, g.latitude)
    {
      MatchedGeoRow(properties, codepoint, i, g);
    }
  }

  /** With unique normalised postcodes the left merge of line 46 pairs
      property i with at most one record, in order. */
  lemma GeoJoinOneToOne<X>(properties: seq<PropertyRow<X>>, codepoint: seq<GeoRow>)
    requires UniquePostcodes(codepoint)
    ensures |LeftJoin(Map(properties, NormalizeProperty), Map(codepoint, NormalizeGeo), PropertyKey, GeoKey)| == |properties|
    ensures forall i :: 0 <= i < |properties| ==>
              LeftJoin(Map(properties, NormalizeProperty), Map(codepoint, NormalizeGeo), PropertyKey, GeoKey)[i].0
              == NormalizeProperty(properties[i])
  {
    var left := Map(properties, NormalizeProperty);
    var right := Map(codepoint, NormalizeGeo);
    UniqueGeoKeys(codepoint);
    forall i | 0 <= i < |left|
      ensures |MatchesOf(right, GeoKey, PropertyKey(left[i]))| <= 1
    {
      UniqueKeysMatchAtMostOne(right, GeoKey, PropertyKey(left[i]));
    }
    LeftJoinOneToOne(left, right, PropertyKey, GeoKey);
  }

  /** No property row is lost to the postcode filter, so the merge is the
      left join of all normalised rows with its postcode column dropped. */
  lemma MergeLatLonIsJoin<X>(properties: seq<PropertyRow<X>>, codepoint: seq<GeoRow>)
    ensures MergeLatLon(properties, codepoint)
            == Map(LeftJoin(Map(properties, NormalizeProperty), Map(codepoint, NormalizeGeo), PropertyKey, GeoKey), DropPostcode)
  {
    NotnaRemovesNothing(properties);
  }

  /** Unique normalised postcodes are unique merge keys. */
  lemma UniqueGeoKeys(codepoint: seq<GeoRow>)
    requires UniquePostcodes(codepoint)
    ensures UniqueKeys(Map(codepoint, NormalizeGeo), GeoKey)
  {
    var right := Map(codepoint, NormalizeGeo);
    forall a, b | 0 <= a < b < |right|
      ensures GeoKey(right[a]) != GeoKey(right[b])
    {
      assert right[a] == NormalizeGeo(codepoint[a]) && right[b] == NormalizeGeo(codepoint[b]);
    }
  }

  /** A property whose postcode matches record g carries g's values. */
  lemma MatchedGeoRow<X>(properties: seq<PropertyRow<X>>, codepoint: seq<GeoRow>, i: int, g: GeoRow)
    requires UniquePostcodes(codepoint)
    requires 0 <= i < |properties| && g in codepoint
    requires Some(NormalizePostcode(g.postcode)) == NormalizeProperty(properties[i]).postcode
    ensures |MergeLatLon(properties, codepoint)| == |properties|
    ensures MergeLatLon(properties, codepoint)[i] == MergedRow(NormalizeProperty(properties[i]), g.easting, g.northing, g.longitude, g.latitude)
  {
    var left := Map(properties, NormalizeProperty);
    var right := Map(codepoint, NormalizeGeo);
    var joined := LeftJoin(left, right, PropertyKey, GeoKey);
    GeoJoinOneToOne(properties, codepoint);
    MergeLatLonIsJoin(properties, codepoint);
    UniqueGeoKeys(codepoint);
    MapMember(codepoint, NormalizeGeo, g);
    LeftJoinPairsEveryMatch(left, right, PropertyKey, GeoKey, left[i], NormalizeGeo(g));
    assert left[i] in left;
    var p :| p in joined && p == (left[i], Some(NormalizeGeo(g)));
    assert joined[i].1.Some? by {
      assert joined[i].0 == left[i];
    }
    assert joined[i] in joined;
    UniqueKeysSameRow(right, GeoKey, NormalizeGeo(g), joined[i].1.value);
  }

  // ---------------------------------------------------------------------------
  // The summary figure (line 54)
  // ---------------------------------------------------------------------------

  predicate NoLatitude<X>(m: MergedRow<X>) { m.latitude.None? }

  predicate NoLongitude<X>(m: MergedRow<X>) { m.longitude.None? }

  predicate NoCoordinates<X>(m: MergedRow<X>) { m.latitude.None? || m.longitude.None? }

  /** Line 54 as written: `isna().sum().sum()` over two columns counts the
      missing cells, so a row with neither coordinate counts twice. */
  function MissingCoordinateCells<X>(merged: seq<MergedRow<X>>): (n: nat)
    ensures n <= 2 * |merged|
  {
    Count(merged, NoLatitude) + Count(merged, NoLongitude)
  }

  /** The number of rows the message on line 55 announces. */
  function RowsMissingCoordinates<X>(merged: seq<MergedRow<X>>): (n: nat)
    ensures n <= |merged|
  {
    Count(merged, NoCoordinates)
  }

  /** The row count lies between half the cell count and the cell count. */
  lemma {:induction false} RowsAndCells<X>(merged: seq<MergedRow<X>>)
    ensures RowsMissingCoordinates(merged) <= MissingCoordinateCells(merged) <= 2 * RowsMissingCoordinates(merged)
  {
    if merged != [] {
      RowsAndCells(merged[1..]);
    }
  }

  /** One property row with no coordinates: the figure is 2, the rows
      missing coordinates 1. */
  lemma CellsAreNotRows()
    ensures var merged := [MergedRow(PropertyRow(Some("AB12CD"), 0), None, None, None, None)];
            MissingCoordinateCells(merged) == 2 && RowsMissingCoordinates(merged) == 1
  {
  }

  /** With an empty Code-Point table every property row misses both
      coordinates, and the figure is twice the row count. */
  lemma {:induction false} NoCodePointMeansAllMissing<X>(properties: seq<PropertyRow<X>>)
    ensures RowsMissingCoordinates(MergeLatLon(properties, [])) == |MergeLatLon(properties, [])|
    ensures MissingCoordinateCells(MergeLatLon(properties, [])) == 2 * |MergeLatLon(properties, [])|
  {
    var merged := MergeLatLon(properties, []);
    forall i | 0 <= i < |merged|
      ensures NoLatitude(merged[i]) && NoLongitude(merged[i]) && NoCoordinates(merged[i])
    {
      MergedRowsOrigin(properties, [], merged[i]);
    }
    FilterAll(merged, NoLatitude);
    FilterAll(merged, NoLongitude);
    FilterAll(merged, NoCoordinates);
  }

  /** The whole script: read the folder, convert, normalise, merge, and
      report the missing coordinates, both as line 54 counts them (cells)
      and as the message on line 55 describes them (rows). A failure is
      the failure of reading the folder, with the same file. */
  method MergeCodePointLatLon<X>(files: seq<CsvFile>, properties: seq<PropertyRow<X>>,
                                 toLonLat: (Option<string>, Option<string>) -> (Option<real>, Option<real>))
    returns (r: Outcome<seq<MergedRow<X>>>, missingCells: nat, missingRows: nat)
    ensures r.Success? <==> CombineCodePoint(files).Success?
    ensures r.UnreadableFile? <==> CombineCodePoint(files).UnreadableFile?
    ensures r.MissingColumns? <==> CombineCodePoint(files).MissingColumns?
    ensures r.NoCsvFiles? <==> CombineCodePoint(files).NoCsvFiles?
    ensures (r.UnreadableFile? || r.MissingColumns?) ==> r.file == CombineCodePoint(files).file
    ensures !r.Success? ==> missingCells == 0 && missingRows == 0
    ensures r.Success? ==> r.value == MergeLatLon(properties, AddLonLat(CombineCodePoint(files).value, toLonLat))
    ensures r.Success? ==> forall p :: p in properties ==> exists m :: m in r.value && m.property == NormalizeProperty(p)
    ensures r.Success? ==> missingCells == MissingCoordinateCells(r.value) && missingCells <= 2 * |r.value|
    ensures r.Success? ==> missingRows == RowsMissingCoordinates(r.value) && missingRows <= |r.value|
  {
    missingCells, missingRows := 0, 0;
    var codepoint := ReadCodePointFolder(files);
    match codepoint {
      case Success(rows) =>
        r := Success(MergeLatLon(properties, AddLonLat(rows, toLonLat)));
        missingCells := MissingCoordinateCells(r.value);
        missingRows := RowsMissingCoordinates(r.value);
      case UnreadableFile(f) =>
        r := UnreadableFile(f);
      case MissingColumns(f) =>
        r := MissingColumns(f);
      case NoCsvFiles =>
        r := NoCsvFiles;
    }
  }
}
