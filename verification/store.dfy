/** The CSV file of results (`save_to_csv` and `get_scraped_cities_from_csv`, new.py): rows are
    appended batch by batch, the header is written only into an empty file, and the set of
    cities already scraped is read back from the `City` column. */
module Store {
  import opened Text
  import opened Details
  import opened Listings

  /** The thirteen columns of the file, in order. */
  const Columns: seq<string> := [
    "City", "Car Name", "Price", "Kilometers Driven", "Transmission", "Fuel Type",
    "Manufacturing Year", "Number of Owners", "Color", "Car Available At", "Insurance",
    "Registration", "URL"
  ]

  /** One row as the crawler builds it (`car_data`): column name to value. */
  type Row = map<string, string>

  /** A row the writer accepts. `DictWriter` is made with the default `extrasaction='raise'`,
      so a row with a key outside the columns raises `ValueError` instead of being written. */
  predicate Fits(row: Row) {
    forall k {:trigger IsColumn(k)} :: k in row ==> IsColumn(k)
  }

  predicate IsColumn(name: string) {
    name in Columns
  }

  /** Every row of a batch fits. */
  predicate AllFit(rows: seq<Row>) {
    forall i :: 0 <= i < |rows| ==> Fits(rows[i])
  }

  /** Every row of every batch fits. */
  predicate BatchesFit(batches: seq<seq<Row>>) {
    forall i :: 0 <= i < |batches| ==> AllFit(batches[i])
  }

  /** A line of the file: the header, or the cells of one data row. A missing file and an empty
      file are both the empty store. */
  datatype Line = Header(names: seq<string>) | Data(cells: seq<string>)

  type Store = seq<Line>

  /** What a CSV reader sees on a line, whichever kind it was written as. */
  function Cells(line: Line): seq<string> {
    match line
    case Header(names) => names
    case Data(cells) => cells
  }

  /** `car_data = {"City": city.capitalize(), "Car Name": ..., "URL": ..., **details}`: the
      three listing columns and the ten detail fields, which share no name, so the row has
      exactly the file's columns and the writer neither leaves a cell empty nor rejects a key. */
  function CarRow(city: string, car: Car, page: Lookup): (r: Row)
    ensures "City" in r && "Car Name" in r && "URL" in r
    ensures r["City"] == Capitalize(city) && r["Car Name"] == car.name && r["URL"] == car.url
    ensures forall f :: f in DetailFields ==> f in r && r[f] == CarDetails(page)[f]
  {
    ColumnsSplit();
    map["City" := Capitalize(city), "Car Name" := car.name, "URL" := car.url] + CarDetails(page)
  }

  /** A car row has exactly the file's columns: the writer leaves no cell of it empty and
      rejects none of its keys. */
  lemma {:induction false} CarRowColumns(city: string, car: Car, page: Lookup)
    ensures Fits(CarRow(city, car, page))
    ensures forall c :: IsColumn(c) ==> c in CarRow(city, car, page)
  {
    ColumnsSplit();
  }

  /** The value in the `City` column of a row, empty when absent (the writer's `restval`). */
  function CityCell(row: Row): string {
    if "City" in row then row["City"] else ""
  }

  /** The columns are the three listing columns and the ten detail fields, which share no name. */
  lemma {:induction false} ColumnsSplit()
    ensures forall c :: IsColumn(c) <==> c == "City" || c == "Car Name" || c == "URL" || c in DetailFields
    ensures "City" !in DetailFields && "Car Name" !in DetailFields && "URL" !in DetailFields
  {
  }

  /** The cells `DictWriter` writes for a row it accepts: its value for each column, in column
      order, and the empty string (`restval`) for a column the row lacks. */
  function Written(row: Row): (cells: seq<string>)
    requires Fits(row)
    ensures |cells| == |Columns| == 13
    ensures cells[0] == CityCell(row)
    ensures forall i :: 0 <= i < |Columns| && Columns[i] in row ==> cells[i] == row[Columns[i]]
  {
    seq(|Columns|, i requires 0 <= i < |Columns| => if Columns[i] in row then row[Columns[i]] else "")
  }

  /** A column the row lacks is written as the empty string (`restval`). */
  lemma {:induction false} WrittenBlank(row: Row)
    requires Fits(row)
    ensures forall i :: 0 <= i < |Columns| && Columns[i] !in row ==> Written(row)[i] == ""
  {
  }

  /** The lines `writerows` adds for `rows`. */
  function DataLines(rows: seq<Row>): (lines: seq<Line>)
    requires AllFit(rows)
    ensures |lines| == |rows|
    ensures forall i :: 0 <= i < |rows| ==> lines[i] == Data(Written(rows[i]))
  {
    seq(|rows|, i requires 0 <= i < |rows| => Data(Written(rows[i])))
  }

  /** A file this program could have written: empty, or its header followed by data rows only. */
  ghost predicate WellFormed(store: Store) {
    store == [] || (store[0] == Header(Columns) && forall i :: 1 <= i < |store| ==> store[i].Data?)
  }

  /** `save_to_csv(data)`: open for appending; if nothing has been written yet (`f.tell() == 0`)
      write the header; then one line per row. What was there stays. */
  function SaveToCsv(store: Store, rows: seq<Row>): (r: Store)
    requires AllFit(rows)
    ensures |r| == |store| + (if store == [] then 1 else 0) + |rows|
    ensures r[..|store|] == store
    ensures store == [] ==> r[0] == Header(Columns)
    ensures r[|r| - |rows|..] == DataLines(rows)
  {
    (if store == [] then [Header(Columns)] else []) + store + DataLines(rows)
  }

  /** Appending keeps a file well formed: the header is written when the file is empty and never
      again, so it is the first line and the only one. */
  lemma {:induction false} SaveKeepsWellFormed(store: Store, rows: seq<Row>)
    requires WellFormed(store) && AllFit(rows)
    ensures WellFormed(SaveToCsv(store, rows))
    ensures SaveToCsv(store, rows) != []
  {
    var r := SaveToCsv(store, rows);
    forall i | 1 <= i < |r| ensures r[i].Data? {
      if i < |store| {
        assert r[i] == r[..|store|][i];
      }
    }
  }

  /** The effect of a sequence of `save_to_csv` calls, in order: the file only grows. */
  function SaveAll(store: Store, batches: seq<seq<Row>>): (r: Store)
    requires BatchesFit(batches)
    ensures store <= r
    decreases batches
  {
    if batches == [] then store
    else SaveAll(SaveToCsv(store, batches[0]), batches[1..])
  }

  /** After one or more saves starting from an empty file, the header with its thirteen columns
      is the first line and every other line is a data row. */
  lemma {:induction false} HeaderOnce(store: Store, batches: seq<seq<Row>>)
    requires WellFormed(store) && BatchesFit(batches)
    requires store != [] || batches != []
    ensures WellFormed(SaveAll(store, batches)) && SaveAll(store, batches) != []
    ensures SaveAll(store, batches)[0] == Header(Columns) && |SaveAll(store, batches)[0].names| == 13
    ensures forall i :: 1 <= i < |SaveAll(store, batches)| ==> SaveAll(store, batches)[i].Data?
    decreases batches
  {
    if batches != [] {
      SaveKeepsWellFormed(store, batches[0]);
      HeaderOnce(SaveToCsv(store, batches[0]), batches[1..]);
    }
  }

  /** The header is written exactly when the file is empty before the append. */
  lemma {:induction false} HeaderIffEmpty(store: Store, rows: seq<Row>)
    requires WellFormed(store) && AllFit(rows)
    ensures SaveToCsv(store, rows)[0] == Header(Columns)
    ensures (exists i :: |store| <= i < |SaveToCsv(store, rows)| && SaveToCsv(store, rows)[i].Header?)
            <==> store == []
  {
    var r := SaveToCsv(store, rows);
    if store != [] {
      assert r[0] == r[..|store|][0];
      forall i | |store| <= i < |r| ensures r[i].Data? {
      }
    } else {
      assert r[0].Header?;
    }
  }

  /** The city recorded on a line, as `row["City"].strip().lower()` reads it back. */
  function CityRead(line: Line): set<string> {
    if Cells(line) == [] then {} else {Lower(Strip(Cells(line)[0]))}
  }

  /** The cities read from data lines, in file order. */
  function CitiesIn(lines: seq<Line>): set<string> {
    if lines == [] then {} else CitiesIn(lines[..|lines| - 1]) + CityRead(lines[|lines| - 1])
  }

  /** `get_scraped_cities_from_csv`: every line after the header names a scraped city; a missing
      or empty file names none. The `City` column is the first, as in the header written here. */
  function ScrapedCities(store: Store): (cities: set<string>)
    ensures store == [] ==> cities == {}
  {
    if store == [] then {} else CitiesIn(store[1..])
  }

  /** Reading lines appended after others adds their cities to the ones already read. */
  lemma {:induction false} CitiesInAppend(a: seq<Line>, b: seq<Line>)
    ensures CitiesIn(a + b) == CitiesIn(a) + CitiesIn(b)
  {
    if b != [] {
      var init := b[..|b| - 1];
      assert (a + b)[..|a + b| - 1] == a + init;
      assert (a + b)[|a + b| - 1] == b[|b| - 1];
      CitiesInAppend(a, init);
    } else {
      assert a + b == a;
    }
  }

  /** The cities the `City` cells of `rows` read back as. */
  function RowCities(rows: seq<Row>): set<string> {
    if rows == [] then {} else RowCities(rows[..|rows| - 1]) + {Lower(Strip(CityCell(rows[|rows| - 1])))}
  }

  /** The cities on freshly written rows are the read-back values of their `City` cells. */
  lemma {:induction false} CitiesInRows(rows: seq<Row>)
    requires AllFit(rows)
    ensures CitiesIn(DataLines(rows)) == RowCities(rows)
  {
    if rows != [] {
      var init := rows[..|rows| - 1];
      assert DataLines(rows)[..|rows| - 1] == DataLines(init);
      CitiesInRows(init);
    }
  }

  /** Rows all written for one city read back as that city alone, when the city is a key. */
  lemma {:induction false} RowCitiesOfCity(rows: seq<Row>, city: string)
    requires rows != [] && IsKey(city)
    requires forall i :: 0 <= i < |rows| ==> CityCell(rows[i]) == Capitalize(city)
    ensures RowCities(rows) == {city}
  {
    CapitalizeReadBack(city);
    var init := rows[..|rows| - 1];
    if init != [] {
      RowCitiesOfCity(init, city);
    }
  }

  /** Saving rows adds to the scraped cities exactly the cities those rows name. */
  lemma {:induction false} ScrapedAfterSave(store: Store, rows: seq<Row>)
    requires WellFormed(store) && AllFit(rows)
    ensures ScrapedCities(SaveToCsv(store, rows))
            == ScrapedCities(store) + RowCities(rows)
  {
    var lines := DataLines(rows);
    var r := SaveToCsv(store, rows);
    if store == [] {
      assert r[1..] == lines;
    } else {
      assert r[1..] == store[1..] + lines;
      CitiesInAppend(store[1..], lines);
    }
    CitiesInRows(rows);
  }

  /** Saving one sequence of batches and then another is saving their concatenation. */
  lemma {:induction false} SaveAllConcat(store: Store, a: seq<seq<Row>>, b: seq<seq<Row>>)
    requires BatchesFit(a) && BatchesFit(b)
    ensures BatchesFit(a + b)
    ensures SaveAll(store, a + b) == SaveAll(SaveAll(store, a), b)
    decreases a
  {
    if a == [] {
      assert a + b == b;
    } else {
      assert (a + b)[0] == a[0] && (a + b)[1..] == a[1..] + b;
      assert BatchesFit(a[1..]);
      SaveAllConcat(SaveToCsv(store, a[0]), a[1..], b);
    }
  }

  /** Rows whose `City` column says `city.capitalize()`. */
  ghost predicate RowsFor(rows: seq<Row>, city: string) {
    forall i :: 0 <= i < |rows| ==> CityCell(rows[i]) == Capitalize(city)
  }

  /** Saving non-empty batches of rows for one city marks exactly that city as scraped, and
      saving none marks nothing. */
  lemma {:induction false} ScrapedAfterSaves(store: Store, batches: seq<seq<Row>>, city: string)
    requires WellFormed(store) && IsKey(city) && BatchesFit(batches)
    requires forall i :: 0 <= i < |batches| ==> batches[i] != [] && RowsFor(batches[i], city)
    ensures WellFormed(SaveAll(store, batches))
    ensures ScrapedCities(SaveAll(store, batches))
            == ScrapedCities(store) + (if batches == [] then {} else {city})
    decreases batches
  {
    if batches != [] {
      var next := SaveToCsv(store, batches[0]);
      ScrapedAfterSave(store, batches[0]);
      RowCitiesOfCity(batches[0], city);
      SaveKeepsWellFormed(store, batches[0]);
      ScrapedAfterSaves(next, batches[1..], city);
    }
  }
}
