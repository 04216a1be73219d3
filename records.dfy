/**
 * The rows of the position file and the records `read_ship_data_from_csv`
 * keeps: the rows inside the port's bounding box with a positive speed,
 * their text fields copied through and their length looked up in the table.
 */
module Records {
  import opened Library

  /** One row of the position file, by column name, as the CSV reader yields it. */
  datatype CsvRow = CsvRow(
    mmsi: string, lat: string, lng: string, cog: string,
    sog: string, heading: string, ts: string)

  /** One entry of `ship_data`: all eight fields are text. */
  datatype ShipRecord = ShipRecord(
    lat: string, mmsi: string, cog: string, lng: string,
    sog: string, ts: string, heading: string, length: string)

  const MinLng: real := 120.036
  const MaxLng: real := 120.503
  const MinLat: real := 35.9
  const MaxLat: real := 36.3

  /** The admission test: inside the box, bounds included, and moving. */
  predicate InRegion(lat: real, lng: real, sog: real): (b: bool)
    ensures b ==> MinLat <= lat <= MaxLat && MinLng <= lng <= MaxLng && sog > 0.0
    ensures (lat == MinLat || lat == MaxLat) && (lng == MinLng || lng == MaxLng) && sog > 0.0 ==> b
    ensures sog <= 0.0 ==> !b
  {
    lng >= MinLng && lng <= MaxLng && lat >= MinLat && lat <= MaxLat && sog > 0.0
  }

  /** `float()` accepts the row's latitude, longitude and speed. */
  predicate RowParses(lib: Library, row: CsvRow)
  {
    lib.parseFloat(row.lat).Some? && lib.parseFloat(row.lng).Some? && lib.parseFloat(row.sog).Some?
  }

  /** The row parses and passes the admission test. Whatever the table, the
      row is kept exactly when the record built from it, judged on its own
      text fields, is in the box and moving. */
  predicate Keep(lib: Library, row: CsvRow): (b: bool)
    ensures b ==> RowParses(lib, row)
    ensures forall lengths :: b <==> InBox(lib, Project(lib, lengths, row))
  {
    && RowParses(lib, row)
    && InRegion(lib.parseFloat(row.lat).value, lib.parseFloat(row.lng).value, lib.parseFloat(row.sog).value)
  }

  /** The record built from a kept row: the seven text fields unchanged and the
      length as `str` of the table's value for the row's MMSI, or of 0.0. */
  function Project(lib: Library, lengths: map<string, real>, row: CsvRow): (r: ShipRecord)
    ensures r.lat == row.lat && r.mmsi == row.mmsi && r.cog == row.cog && r.lng == row.lng
    ensures r.sog == row.sog && r.ts == row.ts && r.heading == row.heading
    ensures row.mmsi in lengths ==> r.length == lib.floatStr(lengths[row.mmsi])
    ensures row.mmsi !in lengths ==> r.length == lib.floatStr(0.0)
  {
    var length := if row.mmsi in lengths then lengths[row.mmsi] else 0.0;
    ShipRecord(row.lat, row.mmsi, row.cog, row.lng, row.sog, row.ts, row.heading, lib.floatStr(length))
  }

  /** The positions of the kept rows: exactly the rows that pass, in input order. */
  function KeptIndices(lib: Library, rows: seq<CsvRow>): (r: seq<nat>)
    ensures forall k :: 0 <= k < |r| ==> r[k] < |rows| && Keep(lib, rows[r[k]])
    ensures forall k, l :: 0 <= k < l < |r| ==> r[k] < r[l]
    ensures forall j :: 0 <= j < |rows| && Keep(lib, rows[j]) ==> j in r
    decreases |rows|
  {
    if rows == [] then []
    else
      var n := |rows| - 1;
      var prefix := KeptIndices(lib, rows[..n]);
      assert forall k :: 0 <= k < |prefix| ==> rows[..n][prefix[k]] == rows[prefix[k]];
      prefix + (if Keep(lib, rows[n]) then [n] else [])
  }

  /** The records of the kept rows, in input order. */
  function Kept(lib: Library, lengths: map<string, real>, rows: seq<CsvRow>): seq<ShipRecord>
  {
    var ids := KeptIndices(lib, rows);
    seq(|ids|, k requires 0 <= k < |ids| => Project(lib, lengths, rows[ids[k]]))
  }

  /** A record is inside the box and moving, judged on its own text fields. */
  predicate InBox(lib: Library, rec: ShipRecord)
  {
    && lib.parseFloat(rec.lat).Some? && lib.parseFloat(rec.lng).Some? && lib.parseFloat(rec.sog).Some?
    && InRegion(lib.parseFloat(rec.lat).value, lib.parseFloat(rec.lng).value, lib.parseFloat(rec.sog).value)
  }

  /** What `read_ship_data_from_csv` returns: the kept records when every row's
      latitude, longitude and speed parse, and the empty list otherwise (the
      first failing `float()` abandons the whole list). Every record returned
      is in the box and moving. */
  function ShipDataOf(lib: Library, lengths: map<string, real>, rows: seq<CsvRow>): (r: seq<ShipRecord>)
    ensures (exists j :: 0 <= j < |rows| && !RowParses(lib, rows[j])) ==> r == []
    ensures forall k :: 0 <= k < |r| ==> InBox(lib, r[k])
  {
    if forall j :: 0 <= j < |rows| ==> RowParses(lib, rows[j]) then Kept(lib, lengths, rows) else []
  }

  /** Appending a row to the input appends its record to the kept records
      exactly when the row passes. */
  lemma KeptSnoc(lib: Library, lengths: map<string, real>, rows: seq<CsvRow>, row: CsvRow)
    ensures Kept(lib, lengths, rows + [row])
         == Kept(lib, lengths, rows) + (if Keep(lib, row) then [Project(lib, lengths, row)] else [])
  {
    var all := rows + [row];
    assert all[..|rows|] == rows;
    var ids := KeptIndices(lib, rows);
    assert forall k :: 0 <= k < |ids| ==> all[ids[k]] == rows[ids[k]];
  }
}
