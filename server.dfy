/**
 * The replay server's state: the global MMSI-to-length table and the global
 * record list, the loops that fill and order them, and the loop that plays the
 * list to a connected client.
 */
module Server {
  import opened Wrappers
  import opened Text
  import opened Library
  import opened LengthTable
  import opened Records
  import opened TimestampSort
  import opened WireLine

  class ShipDataServer {
    /** `mmsi_length_map`: MMSI to vessel length. */
    var mmsiLengthMap: map<string, real>
    /** `ship_data`: the records played to clients. */
    var shipData: seq<ShipRecord>

    constructor ()
      ensures mmsiLengthMap == map[] && shipData == []
    {
      mmsiLengthMap := map[];
      shipData := [];
    }

    /** `read_mmsi_length_map` over the rows of the classic file: updates the
        table in place and leaves the record list alone. */
    method ReadMmsiLengthMap(rows: seq<seq<string>>, lib: Library)
      modifies this
      ensures mmsiLengthMap == Build(lib, old(mmsiLengthMap), rows)
      ensures shipData == old(shipData)
    {
      var headerSkipped := false;
      for i := 0 to |rows|
        invariant FoldState(mmsiLengthMap, headerSkipped)
               == Fold(lib, FoldState(old(mmsiLengthMap), false), rows[..i])
        invariant shipData == old(shipData)
      {
        var row := rows[i];
        ghost var start := FoldState(old(mmsiLengthMap), false);
        ghost var next := Step(lib, FoldState(mmsiLengthMap, headerSkipped), row);
        assert rows[..i + 1][..i] == rows[..i];
        assert Fold(lib, start, rows[..i + 1]) == next;
        if !headerSkipped && |row| > 0 && LowerAscii(Strip(row[0])) == "mmsi" {
          headerSkipped := true;
          continue;
        }
        if |row| >= 5 {
          var mmsi := Strip(row[0]);
          match lib.parseFloat(Strip(row[4]))
          case Some(length) =>
            mmsiLengthMap := mmsiLengthMap[mmsi := length];
          case None =>
        }
        assert FoldState(mmsiLengthMap, headerSkipped) == next;
      }
      assert rows[..|rows|] == rows;
    }

    /** `read_ship_data_from_csv` over the rows of the position file: the
        records of the rows in the box with a positive speed, in file order,
        or the empty list as soon as a latitude, longitude or speed fails to parse. */
    method ReadShipDataFromCsv(rows: seq<CsvRow>, lib: Library) returns (data: seq<ShipRecord>)
      ensures data == ShipDataOf(lib, mmsiLengthMap, rows)
    {
      var kept: seq<ShipRecord> := [];
      for i := 0 to |rows|
        invariant forall j :: 0 <= j < i ==> RowParses(lib, rows[j])
        invariant kept == Kept(lib, mmsiLengthMap, rows[..i])
      {
        var row := rows[i];
        var lat := lib.parseFloat(row.lat);
        if lat.None? { return []; }
        var lng := lib.parseFloat(row.lng);
        if lng.None? { return []; }
        var sog := lib.parseFloat(row.sog);
        if sog.None? { return []; }
        KeptSnoc(lib, mmsiLengthMap, rows[..i], row);
        assert rows[..i + 1] == rows[..i] + [row];
        if InRegion(lat.value, lng.value, sog.value) {
          var mmsi := row.mmsi;
          var length := if mmsi in mmsiLengthMap then mmsiLengthMap[mmsi] else 0.0;
          kept := kept + [ShipRecord(row.lat, mmsi, row.cog, row.lng, row.sog,
                                     row.ts, row.heading, lib.floatStr(length))];
        }
      }
      assert rows[..|rows|] == rows;
      data := kept;
    }

    /** `ship_data.sort(key=sort_by_timestamp)`, run only on a non-empty list. */
    method SortShipData(lib: Library)
      modifies this
      ensures shipData == SortByTimestamp(lib, old(shipData))
      ensures mmsiLengthMap == old(mmsiLengthMap)
    {
      if shipData != [] {
        shipData := SortByTimestamp(lib, shipData);
      }
    }

    /** The start-up sequence: load the table, load the records, sort them. */
    method Initialise(lengthRows: seq<seq<string>>, csvRows: seq<CsvRow>, lib: Library)
      modifies this
      ensures mmsiLengthMap == Build(lib, old(mmsiLengthMap), lengthRows)
      ensures shipData == SortByTimestamp(lib, ShipDataOf(lib, mmsiLengthMap, csvRows))
    {
      ReadMmsiLengthMap(lengthRows, lib);
      shipData := ReadShipDataFromCsv(csvRows, lib);
      SortShipData(lib);
    }

    /** `handle_client` for its first `steps` sends: the error message when
        there is no record, otherwise the line of the record at `data_index`,
        which advances by one modulo the list length after every send. */
    method HandleClient(steps: nat) returns (sent: seq<string>)
      ensures sent == Transcript(shipData, steps)
    {
      if shipData == [] {
        sent := if steps == 0 then [] else [ErrorMessage];
        return;
      }
      var dataIndex := 0;
      sent := [];
      for step := 0 to steps
        invariant dataIndex == CycleIndex(step, |shipData|)
        invariant sent == Cycle(Lines(shipData), step)
      {
        var current := shipData[dataIndex];
        CycleSnoc(Lines(shipData), step);
        sent := sent + [DataLine(current)];
        NextIndexIsMod(dataIndex, |shipData|);
        dataIndex := (dataIndex + 1) % |shipData|;
      }
    }
  }
}
