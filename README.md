# Ship data replay server: the data-preparation pipeline

`src/ship_data_server.py` replays recorded AIS position reports to websocket
clients. Before it serves anything it builds two module-level values:

- `mmsi_length_map`, a table from vessel MMSI to vessel length, read from a
  "classic" CSV file whose fifth column is the length;
- `ship_data`, the list of position records inside the port's bounding box
  (longitude 120.036 to 120.503, latitude 35.9 to 36.3) with a positive speed
  over ground, each carrying the vessel length from the table, ordered by
  timestamp.

It then sends each client one tab-separated line per record, walking the
list round and round, or one error message if the list is empty.

This project models that pipeline in Dafny:

| file | module | models |
|---|---|---|
| `wrappers.dfy` | `Wrappers` | `Option`, standing for "the call raised" |
| `text.dfy` | `Text` | `str.strip()`, the lower-casing of the header cell, joining and splitting on tabs |
| `datetimes.dfy` | `DateTimes` | naive `datetime` values and their ordering |
| `library.dfy` | `Library` | `float()`, `datetime.strptime`, `datetime.fromtimestamp` and `str(float)`, passed in as functions |
| `length_table.dfy` | `LengthTable` | the row-by-row fold of `read_mmsi_length_map` |
| `records.dfy` | `Records` | the filter and projection of `read_ship_data_from_csv` |
| `stable_sort.dfy` | `StableSort` | the contract of `list.sort(key=...)`: a stable sort by key under a total preorder |
| `timestamp_sort.dfy` | `TimestampSort` | the `sort_by_timestamp` key and the sort of `ship_data` by it |
| `wire_line.dfy` | `WireLine` | the tab-joined data line and the cyclic playback order |
| `server.dfy` | `Server` | class `ShipDataServer`: the two globals and the loops that fill, sort and play them |

The loops of the source are methods of `ShipDataServer`. Each method is proved
against a specification function, and the lemmas beside that function state
what the source promises:

- `ReadMmsiLengthMap` updates the table in place. It is proved equal to
  `LengthTable.Build`.
- `ReadShipDataFromCsv` builds its list with appends. It is proved equal to
  `Records.ShipDataOf`.
- `SortShipData` reorders the list. It is proved equal to `TimestampSort.SortByTimestamp`.
- `HandleClient` advances `data_index`. It is proved equal to `WireLine.Transcript`.

Points where the model follows the code and not a reading of its comments:

- A record whose `ts` matches none of the four formats and is not a POSIX
  timestamp gets the key 1900-01-01. Such records therefore sort BEFORE every
  record with a later date (`TimestampSort.UnreadableFirst`). The comment at
  line 119 says they are meant to sort last; the code at lines 120 and 123 puts
  them first.
- `read_ship_data_from_csv` parses latitude, longitude and speed for every row.
  The first `float()` that raises abandons the whole list: the function returns
  `[]`, not the rows read so far (`Records.ShipDataOf`).
- The table is keyed by the STRIPPED first cell of the classic file. The
  lookup uses the position file's `mmsi` text exactly as read, without
  stripping (`Records.Project`).
- The first row whose stripped, lower-cased first cell is `mmsi` is skipped as
  a header, wherever it occurs. Later such rows are data rows. A data row with
  `mmsi` as its first cell and a numeric fifth cell therefore writes the key
  `mmsi` (`LengthTable.HeaderSkippedOnce`).
- `str.lower()` is modelled as ASCII lower-casing. Its result is only compared
  with `"mmsi"`, and no character outside ASCII lower-cases to a single `m`,
  `s` or `i`, so the comparison comes out the same.

## Model

| member | source | states |
|---|---|---|
| `Server.ShipDataServer.constructor` | src/ship_data_server.py:20-21 | the table and the record list start empty |
| `Text.Strip` | src/ship_data_server.py:42-45 | `strip()` returns a contiguous piece of its argument; only whitespace (Python's `isspace` set) is cut from either end, and the piece neither starts nor ends with whitespace |
| `LengthTable.RowEntry` | src/ship_data_server.py:41-45 | a row writes an entry exactly when it has at least 5 cells and its stripped fifth cell parses; the entry is (stripped first cell, parsed length) |
| `LengthTable.DataStep` | src/ship_data_server.py:41-49 | a short row or an unparseable length leaves the table unchanged; otherwise the entry's key maps to the new length, the key set grows by that key alone and every other key keeps its value |
| `Text.LowerAscii` | src/ship_data_server.py:37 | `.lower()` on the header cell: same length, ASCII capitals become their small letters, every other character is kept, and no ASCII capital is left |
| `LengthTable.Step` | src/ship_data_server.py:36-49 | one loop iteration: the flag goes up exactly when it was down and the row is a header row, and that row writes nothing; every other row, later header rows included, is handled by `DataStep` |
| `LengthTable.Fold` | src/ship_data_server.py:35-49 | after the loop the flag is set exactly when it started set or some row is a header row; no key is ever removed from the table |
| `LengthTable.Build` | src/ship_data_server.py:25-49 | the table `read_mmsi_length_map` leaves behind keeps every key it started with |
| `LengthTable.HeaderSkippedOnce` | src/ship_data_server.py:35-49 | only the first header row is skipped: the result equals handling every row before it and every row after it as data rows, later header rows included, and the flag ends up set |
| `LengthTable.NoHeaderNothingSkipped` | src/ship_data_server.py:35-49 | with no header row, every row is handled as a data row |
| `LengthTable.FoldAfterHeader` | src/ship_data_server.py:37-49 | once the flag is set, the header test never fires again |
| `LengthTable.LastWriteWins` | src/ship_data_server.py:41-46 | a key ends with the length written by the last row whose entry has that key |
| `LengthTable.DataFoldWritesAll` | src/ship_data_server.py:41-49 | the data rows write their entries into the table one after another, in file order |
| `LengthTable.WriteAllLastWins` | src/ship_data_server.py:46 | whatever the entries, a key ends with the value of its last write |
| `LengthTable.BuildSkipsHeader` | src/ship_data_server.py:35-49 | with the first header row at `h`, the table is the one the rows would give with that row removed |
| `LengthTable.BuildLastWriteWins` | src/ship_data_server.py:35-49 | for the whole loop, header included: a key ends with the length written by the last row, other than the skipped header, whose entry has that key |
| `LengthTable.UnwrittenKeyUnchanged` | src/ship_data_server.py:41-49 | a key no row writes keeps its presence or absence and its value |
| `Server.ShipDataServer.ReadMmsiLengthMap` | src/ship_data_server.py:25-53 | the loop with its `header_skipped` flag leaves the global table equal to the fold `Build` over the rows, starting from the table it found; the record list is untouched |
| `Records.InRegion` | src/ship_data_server.py:73 | an admitted point lies within latitude 35.9 to 36.3 and longitude 120.036 to 120.503 with positive speed; the corners of the box are admitted (bounds included); zero or negative speed is refused |
| `Records.Keep` | src/ship_data_server.py:66-73 | a kept row's latitude, longitude and speed all parse; whatever the length table, a row is kept exactly when the record built from it, judged on its own text, is in the box and moving |
| `Records.Project` | src/ship_data_server.py:74-87 | a kept record copies lat, mmsi, cog, lng, sog, ts and heading text unchanged; its length is `str` of the table's value for the raw `mmsi` text, or `str(0.0)` when the table has no such key |
| `Records.KeptIndices` | src/ship_data_server.py:66-73 | the kept rows are exactly the rows inside the box, bounds included, with speed above 0: every kept row passes, every passing row is kept, in increasing input order |
| `Records.KeptSnoc` | src/ship_data_server.py:66-87 | one more input row appends its record exactly when the row passes the filter |
| `Records.ShipDataOf` | src/ship_data_server.py:56-93 | if any row's lat, lng or sog fails to parse, the result is empty; every returned record's own lat, lng and sog text parses to a point in the box with positive speed |
| `Server.ShipDataServer.ReadShipDataFromCsv` | src/ship_data_server.py:56-93 | the append loop, with its early exit on the first failed parse, returns exactly `ShipDataOf` of the rows and the current table |
| `TimestampSort.FirstFormat` | src/ship_data_server.py:108-114 | returns the result of the first format that parses the text, after every earlier format failed; returns nothing only when all formats fail |
| `TimestampSort.TimestampKey` | src/ship_data_server.py:105-123 | the key is the first format's result; failing that, the text read as a POSIX timestamp; failing that, 1900-01-01 00:00:00 |
| `TimestampSort.ShipKey` | src/ship_data_server.py:126 | the sort key of a record is `sort_by_timestamp` of its `ts` field, so two records with the same `ts` text get the same key |
| `StableSort.Insert` | src/ship_data_server.py:126 | inserting adds exactly the one element: the result's multiset is the input's plus it |
| `StableSort.InsertSorted` | src/ship_data_server.py:126 | inserting into a sorted list keeps it sorted |
| `StableSort.InsertWithKey` | src/ship_data_server.py:126 | an inserted element goes before the elements already present with the same key |
| `StableSort.SortBy` | src/ship_data_server.py:126 | under a total preorder on keys, the sorted list is non-decreasing in the key and a permutation (same multiset) of the input |
| `StableSort.SortByStable` | src/ship_data_server.py:126 | for every key, the elements with that key keep their input order |
| `TimestampSort.NotAfterIsTotalPreorder` | src/ship_data_server.py:126 | Python's `datetime` order is total and transitive, so it can order the sort |
| `TimestampSort.SortByTimestamp` | src/ship_data_server.py:126 | the records sorted by `sort_by_timestamp` are in non-decreasing timestamp order and are a permutation of the input |
| `TimestampSort.SortByTimestampStable` | src/ship_data_server.py:126 | records with equal timestamp keys keep their input order |
| `TimestampSort.EarlierKeyFirst` | src/ship_data_server.py:126 | in a list sorted by timestamp key, an element with a strictly earlier key stands before any element with a later key |
| `TimestampSort.UnreadableFirst` | src/ship_data_server.py:116-126 | after sorting, a record with the 1900-01-01 key stands before every record with a later key |
| `Server.ShipDataServer.SortShipData` | src/ship_data_server.py:101-129 | the global list becomes `SortByTimestamp` of itself; the table is untouched |
| `Server.ShipDataServer.Initialise` | src/ship_data_server.py:95-129 | start-up loads the table, then the records with that table, then sorts them |
| `Text.SplitTab` | src/ship_data_server.py:152 | splitting on tabs yields at least one piece, and a tab-free text yields itself |
| `Text.JoinSplitRoundTrip` | src/ship_data_server.py:152 | joining tab-free fields with tabs and splitting again gives the fields back; the joined text has one tab fewer than there are fields |
| `WireLine.DataLine` | src/ship_data_server.py:150-152 | with tab-free fields, the line holds exactly seven tabs and splitting it on tabs gives back lat, mmsi, cog, lng, sog, ts, heading, length, in that order |
| `WireLine.NextIndex` | src/ship_data_server.py:159 | the next index stays below `len` and wraps to 0 exactly after the last index |
| `WireLine.NextIndexIsMod` | src/ship_data_server.py:159 | that step is the source's `(data_index + 1) % len(ship_data)` |
| `WireLine.CycleIndex` | src/ship_data_server.py:144-159 | `data_index` stays in [0, len) at every step |
| `WireLine.CycleAdvance` | src/ship_data_server.py:159 | fewer than `len` steps after any step, the index has moved on by that many, wrapping past the end at most once |
| `WireLine.Transcript` | src/ship_data_server.py:138-159 | an empty list yields the error message as its only send (nothing when no send is observed); otherwise send k is the line of the record at `data_index` k |
| `WireLine.RotatedAt` | src/ship_data_server.py:159 | `j` steps after any step, the index points at item `j` of the list rotated to the index that step reached |
| `WireLine.CycleWindow` | src/ship_data_server.py:144-159 | any `len` consecutive steps of the cycle meet the list rotated to the current index |
| `WireLine.WindowIsRotation` | src/ship_data_server.py:144-159 | any `len` consecutive sends are every record's line once, in list order, starting from the record the cycle has reached |
| `WireLine.VisitedOncePerWindow` | src/ship_data_server.py:144-159 | in any `len` consecutive steps each record index is sent at exactly one step |
| `Server.ShipDataServer.HandleClient` | src/ship_data_server.py:132-162 | the send loop, cut after `steps` sends, produces exactly `Transcript` of the global list |

## Left out

- The websocket server, `connected_clients`, `websocket.send`, `asyncio.sleep` and `ConnectionClosed` handling are network I/O and concurrency. `HandleClient` returns the messages it would send.
- `HandleClient`: the endless `while True` loop is modelled for a given number of sends. With an empty list the handler sends the error message once and returns, so the transcript of any positive number of sends is that one message.
- Opening files and CSV tokenising (`os.path`, `open`, `csv.reader`, `csv.DictReader`) are I/O. The classic file is a sequence of rows of cells; the position file is a sequence of `CsvRow` values with named text fields.
- A missing column in the position file (`KeyError`) or a short row read as `None` by `csv.DictReader` is not modelled: every `CsvRow` has every field.
- `float()`, `datetime.strptime`, `datetime.fromtimestamp` and `str(float)` are library code. They are parameters of type `Library`, returning `None` where the call raises.
- Floating point: coordinates, speeds and lengths are reals. NaN, infinities and the rounding of the literals 120.036 and similar are not modelled.
- Failures opening or reading either file are not modelled. A failing `open` (line 32) raises before any row is read, so `read_mmsi_length_map` would leave the table as it was. An error raised by the CSV iterator partway through the file (a `UnicodeDecodeError` or `csv.Error` at line 36, outside the inner `try`) would leave the table holding the rows read so far. In `read_ship_data_from_csv` either failure returns an empty list (lines 91-93).
- The `print` logging is not modelled.
- `list.sort` is Timsort. The model states its contract (ordered, permutation, stable) through a reference insertion sort, so the sorting algorithm itself is not modelled.
