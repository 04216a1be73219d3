/**
 * The ordering of `ship_data` by timestamp: the key `sort_by_timestamp`
 * computes from a record's `ts` text, and the stable sort `list.sort` performs.
 *
 * A `ts` that matches no format and is not a number gets the key 1900-01-01,
 * so such records come BEFORE every record with a later key (the comment in
 * the source says they are meant to come last; the code puts them first).
 */
module TimestampSort {
  import opened Wrappers
  import opened DateTimes
  import opened Library
  import opened Records
  import opened StableSort

  /** The formats tried, in order. */
  const TimestampFormats: seq<string> :=
    ["%Y-%m-%d %H:%M:%S", "%Y/%m/%d %H:%M:%S", "%d-%m-%Y %H:%M:%S", "%m/%d/%Y %H:%M:%S"]

  /** The key of a timestamp nothing can parse: 1900-01-01 00:00:00. */
  const Sentinel: DateTime := DateTime(1900, 1, 1, 0, 0, 0, 0)

  /** The result of the first format in `formats` that parses `ts`, if any. */
  function FirstFormat(lib: Library, ts: string, formats: seq<string>): (r: Option<DateTime>)
    ensures r.None? ==> forall i :: 0 <= i < |formats| ==> lib.strptime(ts, formats[i]).None?
    ensures r.Some? ==> exists i :: 0 <= i < |formats| && lib.strptime(ts, formats[i]) == r
                          && forall j :: 0 <= j < i ==> lib.strptime(ts, formats[j]).None?
    decreases |formats|
  {
    if formats == [] then None
    else
      match lib.strptime(ts, formats[0])
      case Some(d) => Some(d)
      case None =>
        var rest := FirstFormat(lib, ts, formats[1..]);
        assert forall i :: 1 <= i < |formats| ==> formats[1..][i - 1] == formats[i];
        rest
  }

  /** `sort_by_timestamp`: the first format that parses; otherwise the text as
      a POSIX timestamp; otherwise the sentinel. */
  function TimestampKey(lib: Library, ts: string): (r: DateTime)
    ensures FirstFormat(lib, ts, TimestampFormats).Some? ==> r == FirstFormat(lib, ts, TimestampFormats).value
    ensures FirstFormat(lib, ts, TimestampFormats).None? && lib.parseFloat(ts).Some?
            && lib.fromTimestamp(lib.parseFloat(ts).value).Some?
            ==> r == lib.fromTimestamp(lib.parseFloat(ts).value).value
    ensures FirstFormat(lib, ts, TimestampFormats).None?
            && (lib.parseFloat(ts).None? || lib.fromTimestamp(lib.parseFloat(ts).value).None?)
            ==> r == Sentinel
  {
    match FirstFormat(lib, ts, TimestampFormats)
    case Some(d) => d
    case None =>
      match lib.parseFloat(ts)
      case Some(x) => lib.fromTimestamp(x).GetOr(Sentinel)
      case None => Sentinel
  }

  /** Python's `datetime` order is a total preorder, so it can drive the sort. */
  lemma NotAfterIsTotalPreorder()
    ensures TotalPreorder(NotAfter)
  {
    forall a, b ensures NotAfter(a, b) || NotAfter(b, a) {
      NotAfterTotal(a, b);
    }
    forall a, b, c | NotAfter(a, b) && NotAfter(b, c) ensures NotAfter(a, c) {
      NotAfterTransitive(a, b, c);
    }
  }

  /** The key `ship_data.sort` uses: `sort_by_timestamp` applied to the record's `ts`. */
  function ShipKey(lib: Library): (key: ShipRecord -> DateTime)
    ensures forall rec :: key(rec) == TimestampKey(lib, rec.ts)
    ensures forall a: ShipRecord, b: ShipRecord :: a.ts == b.ts ==> key(a) == key(b)
  {
    (rec: ShipRecord) => TimestampKey(lib, rec.ts)
  }

  /** `ship_data.sort(key=sort_by_timestamp)`. */
  function SortByTimestamp(lib: Library, data: seq<ShipRecord>): (r: seq<ShipRecord>)
    ensures SortedBy(r, ShipKey(lib), NotAfter)
    ensures multiset(r) == multiset(data)
  {
    NotAfterIsTotalPreorder();
    SortBy(data, ShipKey(lib), NotAfter)
  }

  /** For every timestamp key, the records with that key keep their order. */
  lemma SortByTimestampStable(lib: Library, data: seq<ShipRecord>, k: DateTime)
    ensures WithKey(SortByTimestamp(lib, data), ShipKey(lib), k) == WithKey(data, ShipKey(lib), k)
  {
    NotAfterIsTotalPreorder();
    SortByStable(data, ShipKey(lib), NotAfter, k);
  }

  /** In a list sorted by a timestamp key, an element with a strictly earlier
      key stands before one with a later key. */
  lemma {:induction false} EarlierKeyFirst<T>(r: seq<T>, key: T -> DateTime, i: nat, j: nat)
    requires SortedBy(r, key, NotAfter)
    requires i < |r| && j < |r| && Before(key(r[j]), key(r[i]))
    ensures j < i
  {
    if i < j {
      NotAfterAntisymmetric(key(r[i]), key(r[j]));
    }
  }

  /** After sorting, a record whose timestamp could not be read (key
      1900-01-01) stands before every record whose key is later. */
  lemma UnreadableFirst(lib: Library, data: seq<ShipRecord>)
    ensures var r := SortByTimestamp(lib, data);
            forall i, j :: 0 <= i < |r| && 0 <= j < |r|
              && TimestampKey(lib, r[j].ts) == Sentinel && Before(Sentinel, TimestampKey(lib, r[i].ts))
              ==> j < i
  {
    var r := SortByTimestamp(lib, data);
    forall i, j | 0 <= i < |r| && 0 <= j < |r|
      && TimestampKey(lib, r[j].ts) == Sentinel && Before(Sentinel, TimestampKey(lib, r[i].ts))
      ensures j < i
    {
      EarlierKeyFirst(r, ShipKey(lib), i, j);
    }
  }
}
