/**
 * What the server sends to a client: one tab-separated line per record, in
 * the fixed order lat, mmsi, cog, lng, sog, ts, heading, length, walking the
 * record list round and round; or a single error message when the list is empty.
 */
module WireLine {
  import opened Text
  import opened Records

  /** The message sent when no record was loaded. */
  const ErrorMessage: string := "错误: 无法读取或解析CSV文件"

  /** The eight fields of a record in wire order. */
  function Fields(rec: ShipRecord): (r: seq<string>)
    ensures |r| == 8
  {
    [rec.lat, rec.mmsi, rec.cog, rec.lng, rec.sog, rec.ts, rec.heading, rec.length]
  }

  /** No field of the record contains a tab. */
  predicate TabFree(rec: ShipRecord)
  {
    forall i :: 0 <= i < 8 ==> Tab !in Fields(rec)[i]
  }

  /** The line sent for a record: its eight fields in wire order, joined by
      tabs. With tab-free fields the line holds exactly seven tabs and
      splitting it on tabs gives back lat, mmsi, cog, lng, sog, ts, heading, length. */
  function DataLine(rec: ShipRecord): (line: string)
    ensures TabFree(rec) ==> TabCount(line) == 7
    ensures TabFree(rec) ==> SplitTab(line) == [rec.lat, rec.mmsi, rec.cog, rec.lng, rec.sog, rec.ts, rec.heading, rec.length]
  {
    var line := JoinTab(Fields(rec));
    assert TabFree(rec) ==> TabCount(line) == 7 && SplitTab(line) == Fields(rec) by {
      if TabFree(rec) {
        JoinSplitRoundTrip(Fields(rec));
      }
    }
    line
  }

  /** One step of `data_index`: the next index, wrapping to 0 after the last. */
  function NextIndex(i: nat, n: nat): (r: nat)
    requires i < n
    ensures r < n
    ensures r == if i + 1 == n then 0 else i + 1
  {
    if i + 1 == n then 0 else i + 1
  }

  /** The step is the source's `(data_index + 1) % len(ship_data)`. */
  lemma NextIndexIsMod(i: nat, n: nat)
    requires i < n
    ensures NextIndex(i, n) == (i + 1) % n
  {
  }

  /** The value of `data_index` at `step`, starting from 0. */
  function CycleIndex(step: nat, n: nat): (r: nat)
    requires n > 0
    ensures r < n
  {
    if step == 0 then 0 else NextIndex(CycleIndex(step - 1, n), n)
  }

  /** The first `steps` items met when walking `items` round and round from index 0. */
  function Cycle<T>(items: seq<T>, steps: nat): (r: seq<T>)
    requires items != []
    ensures |r| == steps
  {
    seq(steps, k requires 0 <= k < steps => items[CycleIndex(k, |items|)])
  }

  /** One more step of the cycle appends the item at the current index. */
  lemma CycleSnoc<T>(items: seq<T>, steps: nat)
    requires items != []
    ensures Cycle(items, steps + 1) == Cycle(items, steps) + [items[CycleIndex(steps, |items|)]]
  {
  }

  /** The lines of the records, in list order. */
  function Lines(data: seq<ShipRecord>): (r: seq<string>)
    ensures |r| == |data| && forall i :: 0 <= i < |data| ==> r[i] == DataLine(data[i])
  {
    seq(|data|, i requires 0 <= i < |data| => DataLine(data[i]))
  }

  /** The messages a client receives during its first `steps` sends: for an
      empty list the error message, the only send before the handler returns;
      otherwise the record lines in cycle. */
  function Transcript(data: seq<ShipRecord>, steps: nat): (r: seq<string>)
    ensures data == [] ==> r == if steps == 0 then [] else [ErrorMessage]
    ensures data != [] ==> |r| == steps
    ensures data != [] ==> forall k :: 0 <= k < steps ==> r[k] == DataLine(data[CycleIndex(k, |data|)])
  {
    if data == [] then (if steps == 0 then [] else [ErrorMessage]) else Cycle(Lines(data), steps)
  }

  /** `j` steps after `s` the index has moved on by `j`, wrapping once past the end. */
  lemma {:induction false} CycleAdvance(s: nat, j: nat, n: nat)
    requires j < n
    ensures var c := CycleIndex(s, n);
            CycleIndex(s + j, n) == if c + j < n then c + j else c + j - n
    decreases j
  {
    if j > 0 {
      CycleAdvance(s, j - 1, n);
    }
  }

  lemma RotationAt<T>(s: seq<T>, c: nat, j: nat)
    requires c <= |s| && j < |s|
    ensures (s[c..] + s[..c])[j] == if c + j < |s| then s[c + j] else s[c + j - |s|]
  {
  }

  /** `j` steps after step `s` the index points at item `j` of the list
      rotated to the index reached at step `s`. */
  lemma RotatedAt<T>(items: seq<T>, s: nat, j: nat)
    requires j < |items|
    ensures var c := CycleIndex(s, |items|);
            items[CycleIndex(s + j, |items|)] == (items[c..] + items[..c])[j]
  {
    var n := |items|;
    var c := CycleIndex(s, n);
    RotationAt(items, c, j);
    CycleAdvance(s, j, n);
  }

  /** Any `|items|` consecutive steps of the cycle meet every item once, in
      list order, starting from the item the cycle has reached. */
  lemma CycleWindow<T>(items: seq<T>, steps: nat, s: nat)
    requires items != [] && s + |items| <= steps
    ensures var c := CycleIndex(s, |items|);
            Cycle(items, steps)[s..s + |items|] == items[c..] + items[..c]
  {
    var n := |items|;
    var c := CycleIndex(s, n);
    var t := Cycle(items, steps);
    var rot := items[c..] + items[..c];
    forall j | 0 <= j < n ensures t[s + j] == rot[j] {
      RotatedAt(items, s, j);
    }
    SliceMatches(t, s, rot);
  }

  /** A slice equals a sequence that agrees with it at every position. */
  lemma SliceMatches<T>(t: seq<T>, s: nat, u: seq<T>)
    requires s + |u| <= |t|
    requires forall j :: 0 <= j < |u| ==> t[s + j] == u[j]
    ensures t[s..s + |u|] == u
  {
  }

  /** Any `|data|` consecutive sends deliver every record's line once, in list
      order, starting from the record the cycle has reached. */
  lemma WindowIsRotation(data: seq<ShipRecord>, steps: nat, s: nat)
    requires data != [] && s + |data| <= steps
    ensures var c := CycleIndex(s, |data|);
            Transcript(data, steps)[s..s + |data|] == Lines(data)[c..] + Lines(data)[..c]
  {
    assert Transcript(data, steps) == Cycle(Lines(data), steps);
    CycleWindow(Lines(data), steps, s);
  }

  /** In any `n` consecutive steps each index below `n` is visited at exactly one step. */
  lemma VisitedOncePerWindow(n: nat, s: nat, i: nat)
    requires i < n
    ensures var c := CycleIndex(s, n);
            var k := if c <= i then s + (i - c) else s + (n - c + i);
            s <= k < s + n && CycleIndex(k, n) == i
            && forall k' :: s <= k' < s + n && CycleIndex(k', n) == i ==> k' == k
  {
    var c := CycleIndex(s, n);
    var k := if c <= i then s + (i - c) else s + (n - c + i);
    CycleAdvance(s, k - s, n);
    forall k' | s <= k' < s + n && CycleIndex(k', n) == i ensures k' == k {
      CycleAdvance(s, k' - s, n);
    }
  }
}
