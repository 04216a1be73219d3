/**
 * The string operations of the server: `str.strip()`, the lower-casing used
 * to recognise the header cell, and joining and splitting on the tab character.
 */
module Text {

  const Tab: char := '\t'

  /** The characters Python's `str.isspace()` accepts, which `str.strip()` removes. */
  predicate IsSpace(c: char)
  {
    || c == ' ' || c == '\t' || c == '\n' || c == '\r' || c == '\U{B}' || c == '\U{C}'
    || ('\U{1C}' <= c <= '\U{1F}') || c == '\U{85}' || c == '\U{A0}' || c == '\U{1680}'
    || ('\U{2000}' <= c <= '\U{200A}') || c == '\U{2028}' || c == '\U{2029}' || c == '\U{202F}'
    || c == '\U{205F}' || c == '\U{3000}'
  }

  /** `s` with its leading whitespace removed. */
  function TrimLeft(s: string): (r: string)
    ensures |r| <= |s| && r == s[|s| - |r|..]
    ensures forall i :: 0 <= i < |s| - |r| ==> IsSpace(s[i])
    ensures r != [] ==> !IsSpace(r[0])
    decreases |s|
  {
    if s != [] && IsSpace(s[0]) then TrimLeft(s[1..]) else s
  }

  /** `s` with its trailing whitespace removed. */
  function TrimRight(s: string): (r: string)
    ensures |r| <= |s| && r == s[..|r|]
    ensures forall i :: |r| <= i < |s| ==> IsSpace(s[i])
    ensures r != [] ==> !IsSpace(r[|r| - 1])
    decreases |s|
  {
    if s != [] && IsSpace(s[|s| - 1]) then TrimRight(s[..|s| - 1]) else s
  }

  /** Python's `s.strip()`: a contiguous piece of `s`, everything cut away is
      whitespace, and the piece neither starts nor ends with whitespace. */
  function Strip(s: string): (r: string)
    ensures exists i, j ::
              && 0 <= i <= j <= |s| && r == s[i..j]
              && (forall k :: 0 <= k < i ==> IsSpace(s[k]))
              && (forall k :: j <= k < |s| ==> IsSpace(s[k]))
    ensures r != [] ==> !IsSpace(r[0]) && !IsSpace(r[|r| - 1])
  {
    var t := TrimLeft(s);
    var r := TrimRight(t);
    assert r == s[|s| - |t|..|s| - |t| + |r|];
    r
  }

  /** Lower-cases the ASCII letters and keeps every other character. */
  function LowerAscii(s: string): (r: string)
    ensures |r| == |s|
    ensures forall i :: 0 <= i < |s| ==>
      r[i] == (if 'A' <= s[i] <= 'Z' then (s[i] as int + 32) as char else s[i])
    ensures forall i :: 0 <= i < |r| ==> !('A' <= r[i] <= 'Z')
  {
    seq(|s|, i requires 0 <= i < |s| =>
      if 'A' <= s[i] <= 'Z' then (s[i] as int + 32) as char else s[i])
  }

  /** Python's `s.split('\t')`: the pieces between tabs, at least one. */
  function SplitTab(s: string): (r: seq<string>)
    ensures |r| >= 1
    ensures Tab !in s ==> r == [s]
    decreases |s|
  {
    if s == [] then [""]
    else if s[0] == Tab then [""] + SplitTab(s[1..])
    else
      var rest := SplitTab(s[1..]);
      assert Tab !in s ==> [s[0]] + s[1..] == s;
      [[s[0]] + rest[0]] + rest[1..]
  }

  /** Splitting a tab-free piece followed by a tab gives that piece first. */
  lemma {:induction false} SplitTabAfterPiece(a: string, b: string)
    requires Tab !in a
    ensures SplitTab(a + [Tab] + b) == [a] + SplitTab(b)
    decreases |a|
  {
    if a == [] {
      assert a + [Tab] + b == [Tab] + b;
      assert ([Tab] + b)[1..] == b;
    } else {
      assert (a + [Tab] + b)[1..] == a[1..] + [Tab] + b;
      SplitTabAfterPiece(a[1..], b);
      assert [a[0]] + a[1..] == a;
    }
  }

  /** `"\t".join(fields)` for a non-empty list of fields. */
  function JoinTab(fields: seq<string>): string
    requires |fields| >= 1
    decreases |fields|
  {
    if |fields| == 1 then fields[0] else fields[0] + [Tab] + JoinTab(fields[1..])
  }

  /** Number of tab characters in `s`. */
  function TabCount(s: string): nat
    decreases |s|
  {
    if s == [] then 0 else (if s[0] == Tab then 1 else 0) + TabCount(s[1..])
  }

  lemma {:induction false} TabCountAppend(a: string, b: string)
    ensures TabCount(a + b) == TabCount(a) + TabCount(b)
    decreases |a|
  {
    if a != [] {
      assert (a + b)[1..] == a[1..] + b;
      TabCountAppend(a[1..], b);
    } else {
      assert a + b == b;
    }
  }

  lemma {:induction false} TabCountNone(s: string)
    requires Tab !in s
    ensures TabCount(s) == 0
    decreases |s|
  {
    if s != [] {
      TabCountNone(s[1..]);
    }
  }

  /** Joining tab-free fields with tabs and splitting the result on tabs gives
      the fields back, and the joined text holds one tab fewer than there are fields. */
  lemma {:induction false} JoinSplitRoundTrip(fields: seq<string>)
    requires |fields| >= 1
    requires forall i :: 0 <= i < |fields| ==> Tab !in fields[i]
    ensures SplitTab(JoinTab(fields)) == fields
    ensures TabCount(JoinTab(fields)) == |fields| - 1
    decreases |fields|
  {
    if |fields| == 1 {
      TabCountNone(fields[0]);
    } else {
      JoinSplitRoundTrip(fields[1..]);
      SplitTabAfterPiece(fields[0], JoinTab(fields[1..]));
      assert [fields[0]] + fields[1..] == fields;
      TabCountAppend(fields[0] + [Tab], JoinTab(fields[1..]));
      TabCountAppend(fields[0], [Tab]);
      TabCountNone(fields[0]);
    }
  }
}
