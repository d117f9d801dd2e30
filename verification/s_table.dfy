/**
 * `TSMLuaParser.find_s_table_location`: the line span of the `["S"]` items
 * table, found by a line-by-line brace count.
 */
module STable {
  import opened Strings
  import opened LuaScan

  /** `\["S"\]\s*=\s*\{` or `\[S\]\s*=\s*\{` starting at `p`. */
  predicate SMarkerAt(line: string, p: nat)
  {
    || (OccursAt(line, "[\"S\"]", p) && AssignmentOpen(line, p + 5, '{') != -1)
    || (OccursAt(line, "[S]", p) && AssignmentOpen(line, p + 3, '{') != -1)
  }

  /** `re.search` of either marker pattern finds a match somewhere in the line. */
  predicate HasSMarker(line: string)
  {
    exists p :: 0 <= p <= |line| && SMarkerAt(line, p)
  }

  /** `line.count('{') - line.count('}')` */
  function Net(line: string): int
  {
    Count(line, '{') - Count(line, '}')
  }

  /** The brace count accumulated over lines `start` through `j`. */
  function Cum(lines: seq<string>, start: nat, j: nat): int
    requires start <= j < |lines|
    decreases j
  {
    if j == start then Net(lines[start]) else Cum(lines, start, j - 1) + Net(lines[j])
  }

  predicate NoMarkerIn(lines: seq<string>, lo: int, hi: int)
    requires 0 <= hi <= |lines|
  {
    forall j :: lo <= j < hi && 0 <= j ==> !HasSMarker(lines[j])
  }

  /** Lines `s` through `e` form a table: a marker line, no later marker, a positive count until `e`, and `e` closes it. */
  predicate ClosedTable(lines: seq<string>, s: int, e: int)
  {
    && 0 <= s < e < |lines| && HasSMarker(lines[s]) && NoMarkerIn(lines, s + 1, e + 1)
    && (forall j :: s < j < e ==> Cum(lines, s, j) > 0)
    && Cum(lines, s, e) <= 0
  }

  /** The last marker line is `s` and the table it opens never closes. */
  predicate OpenTable(lines: seq<string>, s: int)
  {
    && 0 <= s < |lines| && HasSMarker(lines[s]) && NoMarkerIn(lines, s + 1, |lines|)
    && forall j :: s < j < |lines| ==> Cum(lines, s, j) > 0
  }

  /**
   * What the loop knows before line `i`: no marker so far, or a marker at
   * `start` with `count` its running total; and no table closes before `i`,
   * since the loop would have stopped there.
   */
  ghost predicate ScanState(lines: seq<string>, i: nat, start: int, count: int)
  {
    && i <= |lines| && -1 <= start < i
    && (start == -1 ==> NoMarkerIn(lines, 0, i))
    && (start != -1 ==>
      && HasSMarker(lines[start]) && NoMarkerIn(lines, start + 1, i)
      && count == Cum(lines, start, i - 1)
      && forall j :: start < j < i ==> Cum(lines, start, j) > 0)
    && forall s, e :: ClosedTable(lines, s, e) ==> i <= e
  }

  /**
   * The loop over the lines from `i` on. A marker line (re)starts the table
   * with that line's own brace count; after it, each line adds its count, and
   * the first line where the total is `<= 0` ends the table. The table found
   * is the first one to close: no table that starts earlier closes at all,
   * and when none closes the result is open.
   */
  function ScanLines(lines: seq<string>, i: nat, start: int, count: int): (r: (int, int))
    requires ScanState(lines, i, start, count)
    ensures r.0 == -1 <==> NoMarkerIn(lines, 0, |lines|)
    ensures r.0 == -1 ==> r.1 == -1
    ensures r.1 != -1 ==> ClosedTable(lines, r.0, r.1)
    ensures r.0 != -1 && r.1 == -1 ==> OpenTable(lines, r.0)
    ensures forall s, e :: 0 <= s < r.0 ==> !ClosedTable(lines, s, e)
    ensures r.1 == -1 ==> forall s, e :: !ClosedTable(lines, s, e)
    decreases |lines| - i
  {
    if i == |lines| then
      if start != -1 then MarkerBlocks(lines, start); (start, -1) else (start, -1)
    else if HasSMarker(lines[i]) then
      MarkerBlocks(lines, i);
      ScanStateAtMarker(lines, i, start, count);
      ScanLines(lines, i + 1, i, Net(lines[i]))
    else if start != -1 then
      var c := count + Net(lines[i]);
      MarkerBlocks(lines, start);
      if c <= 0 then
        ScanStateCloses(lines, i, start, count);
        (start, i)
      else
        ScanStateInTable(lines, i, start, count);
        ScanLines(lines, i + 1, start, c)
    else
      ScanStateBeforeMarker(lines, i, count);
      ScanLines(lines, i + 1, start, count)
  }

  /** A marker line restarts the table with the line's own count. */
  lemma ScanStateAtMarker(lines: seq<string>, i: nat, start: int, count: int)
    requires ScanState(lines, i, start, count) && i < |lines| && HasSMarker(lines[i])
    ensures ScanState(lines, i + 1, i, Net(lines[i]))
  {
    NoCloseAtMarker(lines, i);
  }

  /** A line inside the table that leaves the count positive extends the table. */
  lemma ScanStateInTable(lines: seq<string>, i: nat, start: int, count: int)
    requires ScanState(lines, i, start, count) && i < |lines| && !HasSMarker(lines[i])
    requires start != -1 && count + Net(lines[i]) > 0
    ensures ScanState(lines, i + 1, start, count + Net(lines[i]))
  {
    NoMarkerStep(lines, start + 1, i);
    CumStep(lines, start, i, count);
    NoCloseWhilePositive(lines, start, i, count);
  }

  /** A line inside the table that brings the count to at most 0 closes the first table to close. */
  lemma ScanStateCloses(lines: seq<string>, i: nat, start: int, count: int)
    requires ScanState(lines, i, start, count) && i < |lines| && !HasSMarker(lines[i])
    requires start != -1 && count + Net(lines[i]) <= 0
    ensures ClosedTable(lines, start, i)
    ensures forall s, e :: 0 <= s < start ==> !ClosedTable(lines, s, e)
  {
    NoMarkerStep(lines, start + 1, i);
    NoEarlierClose(lines, start, i);
  }

  /** A line before any marker changes nothing but the position. */
  lemma ScanStateBeforeMarker(lines: seq<string>, i: nat, count: int)
    requires ScanState(lines, i, -1, count) && i < |lines| && !HasSMarker(lines[i])
    ensures ScanState(lines, i + 1, -1, count)
  {
    NoMarkerStep(lines, 0, i);
    NoCloseWithoutMarker(lines, i);
  }

  /** A table that starts before a marker line and ends at or after it is not a table. */
  lemma MarkerInside(lines: seq<string>, s: int, e: int, m: nat)
    requires s < m <= e < |lines| && HasSMarker(lines[m])
    ensures !ClosedTable(lines, s, e)
  {
  }

  /** No table closes on a marker line: that line starts a new one. */
  lemma NoCloseAtMarker(lines: seq<string>, i: nat)
    requires i < |lines| && HasSMarker(lines[i])
    ensures forall s :: !ClosedTable(lines, s, i)
  {
    forall s | 0 <= s < i ensures !ClosedTable(lines, s, i) {
      MarkerInside(lines, s, i, i);
    }
  }

  /** With no marker up to and including line `i`, no table closes at `i`. */
  lemma NoCloseWithoutMarker(lines: seq<string>, i: nat)
    requires i < |lines| && NoMarkerIn(lines, 0, i + 1)
    ensures forall s :: !ClosedTable(lines, s, i)
  {
  }

  /** While the count of the open table stays positive, no table closes at line `i`. */
  lemma NoCloseWhilePositive(lines: seq<string>, start: nat, i: nat, count: int)
    requires start < i < |lines| && !HasSMarker(lines[i])
    requires HasSMarker(lines[start]) && NoMarkerIn(lines, start + 1, i + 1)
    requires Cum(lines, start, i) > 0
    ensures forall s :: !ClosedTable(lines, s, i)
  {
    forall s | 0 <= s < i ensures !ClosedTable(lines, s, i) {
      if s < start {
        MarkerInside(lines, s, i, start);
      }
    }
  }

  /** When the table at `start` closes at `i`, no table that starts earlier closes anywhere. */
  lemma NoEarlierClose(lines: seq<string>, start: nat, i: nat)
    requires start < i < |lines| && HasSMarker(lines[start])
    requires forall s, e :: ClosedTable(lines, s, e) ==> i <= e
    ensures forall s, e :: 0 <= s < start ==> !ClosedTable(lines, s, e)
  {
    forall s, e | 0 <= s < start ensures !ClosedTable(lines, s, e) {
      if ClosedTable(lines, s, e) {
        MarkerInside(lines, s, e, start);
      }
    }
  }

  lemma NoMarkerStep(lines: seq<string>, lo: int, i: nat)
    requires i < |lines| && NoMarkerIn(lines, lo, i) && !HasSMarker(lines[i])
    ensures NoMarkerIn(lines, lo, i + 1)
  {
  }

  lemma MarkerBlocks(lines: seq<string>, j: nat)
    requires j < |lines| && HasSMarker(lines[j])
    ensures !NoMarkerIn(lines, 0, |lines|)
  {
  }

  /** A line that leaves the running count positive extends the open table by one line. */
  lemma CumStep(lines: seq<string>, start: nat, i: nat, count: int)
    requires start < i < |lines| && count == Cum(lines, start, i - 1)
    requires forall j :: start < j < i ==> Cum(lines, start, j) > 0
    requires count + Net(lines[i]) > 0
    ensures count + Net(lines[i]) == Cum(lines, start, i)
    ensures forall j :: start < j < i + 1 ==> Cum(lines, start, j) > 0
  {
  }

  /**
   * What `find_s_table_location` promises about a result: (-1, -1) when no
   * line holds the marker; otherwise the first table to close, or, when no
   * table closes, the last marker line with -1.
   */
  ghost predicate LocationSpec(lines: seq<string>, r: (int, int))
  {
    && (r.0 == -1 <==> NoMarkerIn(lines, 0, |lines|))
    && (r.0 == -1 ==> r.1 == -1)
    && (r.1 != -1 ==> ClosedTable(lines, r.0, r.1))
    && (r.0 != -1 && r.1 == -1 ==> OpenTable(lines, r.0))
    && (forall s, e :: 0 <= s < r.0 ==> !ClosedTable(lines, s, e))
    && (r.1 == -1 ==> forall s, e :: !ClosedTable(lines, s, e))
  }

  /** `find_s_table_location`: the lines are the text split on newlines. */
  function FindSTableLocation(content: string): (r: (int, int))
    ensures r.0 == -1 <==> NoMarkerIn(Split(content, '\n'), 0, |Split(content, '\n')|)
    ensures r.0 == -1 ==> r.1 == -1
    ensures r.1 != -1 ==> ClosedTable(Split(content, '\n'), r.0, r.1)
    ensures r.0 != -1 && r.1 == -1 ==> OpenTable(Split(content, '\n'), r.0)
    ensures forall s, e :: 0 <= s < r.0 ==> !ClosedTable(Split(content, '\n'), s, e)
    ensures r.1 == -1 ==> forall s, e :: !ClosedTable(Split(content, '\n'), s, e)
  {
    ScanLines(Split(content, '\n'), 0, -1, 0)
  }

  /** A table that closes at `e1` does not also close at a later `e2`. */
  lemma CloseIsFirst(lines: seq<string>, s: int, e1: int, e2: int)
    requires ClosedTable(lines, s, e1) && ClosedTable(lines, s, e2)
    ensures e1 == e2
  {
  }

  /** At most one result meets the promise, so the promise determines the answer. */
  lemma LocationSpecUnique(lines: seq<string>, a: (int, int), b: (int, int))
    requires LocationSpec(lines, a) && LocationSpec(lines, b)
    ensures a == b
  {
    if a.1 != -1 && b.1 != -1 {
      CloseIsFirst(lines, a.0, a.1, b.1);
    }
  }

  /** Whatever meets the promise on the lines of a text is the location the scan finds. */
  lemma FindSTableLocationUnique(content: string, r: (int, int))
    requires LocationSpec(Split(content, '\n'), r)
    ensures r == FindSTableLocation(content)
  {
    LocationSpecUnique(Split(content, '\n'), r, FindSTableLocation(content));
  }
}
