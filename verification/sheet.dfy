/**
 The list-mode target supplier: the column filter over rows already fetched
 from the spreadsheet, and the `[:limit]` truncation applied before the
 profiles are visited.
 */
module Sheet {

  /** A spreadsheet cell as the sheet client returns it: text (empty for a
      blank cell), a whole number or a fractional number. */
  datatype Cell = Text(text: string) | Number(value: int) | Float(amount: real)

  /** One record: column header to cell. */
  type Row = map<string, Cell>

  /** Python truthiness of a cell value. */
  predicate Truthy(c: Cell)
  {
    match c
    case Text(t) => t != ""
    case Number(n) => n != 0
    case Float(x) => x != 0.0
  }

  /** `row.get(column)` is truthy: the column is present and its value is
      neither empty nor zero. */
  predicate Keeps(row: Row, column: string)
  {
    column in row && Truthy(row[column])
  }

  /** `[row[column] for row in records if row.get(column)]`. */
  function FilterColumn(records: seq<Row>, column: string): (values: seq<Cell>)
    ensures |values| <= |records|
    ensures forall k :: 0 <= k < |values| ==> Truthy(values[k])
  {
    if |records| == 0 then []
    else
      var last := records[|records| - 1];
      FilterColumn(records[..|records| - 1], column)
      + (if Keeps(last, column) then [last[column]] else [])
  }

  /** The indices of the rows the filter keeps, in row order. */
  function KeptRows(records: seq<Row>, column: string): (idx: seq<nat>)
    ensures forall k :: 0 <= k < |idx| ==> idx[k] < |records|
    ensures forall k, l :: 0 <= k < l < |idx| ==> idx[k] < idx[l]
    ensures forall i :: 0 <= i < |records| ==> (i in idx <==> Keeps(records[i], column))
  {
    if |records| == 0 then []
    else
      var n := |records| - 1;
      var prev := KeptRows(records[..n], column);
      assert forall i :: 0 <= i < n ==> records[..n][i] == records[i];
      if Keeps(records[n], column) then prev + [n] else prev
  }

  /** The filter yields exactly the column values of the kept rows, in the
      rows' order. */
  lemma {:induction false} FilterColumnSelectsKeptRows(records: seq<Row>, column: string)
    ensures |FilterColumn(records, column)| == |KeptRows(records, column)|
    ensures forall k :: 0 <= k < |KeptRows(records, column)| ==>
      column in records[KeptRows(records, column)[k]]
      && FilterColumn(records, column)[k] == records[KeptRows(records, column)[k]][column]
  {
    if |records| > 0 {
      var n := |records| - 1;
      FilterColumnSelectsKeptRows(records[..n], column);
      var prevIdx := KeptRows(records[..n], column);
      var prevVals := FilterColumn(records[..n], column);
      forall k | 0 <= k < |prevIdx|
        ensures records[..n][prevIdx[k]] == records[prevIdx[k]]
      {
      }
    }
  }

  /* ---------------------------------------------------------------------
     Python's s[:n]
     --------------------------------------------------------------------- */

  function Clamp(x: int, lo: int, hi: int): int
    requires lo <= hi
  {
    if x < lo then lo else if x > hi then hi else x
  }

  /** Python's `s[:n]`: a negative stop counts from the end, and the stop is
      then clamped to the sequence. */
  function PyPrefix<T>(s: seq<T>, n: int): (r: seq<T>)
    ensures r <= s
    ensures n >= 0 ==> |r| == if n < |s| then n else |s|
    ensures n < 0 ==> |r| == if -n < |s| then |s| + n else 0
  {
    var stop := if n < 0 then |s| + n else n;
    s[..Clamp(stop, 0, |s|)]
  }
}
