/**
 * Rows read with Python's `csv.reader`: each row is its list of fields. A
 * blank line reads as a row without fields, and code that indexes
 * `row[0]` raises there, ending the loop over the file.
 */
module Csv {
  /** The position of the first row without fields, or |rows| when every row has one. */
  function FirstEmpty(rows: seq<seq<string>>): (n: nat)
    ensures n <= |rows|
    ensures forall i :: 0 <= i < n ==> |rows[i]| > 0
    ensures n < |rows| ==> |rows[n]| == 0
  {
    if |rows| == 0 then 0
    else if |rows[0]| == 0 then 0
    else 1 + FirstEmpty(rows[1..])
  }
}
