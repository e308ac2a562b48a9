/**
 The cursor of a paginated query, `{ cursor: { id }, skip: 1 }`, over rows of any kind, listed
 in the order of the query together with their ids.
 */
module Cursor {
  import opened Common

  predicate Distinct(ids: seq<string>) {
    forall i, j :: 0 <= i < j < |ids| ==> ids[i] != ids[j]
  }

  /** The rows past the cursor: all of them without one (an empty one is none), none if its row is gone. */
  function Past<T>(ids: seq<string>, rows: seq<T>, cursor: Option<string>): seq<T>
    requires |ids| == |rows|
  {
    if cursor.None? || cursor.value == "" then rows
    else if ids == [] then []
    else if ids[0] == cursor.value then rows[1..]
    else Past(ids[1..], rows[1..], cursor)
  }

  lemma {:induction false} PastIsSuffix<T>(ids: seq<string>, rows: seq<T>, cursor: Option<string>) returns (k: nat)
    requires |ids| == |rows|
    ensures k <= |rows| && Past(ids, rows, cursor) == rows[k..]
  {
    if cursor.None? || cursor.value == "" || ids == [] {
      k := 0;
    } else if ids[0] == cursor.value {
      k := 1;
    } else {
      var rest := PastIsSuffix(ids[1..], rows[1..], cursor);
      k := rest + 1;
    }
  }

  /** Without a cursor nothing is passed over, and past a row that is gone there is nothing. */
  lemma {:induction false} PastElsewhere<T>(ids: seq<string>, rows: seq<T>, cursor: Option<string>)
    requires |ids| == |rows|
    ensures cursor == None || cursor == Some("") ==> Past(ids, rows, cursor) == rows
    ensures cursor.Some? && cursor.value != "" && cursor.value !in ids ==> Past(ids, rows, cursor) == []
  {
    if cursor.Some? && cursor.value != "" && cursor.value !in ids && ids != [] {
      PastElsewhere(ids[1..], rows[1..], cursor);
    }
  }

  /** Past a row's own id comes everything after the row. */
  lemma {:induction false} PastAt<T>(ids: seq<string>, rows: seq<T>, i: nat)
    requires |ids| == |rows| && Distinct(ids) && i < |ids| && ids[i] != ""
    ensures Past(ids, rows, Some(ids[i])) == rows[i + 1..]
  {
    if i == 0 {
    } else {
      PastAt(ids[1..], rows[1..], i - 1);
    }
  }
}
