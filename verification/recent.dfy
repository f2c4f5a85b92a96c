/**
 The "Recent Sales Activity" table: the whole history sorted by timestamp,
 newest first. The sort the dashboard calls does not promise stability, so the
 contract fixes only what it does promise: the same rows, in non-increasing
 timestamp order. The definition below is one such sort (an insertion sort
 that keeps rows with equal timestamps in arrival order).
 */
module RecentActivity {
  import opened Sales

  /** Timestamps never increase along `rows`. */
  predicate NewestFirst(rows: seq<Sale>) {
    forall i, j :: 0 <= i < j < |rows| ==> rows[i].timestamp >= rows[j].timestamp
  }

  /** Place `s` in front of the first row that is not newer than it. */
  function Insert(s: Sale, sorted: seq<Sale>): (r: seq<Sale>)
    requires NewestFirst(sorted)
    ensures NewestFirst(r)
    ensures multiset(r) == multiset(sorted) + multiset{s}
    ensures |r| > 0 && (r[0] == s || (|sorted| > 0 && r[0] == sorted[0]))
    decreases |sorted|
  {
    if sorted == [] || sorted[0].timestamp <= s.timestamp then
      PrependNewest(s, sorted);
      [s] + sorted
    else
      var rest := Insert(s, sorted[1..]);
      assert sorted == [sorted[0]] + sorted[1..];
      PrependNewest(sorted[0], rest);
      [sorted[0]] + rest
  }

  /** A row at least as new as the first row of a newest-first list can go in front. */
  lemma {:induction false} PrependNewest(x: Sale, rows: seq<Sale>)
    requires NewestFirst(rows)
    requires |rows| == 0 || x.timestamp >= rows[0].timestamp
    ensures NewestFirst([x] + rows)
  {
    var r := [x] + rows;
    forall i, j | 0 <= i < j < |r|
      ensures r[i].timestamp >= r[j].timestamp
    {
      assert r[j] == rows[j - 1];
      if i > 0 {
        assert r[i] == rows[i - 1];
      }
    }
  }

  /** `sort_values(by="timestamp", ascending=False)` over the history. */
  function NewestFirstView(buf: seq<Sale>): (r: seq<Sale>)
    ensures NewestFirst(r)
    ensures multiset(r) == multiset(buf)
    decreases |buf|
  {
    if buf == [] then []
    else
      assert buf == [buf[0]] + buf[1..];
      Insert(buf[0], NewestFirstView(buf[1..]))
  }

  /** Timestamps strictly increase along `rows` (each sale stamped after the one before). */
  predicate ClockAdvances(rows: seq<Sale>) {
    forall i, j :: 0 <= i < j < |rows| ==> rows[i].timestamp < rows[j].timestamp
  }

  function Reverse(rows: seq<Sale>): (r: seq<Sale>)
    ensures |r| == |rows|
    ensures forall i :: 0 <= i < |rows| ==> r[i] == rows[|rows| - 1 - i]
    decreases |rows|
  {
    if rows == [] then [] else Reverse(rows[1..]) + [rows[0]]
  }

  /** A row older than every sorted row goes to the end. */
  lemma {:induction false} InsertOldest(s: Sale, sorted: seq<Sale>)
    requires NewestFirst(sorted)
    requires forall i :: 0 <= i < |sorted| ==> s.timestamp < sorted[i].timestamp
    ensures Insert(s, sorted) == sorted + [s]
    decreases |sorted|
  {
    if sorted != [] {
      InsertOldest(s, sorted[1..]);
      assert [sorted[0]] + (sorted[1..] + [s]) == sorted + [s];
    }
  }

  /** When every sale is stamped after the previous one, the table lists the
      history exactly in reverse arrival order. */
  lemma {:induction false} NewestFirstViewReversesArrival(buf: seq<Sale>)
    requires ClockAdvances(buf)
    ensures NewestFirstView(buf) == Reverse(buf)
    decreases |buf|
  {
    if buf != [] {
      var rest := buf[1..];
      assert ClockAdvances(rest);
      NewestFirstViewReversesArrival(rest);
      var sorted := NewestFirstView(rest);
      assert sorted == Reverse(rest);
      forall i | 0 <= i < |sorted|
        ensures buf[0].timestamp < sorted[i].timestamp
      {
        assert sorted[i] == rest[|rest| - 1 - i] == buf[|rest| - i];
      }
      InsertOldest(buf[0], sorted);
    }
  }
}
