/**
 The bounded sales history. Each rerun concatenates the new sale after the
 stored rows and keeps only the last `Capacity` of them, so the history is a
 first-in first-out window over the sales generated so far.
 */
module RollingBuffer {
  import opened Sales

  /** The number of rows `tail` keeps. */
  const Capacity: nat := 500

  function Min(a: int, b: int): int {
    if a <= b then a else b
  }

  /** `tail(n)`: the last `n` elements of `xs`, or all of them when there are fewer. */
  function Tail<T>(xs: seq<T>, n: nat): (r: seq<T>)
    ensures |r| == Min(n, |xs|)
    ensures r == xs[|xs| - |r|..]
  {
    if |xs| <= n then xs else xs[|xs| - n..]
  }

  /** A history the session can hold: within capacity, and only generated sales. */
  predicate Valid(buf: seq<Sale>) {
    |buf| <= Capacity && forall s :: s in buf ==> WellFormed(s)
  }

  /** One update of the history: concatenate the new sale, then keep the last
      `Capacity` rows. */
  function Append(buf: seq<Sale>, s: Sale): (r: seq<Sale>)
    ensures |r| <= Capacity
    ensures |r| == Min(Capacity, |buf| + 1)
    ensures |r| > 0 && r[|r| - 1] == s
    ensures r == (buf + [s])[|buf| + 1 - |r|..]
    ensures |buf| < Capacity ==> r == buf + [s]
    ensures |buf| == Capacity ==> r == buf[1..] + [s]
  {
    Tail(buf + [s], Capacity)
  }

  /** Appending a generated sale keeps the history valid. */
  lemma {:induction false} AppendPreservesValid(buf: seq<Sale>, s: Sale)
    requires Valid(buf)
    requires WellFormed(s)
    ensures Valid(Append(buf, s))
  {
    TailElements(buf + [s], Capacity);
    assert forall x :: x in buf + [s] ==> x in buf || x == s;
  }

  /** `tail` only ever returns rows it was given. */
  lemma {:induction false} TailElements<T>(xs: seq<T>, n: nat)
    ensures forall x :: x in Tail(xs, n) ==> x in xs
  {
    var t := Tail(xs, n);
    forall x | x in t
      ensures x in xs
    {
      var i :| 0 <= i < |t| && t[i] == x;
      assert x == xs[|xs| - |t| + i];
    }
  }

  /** The history after appending `events` one at a time, oldest first. */
  function AppendAll(buf: seq<Sale>, events: seq<Sale>): (r: seq<Sale>)
    ensures |buf| <= Capacity ==> |r| <= Capacity
    ensures events == [] ==> r == buf
    ensures events != [] ==> |r| > 0 && r[|r| - 1] == events[|events| - 1]
    decreases |events|
  {
    if events == [] then buf
    else AppendAll(Append(buf, events[0]), events[1..])
  }

  /** Keeping the last `n` after adding one more element to the last `n` is the
      same as keeping the last `n` of the whole. */
  lemma {:induction false} TailAppend<T>(xs: seq<T>, x: T, n: nat)
    ensures Tail(Tail(xs, n) + [x], n) == Tail(xs + [x], n)
  {
    var t := Tail(xs, n);
    if |xs| > n {
      assert t + [x] == (xs + [x])[|xs| - n..];
      if n > 0 {
        assert Tail(t + [x], n) == (t + [x])[1..];
      }
    }
  }

  /** Eviction: however many sales arrive, the history is exactly the last
      `Capacity` of all sales so far (the old rows followed by the new ones),
      in arrival order. */
  lemma {:induction false} AppendAllIsWindow(buf: seq<Sale>, events: seq<Sale>)
    requires |buf| <= Capacity
    ensures AppendAll(buf, events) == Tail(buf + events, Capacity)
    decreases |events|
  {
    if events == [] {
      assert buf + events == buf;
    } else {
      var e := events[0];
      var rest := events[1..];
      var b1 := Append(buf, e);
      AppendAllIsWindow(b1, rest);
      assert AppendAll(buf, events) == Tail(b1 + rest, Capacity);
      assert b1 == Tail(buf + [e], Capacity);
      TailConcat(buf + [e], rest, Capacity);
      SplitFirst(buf, events);
    }
  }

  lemma {:induction false} SplitFirst<T>(xs: seq<T>, ys: seq<T>)
    requires |ys| > 0
    ensures (xs + [ys[0]]) + ys[1..] == xs + ys
  {
    assert ys == [ys[0]] + ys[1..];
  }

  /** Generalisation of TailAppend to a whole sequence of new elements. */
  lemma {:induction false} TailConcat<T>(xs: seq<T>, ys: seq<T>, n: nat)
    ensures Tail(Tail(xs, n) + ys, n) == Tail(xs + ys, n)
    decreases |ys|
  {
    if ys == [] {
      assert Tail(xs, n) + ys == Tail(xs, n);
      assert xs + ys == xs;
      var t := Tail(xs, n);
      assert Tail(t, n) == t;
    } else {
      var init := ys[..|ys| - 1];
      var last := ys[|ys| - 1];
      assert ys == init + [last];
      TailConcat(xs, init, n);
      // Tail(Tail(xs) + init + [last]) == Tail(Tail(Tail(xs) + init) + [last])
      TailAppend(Tail(xs, n) + init, last, n);
      TailAppend(xs + init, last, n);
      assert Tail(xs, n) + ys == (Tail(xs, n) + init) + [last];
      assert xs + ys == (xs + init) + [last];
    }
  }

  /** Appending at least `Capacity` sales leaves exactly the last `Capacity` of
      them: the older history has been evicted completely. */
  lemma {:induction false} EvictionKeepsLastCapacity(buf: seq<Sale>, events: seq<Sale>)
    requires |buf| <= Capacity
    requires |events| >= Capacity
    ensures AppendAll(buf, events) == Tail(events, Capacity)
    ensures |AppendAll(buf, events)| == Capacity
  {
    AppendAllIsWindow(buf, events);
    TailOfLongSuffix(buf, events, Capacity);
  }

  lemma {:induction false} TailOfLongSuffix<T>(xs: seq<T>, ys: seq<T>, n: nat)
    requires |ys| >= n
    ensures Tail(xs + ys, n) == Tail(ys, n)
  {
    var k := |ys| - n;
    assert (xs + ys)[|xs| + k..] == ys[k..];
  }

  /** Appending `events` to a valid history leaves `min(Capacity, |buf| + |events|)`
      rows, all of them generated sales when the events were. */
  lemma {:induction false} AppendAllPreservesValid(buf: seq<Sale>, events: seq<Sale>)
    requires Valid(buf)
    requires forall e :: e in events ==> WellFormed(e)
    ensures Valid(AppendAll(buf, events))
    ensures |AppendAll(buf, events)| == Min(Capacity, |buf| + |events|)
    decreases |events|
  {
    if events != [] {
      assert events[0] in events;
      AppendPreservesValid(buf, events[0]);
      assert forall e :: e in events[1..] ==> e in events;
      AppendAllPreservesValid(Append(buf, events[0]), events[1..]);
    }
  }
}
