/** One row of the hourly bike-rental table, the three rental measures
    and the date/hour range filter of the dashboard sidebar. */
module Rentals {

  /** A row of the loaded table. `date` is the day number of `dteday`
      (the column holds whole days, so comparing it with a day bound
      converted to midnight is comparing day numbers). */
  datatype Record = Record(
    date: int,
    hr: nat,
    weekday: nat,
    season: nat,
    workingday: nat,
    casual: nat,
    registered: nat,
    cnt: nat)

  /** The three summed columns of every aggregate table. */
  datatype Measures = Measures(casual: nat, registered: nat, cnt: nat)

  const ZERO := Measures(0, 0, 0)

  function Of(r: Record): Measures
  {
    Measures(r.casual, r.registered, r.cnt)
  }

  function Plus(a: Measures, b: Measures): Measures
  {
    Measures(a.casual + b.casual, a.registered + b.registered, a.cnt + b.cnt)
  }

  /** The dataset's own invariant: the total is casual plus registered. */
  predicate Consistent(m: Measures)
  {
    m.cnt == m.casual + m.registered
  }

  predicate AllConsistent(rows: seq<Record>)
  {
    forall i :: 0 <= i < |rows| ==> Consistent(Of(rows[i]))
  }

  /** Column-wise sum of the three measures over `rows`. */
  function SumOf(rows: seq<Record>): (r: Measures)
    ensures |rows| == 1 ==> r == Of(rows[0])
  {
    if rows == [] then ZERO else Plus(SumOf(rows[..|rows| - 1]), Of(rows[|rows| - 1]))
  }

  /** Summing distributes over concatenation of row sequences. */
  lemma {:induction false} SumOfAppend(a: seq<Record>, b: seq<Record>)
    ensures SumOf(a + b) == Plus(SumOf(a), SumOf(b))
    decreases |b|
  {
    if b == [] {
      assert a + b == a;
    } else {
      var c := a + b;
      assert c[..|c| - 1] == a + b[..|b| - 1];
      assert c[|c| - 1] == b[|b| - 1];
      SumOfAppend(a, b[..|b| - 1]);
      assert SumOf(c) == Plus(SumOf(a + b[..|b| - 1]), Of(b[|b| - 1]));
    }
  }

  /** Summing rows that satisfy the invariant gives sums that satisfy it. */
  lemma {:induction false} SumOfConsistent(rows: seq<Record>)
    requires AllConsistent(rows)
    ensures Consistent(SumOf(rows))
    decreases |rows|
  {
    if rows != [] {
      var p := rows[..|rows| - 1];
      assert AllConsistent(p) by {
        forall i | 0 <= i < |p| ensures Consistent(Of(p[i])) {
          assert p[i] == rows[i];
        }
      }
      SumOfConsistent(p);
      assert Consistent(Of(rows[|rows| - 1]));
    }
  }

  /** The closed date interval and closed hour interval chosen in the sidebar. */
  datatype Bounds = Bounds(startDate: int, endDate: int, startHour: int, endHour: int)

  /** The boolean mask of the filter: four inclusive comparisons joined by AND. */
  predicate InRange(r: Record, b: Bounds)
  {
    && b.startDate <= r.date
    && r.date <= b.endDate
    && b.startHour <= r.hr
    && r.hr <= b.endHour
  }

  /** Occurrences of `x` in `s`; used to say which rows a filter keeps. */
  function Count<T(==)>(s: seq<T>, x: T): nat
  {
    if s == [] then 0 else Count(s[..|s| - 1], x) + (if s[|s| - 1] == x then 1 else 0)
  }

  /** `s` is `t` with some elements removed, the rest in their original order. */
  predicate Subsequence<T(==)>(s: seq<T>, t: seq<T>)
    decreases |t|
  {
    if s == [] then true
    else if t == [] then false
    else if s[|s| - 1] == t[|t| - 1] then Subsequence(s[..|s| - 1], t[..|t| - 1])
    else Subsequence(s, t[..|t| - 1])
  }

  /** `main_data[mask]`: the rows inside the bounds, in table order. */
  function Filter(rows: seq<Record>, b: Bounds): (kept: seq<Record>)
    ensures forall i :: 0 <= i < |kept| ==> InRange(kept[i], b)
    decreases |rows|
  {
    if rows == [] then []
    else
      var last := rows[|rows| - 1];
      var front := Filter(rows[..|rows| - 1], b);
      if InRange(last, b) then front + [last] else front
  }

  /** Every row is kept exactly as often as it occurs when it is in range,
      and never otherwise. */
  lemma {:induction false} FilterCount(rows: seq<Record>, b: Bounds, x: Record)
    ensures Count(Filter(rows, b), x) == if InRange(x, b) then Count(rows, x) else 0
    decreases |rows|
  {
    if rows != [] {
      var last := rows[|rows| - 1];
      var front := Filter(rows[..|rows| - 1], b);
      FilterCount(rows[..|rows| - 1], b, x);
      CountSnoc(front, last);
      CountSnoc(rows[..|rows| - 1], last);
      assert rows[..|rows| - 1] + [last] == rows;
    }
  }

  /** The kept rows appear in the order they have in the table. */
  lemma {:induction false} FilterOrder(rows: seq<Record>, b: Bounds)
    ensures Subsequence(Filter(rows, b), rows)
    decreases |rows|
  {
    if rows != [] {
      var last := rows[|rows| - 1];
      FilterOrder(rows[..|rows| - 1], b);
      SubsequenceExtend(Filter(rows[..|rows| - 1], b), rows[..|rows| - 1], last);
      assert rows[..|rows| - 1] + [last] == rows;
    }
  }

  lemma {:induction false} CountSnoc<T>(s: seq<T>, y: T)
    ensures forall x :: Count(s + [y], x) == Count(s, x) + (if y == x then 1 else 0)
  {
    assert (s + [y])[..|s + [y]| - 1] == s;
  }

  /** Appending the same element to both sides, or only to the longer one,
      keeps the subsequence relation. */
  lemma {:induction false} SubsequenceExtend<T>(s: seq<T>, t: seq<T>, y: T)
    requires Subsequence(s, t)
    ensures Subsequence(s + [y], t + [y])
    ensures Subsequence(s, t + [y])
  {
    assert (s + [y])[..|s + [y]| - 1] == s;
    assert (t + [y])[..|t + [y]| - 1] == t;
    if s != [] && s[|s| - 1] == y {
      SubsequenceDropLast(s, t);
    }
  }

  lemma {:induction false} SubsequenceDropLast<T>(s: seq<T>, t: seq<T>)
    requires s != []
    requires Subsequence(s, t)
    ensures Subsequence(s[..|s| - 1], t)
    decreases |t|, 0
  {
    var s' := s[..|s| - 1];
    if s' != [] {
      if s[|s| - 1] == t[|t| - 1] {
        SubsequenceDropLast(s', t[..|t| - 1]);
        assert s'[..|s'| - 1] == s[..|s| - 2];
        SubsequenceExtendRight(s', t[..|t| - 1], t[|t| - 1]);
        assert t[..|t| - 1] + [t[|t| - 1]] == t;
      } else {
        SubsequenceDropLast(s, t[..|t| - 1]);
        SubsequenceExtendRight(s', t[..|t| - 1], t[|t| - 1]);
        assert t[..|t| - 1] + [t[|t| - 1]] == t;
      }
    }
  }

  lemma {:induction false} SubsequenceExtendRight<T>(s: seq<T>, t: seq<T>, y: T)
    requires Subsequence(s, t)
    ensures Subsequence(s, t + [y])
    decreases |t|, 1
  {
    assert (t + [y])[..|t + [y]| - 1] == t;
    if s != [] && s[|s| - 1] == y {
      SubsequenceDropLast(s, t);
    }
  }

  /** The filter commutes with concatenation of tables. */
  lemma {:induction false} FilterAppend(a: seq<Record>, c: seq<Record>, b: Bounds)
    ensures Filter(a + c, b) == Filter(a, b) + Filter(c, b)
    decreases |c|
  {
    if c == [] {
      assert a + c == a;
    } else {
      assert (a + c)[..|a + c| - 1] == a + c[..|c| - 1];
      FilterAppend(a, c[..|c| - 1], b);
    }
  }

  /** Filtering a table whose rows are all in range returns it unchanged. */
  lemma {:induction false} FilterKeepsInRange(rows: seq<Record>, b: Bounds)
    requires forall i :: 0 <= i < |rows| ==> InRange(rows[i], b)
    ensures Filter(rows, b) == rows
    decreases |rows|
  {
    if rows != [] {
      FilterKeepsInRange(rows[..|rows| - 1], b);
      assert rows[..|rows| - 1] + [rows[|rows| - 1]] == rows;
    }
  }

  /** Applying the same filter twice gives the result of applying it once. */
  lemma FilterIdempotent(rows: seq<Record>, b: Bounds)
    ensures Filter(Filter(rows, b), b) == Filter(rows, b)
  {
    FilterKeepsInRange(Filter(rows, b), b);
  }

  /** With a one-day, one-hour range only rows of that day and hour survive. */
  lemma FilterSinglePoint(rows: seq<Record>, day: int, hour: nat)
    ensures forall i :: 0 <= i < |Filter(rows, Bounds(day, day, hour, hour))| ==>
      Filter(rows, Bounds(day, day, hour, hour))[i].date == day &&
      Filter(rows, Bounds(day, day, hour, hour))[i].hr == hour
  {
  }
}
