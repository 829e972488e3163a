/** The tables and summary figures the dashboard derives from the filtered
    rows: the weekday, hourly, season and per-hour tables, their labels,
    the grand totals, the most popular day and season, and the peak hour. */
module Dashboard {
  import opened Wrappers
  import opened Rentals
  import opened GroupBy

  // Group keys of the four tables.

  function WeekdayOf(r: Record): nat { r.weekday }
  function SeasonOf(r: Record): nat { r.season }
  function HourOf(r: Record): nat { r.hr }
  function HourAndWorkingday(r: Record): (nat, nat) { (r.hr, r.workingday) }

  /** The weekday labels: 0 is Sunday through 6 is Saturday. A code outside
      the table maps to a missing label, as `index.map` yields NaN. */
  function WeekdayName(code: nat): (name: Option<string>)
    ensures name.Some? <==> code <= 6
  {
    match code
    case 0 => Some("Sunday")
    case 1 => Some("Monday")
    case 2 => Some("Tuesday")
    case 3 => Some("Wednesday")
    case 4 => Some("Thursday")
    case 5 => Some("Friday")
    case 6 => Some("Saturday")
    case _ => None
  }

  /** The season labels: 1 Spring, 2 Summer, 3 Fall, 4 Winter; anything else is missing. */
  function SeasonName(code: nat): (name: Option<string>)
    ensures name.Some? <==> 1 <= code <= 4
  {
    match code
    case 1 => Some("Spring")
    case 2 => Some("Summer")
    case 3 => Some("Fall")
    case 4 => Some("Winter")
    case _ => None
  }

  /** Different codes never share a label, so a shown name identifies one day. */
  lemma WeekdayNamesDistinct(a: nat, b: nat)
    requires WeekdayName(a).Some? && WeekdayName(a) == WeekdayName(b)
    ensures a == b
  {
  }

  /** Different codes never share a label, so a shown name identifies one season. */
  lemma SeasonNamesDistinct(a: nat, b: nat)
    requires SeasonName(a).Some? && SeasonName(a) == SeasonName(b)
    ensures a == b
  {
  }

  /** A row of the weekday or season table: code, sums and the label column. */
  datatype Labeled = Labeled(code: nat, sums: Measures, name: Option<string>)

  /** `index.map(labels)` as a new column: the table keeps its entries, in
      order, and each gets the label of its own code. */
  function Label(g: seq<Group<nat>>, names: nat -> Option<string>): (t: seq<Labeled>)
    ensures |t| == |g| && CodesOf(t) == KeysOf(g)
    ensures forall i :: 0 <= i < |t| ==> t[i].code == g[i].key && t[i].sums == g[i].sums
    ensures forall i :: 0 <= i < |t| ==> t[i].name == names(t[i].code)
  {
    LabelCodes(g, names);
    seq(|g|, i requires 0 <= i < |g| => Labeled(g[i].key, g[i].sums, names(g[i].key)))
  }

  lemma LabelCodes(g: seq<Group<nat>>, names: nat -> Option<string>)
    ensures CodesOf(seq(|g|, i requires 0 <= i < |g| => Labeled(g[i].key, g[i].sums, names(g[i].key)))) == KeysOf(g)
  {
    var t := seq(|g|, i requires 0 <= i < |g| => Labeled(g[i].key, g[i].sums, names(g[i].key)));
    forall x | x in CodesOf(t) ensures x in KeysOf(g) {
      var i :| 0 <= i < |t| && t[i].code == x;
      assert g[i].key == x;
    }
    forall x | x in KeysOf(g) ensures x in CodesOf(t) {
      var i :| 0 <= i < |g| && g[i].key == x;
      assert t[i].code == x;
    }
  }

  /** The shape shared by the weekday and season tables: group, sum, sort by
      summed `cnt` largest first, then attach the label. The result is ordered
      by total, holds one entry per code present among the rows with that
      code's sums and label, and is empty exactly when there are no rows. */
  function RankedTable(rows: seq<Record>, key: Record -> nat, names: nat -> Option<string>): (t: seq<Labeled>)
    ensures RankedOver(t, rows, key, names)
    ensures t == [] <==> rows == []
  {
    var g := GroupSum(rows, key);
    var s := SortByCnt(g);
    SortByKeys(g, CntRank);
    GroupSumEntries(rows, key);
    assert forall i :: 0 <= i < |s| ==> s[i] in multiset(g);
    LabelOver(s, rows, key, names);
    NonEmptyKeys(rows, key);
    Label(s, names)
  }

  /** The codes of a labelled table. */
  function CodesOf(t: seq<Labeled>): set<nat>
  {
    set i | 0 <= i < |t| :: t[i].code
  }

  /** Everything a ranked table promises: ordered by total, one entry per
      code present among the rows, each with its group's sums and its label. */
  predicate RankedOver(t: seq<Labeled>, rows: seq<Record>, key: Record -> nat, names: nat -> Option<string>)
  {
    && (forall i, j :: 0 <= i < j < |t| ==> t[i].sums.cnt >= t[j].sums.cnt)
    && (forall i, j :: 0 <= i < j < |t| ==> t[i].code != t[j].code)
    && CodesOf(t) == KeysIn(rows, key)
    && (forall i :: 0 <= i < |t| ==> t[i].sums == SumOf(WithKey(rows, key, t[i].code)))
    && (forall i :: 0 <= i < |t| ==> t[i].name == names(t[i].code))
  }

  /** Labelling a sorted, distinct, correctly summed table gives a ranked table. */
  lemma LabelOver(s: seq<Group<nat>>, rows: seq<Record>, key: Record -> nat, names: nat -> Option<string>)
    requires NonIncreasing(s) && DistinctKeys(s) && KeysOf(s) == KeysIn(rows, key)
    requires forall i :: 0 <= i < |s| ==> s[i].sums == SumOf(WithKey(rows, key, s[i].key))
    ensures RankedOver(Label(s, names), rows, key, names)
  {
  }

  /** `create_weekday_bike_df`: one entry per weekday present, holding the
      sums over that weekday's rows, ordered by summed `cnt` largest first,
      each labelled by its weekday name. Empty exactly when there are no rows. */
  function WeekdayTable(rows: seq<Record>): (t: seq<Labeled>)
    ensures RankedOver(t, rows, WeekdayOf, WeekdayName)
    ensures t == [] <==> rows == []
  {
    RankedTable(rows, WeekdayOf, WeekdayName)
  }

  /** `create_season_bike_df`: the same shape keyed on season, labelled by season name. */
  function SeasonTable(rows: seq<Record>): (t: seq<Labeled>)
    ensures RankedOver(t, rows, SeasonOf, SeasonName)
    ensures t == [] <==> rows == []
  {
    RankedTable(rows, SeasonOf, SeasonName)
  }

  lemma NonEmptyKeys<K>(rows: seq<Record>, key: Record -> K)
    ensures KeysIn(rows, key) == {} <==> rows == []
  {
    if rows != [] {
      assert key(rows[0]) in KeysIn(rows, key);
    }
  }

  /** `create_hourly_bike_rentals_df`: one entry per (hour, working-day)
      pair present, no pair twice, each with the sums over that pair's rows. */
  function HourlyRentals(rows: seq<Record>): (t: seq<Group<(nat, nat)>>)
    ensures DistinctKeys(t)
    ensures KeysOf(t) == KeysIn(rows, HourAndWorkingday)
    ensures forall i :: 0 <= i < |t| ==> t[i].sums == SumOf(WithKey(rows, HourAndWorkingday, t[i].key))
  {
    GroupSumEntries(rows, HourAndWorkingday);
    GroupSum(rows, HourAndWorkingday)
  }

  /** The grouping half of `create_hourly_bike_clusters`: one entry per hour
      present, in ascending hour order as `groupby` returns them, each with
      the sums over that hour's rows. */
  function HourlyTotals(rows: seq<Record>): (t: seq<Group<nat>>)
    ensures forall i, j :: 0 <= i < j < |t| ==> t[i].key < t[j].key
    ensures KeysOf(t) == KeysIn(rows, HourOf)
    ensures forall i :: 0 <= i < |t| ==> t[i].sums == SumOf(WithKey(rows, HourOf, t[i].key))
  {
    var g := GroupSum(rows, HourOf);
    GroupSumEntries(rows, HourOf);
    var t := SortByKey(g);
    assert forall i :: 0 <= i < |t| ==> t[i] in multiset(g);
    t
  }

  /** `t["cnt"].sum()` over a labelled table: at least every row's `cnt`,
      and zero exactly when every row's `cnt` is zero. */
  function TotalRentals(t: seq<Labeled>): (total: nat)
    ensures forall i :: 0 <= i < |t| ==> t[i].sums.cnt <= total
    ensures total == 0 <==> forall i :: 0 <= i < |t| ==> t[i].sums.cnt == 0
  {
    if t == [] then 0
    else
      assert forall i :: 1 <= i < |t| ==> t[i] == t[1..][i - 1];
      t[0].sums.cnt + TotalRentals(t[1..])
  }

  lemma {:induction false} TotalRentalsOfLabel(g: seq<Group<nat>>, names: nat -> Option<string>)
    ensures TotalRentals(Label(g, names)) == Total(g).cnt
  {
    if g != [] {
      assert Label(g, names)[1..] == Label(g[1..], names);
      TotalRentalsOfLabel(g[1..], names);
    }
  }

  /** The total shown above the weekday chart and the one shown above the
      season chart are both the `cnt` sum over the filtered rows. */
  lemma TotalsConserved(rows: seq<Record>)
    ensures TotalRentals(WeekdayTable(rows)) == SumOf(rows).cnt
    ensures TotalRentals(SeasonTable(rows)) == SumOf(rows).cnt
  {
    TotalRentalsOfLabel(SortByCnt(GroupSum(rows, WeekdayOf)), WeekdayName);
    SortByTotal(GroupSum(rows, WeekdayOf), CntRank);
    GroupSumTotal(rows, WeekdayOf);
    TotalRentalsOfLabel(SortByCnt(GroupSum(rows, SeasonOf)), SeasonName);
    SortByTotal(GroupSum(rows, SeasonOf), CntRank);
    GroupSumTotal(rows, SeasonOf);
  }

  /** Group `k` has the largest summed `cnt` of all keys present. */
  predicate Busiest<K(==)>(rows: seq<Record>, key: Record -> K, k: K)
  {
    forall k' :: k' in KeysIn(rows, key) ==> SumOf(WithKey(rows, key, k')).cnt <= SumOf(WithKey(rows, key, k)).cnt
  }

  /** Row 0 of a ranked table is a code present among the rows with the largest total. */
  lemma RankedTopIsBusiest(t: seq<Labeled>, rows: seq<Record>, key: Record -> nat, names: nat -> Option<string>)
    requires RankedOver(t, rows, key, names)
    requires t != []
    ensures t[0].code in KeysIn(rows, key) && Busiest(rows, key, t[0].code)
  {
    assert t[0].code in CodesOf(t);
    forall k' | k' in KeysIn(rows, key)
      ensures SumOf(WithKey(rows, key, k')).cnt <= SumOf(WithKey(rows, key, t[0].code)).cnt
    {
      var i :| 0 <= i < |t| && t[i].code == k';
    }
  }

  /** `weekday_bike_df["weekday_name"].iloc[0]`: the label of a weekday present
      whose summed `cnt` is maximal. Needs rows: `iloc[0]` fails on an empty table. */
  function MostPopularDay(rows: seq<Record>): (name: Option<string>)
    requires rows != []
    ensures exists d :: d in KeysIn(rows, WeekdayOf) && Busiest(rows, WeekdayOf, d) && name == WeekdayName(d)
  {
    var t := WeekdayTable(rows);
    RankedTopIsBusiest(t, rows, WeekdayOf, WeekdayName);
    t[0].name
  }

  /** `season_bike_df["season_name"].iloc[0]`: the label of a season present
      whose summed `cnt` is maximal. Needs rows, for the same reason. */
  function MostRentedSeason(rows: seq<Record>): (name: Option<string>)
    requires rows != []
    ensures exists s :: s in KeysIn(rows, SeasonOf) && Busiest(rows, SeasonOf, s) && name == SeasonName(s)
  {
    var t := SeasonTable(rows);
    RankedTopIsBusiest(t, rows, SeasonOf, SeasonName);
    t[0].name
  }

  /** `hourly_bike_df.loc[hourly_bike_df["cnt"].idxmax(), "hr"]`: an hour present
      whose summed `cnt` is maximal. The per-hour table is in ascending hour
      order and `idxmax` takes the first maximum, so among equally busy hours
      it is the earliest. Needs rows: `idxmax` fails on an empty table. */
  function PeakHour(rows: seq<Record>): (h: nat)
    requires rows != []
    ensures h in KeysIn(rows, HourOf) && Busiest(rows, HourOf, h)
    ensures forall h': nat :: h' in KeysIn(rows, HourOf) && h' < h ==>
      SumOf(WithKey(rows, HourOf, h')).cnt < SumOf(WithKey(rows, HourOf, h)).cnt
  {
    var t := HourlyTotals(rows);
    NonEmptyKeys(rows, HourOf);
    var i := IdxMaxCnt(t);
    PeakOver(rows, t, i);
    t[i].key
  }

  /** What the first maximum of the per-hour table says about the rows. */
  lemma PeakOver(rows: seq<Record>, t: seq<Group<nat>>, i: nat)
    requires forall i, j :: 0 <= i < j < |t| ==> t[i].key < t[j].key
    requires KeysOf(t) == KeysIn(rows, HourOf)
    requires forall j :: 0 <= j < |t| ==> t[j].sums == SumOf(WithKey(rows, HourOf, t[j].key))
    requires i < |t|
    requires forall j :: 0 <= j < |t| ==> t[j].sums.cnt <= t[i].sums.cnt
    requires forall j :: 0 <= j < i ==> t[j].sums.cnt < t[i].sums.cnt
    ensures t[i].key in KeysIn(rows, HourOf) && Busiest(rows, HourOf, t[i].key)
    ensures forall h': nat :: h' in KeysIn(rows, HourOf) && h' < t[i].key ==>
      SumOf(WithKey(rows, HourOf, h')).cnt < SumOf(WithKey(rows, HourOf, t[i].key)).cnt
  {
    assert t[i].key in KeysOf(t);
    EarliestMax(t, i);
    forall h': nat | h' in KeysIn(rows, HourOf)
      ensures SumOf(WithKey(rows, HourOf, h')).cnt <= SumOf(WithKey(rows, HourOf, t[i].key)).cnt
      ensures h' < t[i].key ==> SumOf(WithKey(rows, HourOf, h')).cnt < SumOf(WithKey(rows, HourOf, t[i].key)).cnt
    {
      assert h' in KeysOf(t);
      var j :| 0 <= j < |t| && t[j].key == h';
    }
  }

  /** In a table in ascending key order, an entry whose total every earlier
      entry falls short of beats every entry with a smaller key. */
  lemma EarliestMax(t: seq<Group<nat>>, i: nat)
    requires forall i, j :: 0 <= i < j < |t| ==> t[i].key < t[j].key
    requires i < |t| && forall j :: 0 <= j < i ==> t[j].sums.cnt < t[i].sums.cnt
    ensures forall j :: 0 <= j < |t| && t[j].key < t[i].key ==> t[j].sums.cnt < t[i].sums.cnt
  {
    forall j | 0 <= j < |t| && t[j].key < t[i].key ensures t[j].sums.cnt < t[i].sums.cnt {
      assert !(i < j) && j != i;
    }
  }

  /** `hourly_bike_rentals_df[hourly_bike_rentals_df["workingday"] == w]`:
      exactly the entries of `t` whose flag is `w`. */
  function SelectWorkingday(t: seq<Group<(nat, nat)>>, w: nat): (sel: seq<Group<(nat, nat)>>)
    ensures forall i :: 0 <= i < |sel| ==> sel[i].key.1 == w && sel[i] in t
    ensures forall i :: 0 <= i < |t| && t[i].key.1 == w ==> t[i] in sel
  {
    if t == [] then []
    else
      assert forall i :: 1 <= i < |t| ==> t[i] == t[1..][i - 1];
      (if t[0].key.1 == w then [t[0]] else []) + SelectWorkingday(t[1..], w)
  }

  /** The members of group `h` of `groupby("hr")`: exactly the entries of `t`
      whose hour is `h`. */
  function AtHour(t: seq<Group<(nat, nat)>>, h: nat): (e: seq<Group<(nat, nat)>>)
    ensures forall i :: 0 <= i < |e| ==> e[i].key.0 == h && e[i] in t
    ensures forall i :: 0 <= i < |t| && t[i].key.0 == h ==> t[i] in e
  {
    if t == [] then []
    else
      assert forall i :: 1 <= i < |t| ==> t[i] == t[1..][i - 1];
      (if t[0].key.0 == h then [t[0]] else []) + AtHour(t[1..], h)
  }

  /** `.groupby("hr")["cnt"].mean()` at hour `h`, defined for the hours the
      selection holds (a group-by has no empty groups). The mean of a
      one-entry group is that entry's `cnt`. */
  function MeanCnt(sel: seq<Group<(nat, nat)>>, h: nat): (mean: real)
    requires AtHour(sel, h) != []
    ensures |AtHour(sel, h)| == 1 ==> mean == AtHour(sel, h)[0].sums.cnt as real
  {
    var e := AtHour(sel, h);
    assert |e| == 1 ==> e[1..] == [] && Total(e).cnt == e[0].sums.cnt;
    (Total(e).cnt as real) / (|e| as real)
  }

  /** In a table with distinct (hour, flag) keys, selecting flag `w` and then
      hour `h` leaves at most the one entry for (h, w). */
  lemma {:induction false} SelectThenHour(t: seq<Group<(nat, nat)>>, w: nat, h: nat)
    requires DistinctKeys(t)
    ensures AtHour(SelectWorkingday(t, w), h) ==
      if (h, w) in KeysOf(t) then [Group((h, w), Lookup(t, (h, w)))] else []
  {
    if t != [] {
      var tail := t[1..];
      DistinctTail(t);
      SelectThenHour(tail, w, h);
      KeysOfTail(t);
      var sel := SelectWorkingday(t, w);
      if t[0].key == (h, w) {
        assert sel == [t[0]] + SelectWorkingday(tail, w);
        assert sel[1..] == SelectWorkingday(tail, w);
      } else if t[0].key.1 == w {
        assert sel == [t[0]] + SelectWorkingday(tail, w);
        assert sel[1..] == SelectWorkingday(tail, w);
      } else {
        assert sel == SelectWorkingday(tail, w);
      }
    }
  }

  /** The working-day (w = 1) and non-working-day (w = 0) lines of the hourly
      chart: an hour appears exactly when some row has that hour and flag, and
      the mean plotted there is that single (hour, flag) group's `cnt` sum. */
  lemma WorkingdayMean(rows: seq<Record>, w: nat, h: nat)
    ensures AtHour(SelectWorkingday(HourlyRentals(rows), w), h) != [] <==> (h, w) in KeysIn(rows, HourAndWorkingday)
    ensures AtHour(SelectWorkingday(HourlyRentals(rows), w), h) != [] ==>
      |AtHour(SelectWorkingday(HourlyRentals(rows), w), h)| == 1 &&
      MeanCnt(SelectWorkingday(HourlyRentals(rows), w), h) == SumOf(WithKey(rows, HourAndWorkingday, (h, w))).cnt as real
  {
    var t := HourlyRentals(rows);
    SelectThenHour(t, w, h);
    GroupSumLookup(rows, HourAndWorkingday, (h, w));
  }

  /** Every entry of every table keeps `cnt == casual + registered` when
      every filtered row does. */
  lemma TablesConsistent(rows: seq<Record>)
    requires AllConsistent(rows)
    ensures forall i :: 0 <= i < |WeekdayTable(rows)| ==> Consistent(WeekdayTable(rows)[i].sums)
    ensures forall i :: 0 <= i < |SeasonTable(rows)| ==> Consistent(SeasonTable(rows)[i].sums)
    ensures forall i :: 0 <= i < |HourlyRentals(rows)| ==> Consistent(HourlyRentals(rows)[i].sums)
    ensures forall i :: 0 <= i < |HourlyTotals(rows)| ==> Consistent(HourlyTotals(rows)[i].sums)
  {
    forall i | 0 <= i < |WeekdayTable(rows)| ensures Consistent(WeekdayTable(rows)[i].sums) {
      GroupConsistent(rows, WeekdayOf, WeekdayTable(rows)[i].code);
    }
    forall i | 0 <= i < |SeasonTable(rows)| ensures Consistent(SeasonTable(rows)[i].sums) {
      GroupConsistent(rows, SeasonOf, SeasonTable(rows)[i].code);
    }
    forall i | 0 <= i < |HourlyRentals(rows)| ensures Consistent(HourlyRentals(rows)[i].sums) {
      GroupConsistent(rows, HourAndWorkingday, HourlyRentals(rows)[i].key);
    }
    forall i | 0 <= i < |HourlyTotals(rows)| ensures Consistent(HourlyTotals(rows)[i].sums) {
      GroupConsistent(rows, HourOf, HourlyTotals(rows)[i].key);
    }
  }

  lemma GroupConsistent<K>(rows: seq<Record>, key: Record -> K, k: K)
    requires AllConsistent(rows)
    ensures Consistent(SumOf(WithKey(rows, key, k)))
  {
    var w := WithKey(rows, key, k);
    assert AllConsistent(w) by {
      forall j | 0 <= j < |w| ensures Consistent(Of(w[j])) {
        var t :| 0 <= t < |rows| && rows[t] == w[j];
      }
    }
    SumOfConsistent(w);
  }

  /** Codes as the dataset documents them. */
  predicate WellCoded(r: Record)
  {
    r.weekday <= 6 && 1 <= r.season <= 4
  }

  /** With well-coded rows every present code gets its label: no missing names. */
  lemma LabelsPresent(rows: seq<Record>)
    requires forall i :: 0 <= i < |rows| ==> WellCoded(rows[i])
    ensures forall i :: 0 <= i < |WeekdayTable(rows)| ==> WeekdayTable(rows)[i].name.Some?
    ensures forall i :: 0 <= i < |SeasonTable(rows)| ==> SeasonTable(rows)[i].name.Some?
  {
    var wt := WeekdayTable(rows);
    var st := SeasonTable(rows);
    forall i | 0 <= i < |wt| ensures wt[i].name.Some? {
      assert wt[i].code in CodesOf(wt);
      var j :| 0 <= j < |rows| && WeekdayOf(rows[j]) == wt[i].code;
    }
    forall i | 0 <= i < |st| ensures st[i].name.Some? {
      assert st[i].code in CodesOf(st);
      var j :| 0 <= j < |rows| && SeasonOf(rows[j]) == st[i].code;
    }
  }

  /** Two Monday rows with totals 100 and 50 and one Tuesday row with total 30. */
  const WEEKDAY_EXAMPLE := [
    Record(0, 8, 1, 1, 1, 40, 60, 100),
    Record(0, 9, 1, 1, 1, 20, 30, 50),
    Record(1, 8, 2, 1, 1, 10, 20, 30)]

  lemma WeekdayExampleGroups()
    ensures GroupSum(WEEKDAY_EXAMPLE, WeekdayOf) == [Group(1, Measures(60, 90, 150)), Group(2, Measures(10, 20, 30))]
  {
    var rows := WEEKDAY_EXAMPLE;
    var a: Group<nat> := Group(1, Measures(60, 90, 150));
    var b: Group<nat> := Group(2, Measures(10, 20, 30));
    assert GroupSum(rows, WeekdayOf) == Accumulate([a], 2, b.sums) by {
      WeekdayExamplePrefix();
      assert WeekdayOf(rows[2]) == 2 && Of(rows[2]) == b.sums;
      assert rows[..2] == rows[..|rows| - 1] && rows[|rows| - 1] == rows[2];
    }
    assert Accumulate([a], 2, b.sums) == [a, b] by {
      assert [a][0] == a && [a][1..] == [];
      assert Accumulate([], 2, b.sums) == [b];
      assert [a] + [b] == [a, b];
    }
  }

  /** The two Monday rows fold into one Monday group. */
  lemma WeekdayExamplePrefix()
    ensures GroupSum(WEEKDAY_EXAMPLE[..2], WeekdayOf) == [Group(1, Measures(60, 90, 150))]
  {
    var rows := WEEKDAY_EXAMPLE[..2];
    assert WeekdayOf(rows[0]) == 1 && WeekdayOf(rows[1]) == 1;
    assert rows[..1][..0] == [] && rows[..1][0] == rows[0];
    assert rows[..|rows| - 1] == rows[..1];
    assert GroupSum(rows[..1], WeekdayOf) == Accumulate([], 1, Measures(40, 60, 100)) == [Group(1, Measures(40, 60, 100))];
    assert GroupSum(rows, WeekdayOf) == Accumulate([Group(1, Measures(40, 60, 100))], 1, Measures(20, 30, 50));
  }

  /** The example gives the weekday table [(Monday, 150), (Tuesday, 30)]. */
  lemma WeekdayExample()
    ensures WeekdayTable(WEEKDAY_EXAMPLE) ==
      [Labeled(1, Measures(60, 90, 150), Some("Monday")), Labeled(2, Measures(10, 20, 30), Some("Tuesday"))]
  {
    var a: Group<nat>, b: Group<nat> := Group(1, Measures(60, 90, 150)), Group(2, Measures(10, 20, 30));
    WeekdayExampleGroups();
    assert [a, b][1..] == [b];
    assert SortBy([b], CntRank) == [b];
    assert SortBy([a, b], CntRank) == InsertBy(a, [b], CntRank) == [a, b];
  }

  /** Hour 9 and hour 8, each with a total of 10, in that row order. */
  const TIE_EXAMPLE := [
    Record(0, 9, 1, 1, 1, 4, 6, 10),
    Record(0, 8, 1, 1, 1, 4, 6, 10)]

  /** On equally busy hours the peak hour is the earliest, whatever the row order. */
  lemma PeakHourTieExample()
    ensures PeakHour(TIE_EXAMPLE) == 8
  {
    var rows := TIE_EXAMPLE;
    assert HourOf(rows[0]) == 9 && HourOf(rows[1]) == 8;
    assert rows[..1][..0] == [] && rows[..1][0] == rows[0];
    assert rows[..|rows| - 1] == rows[..1] && rows[|rows| - 1] == rows[1];
    assert WithKey(rows, HourOf, 8) == [rows[1]];
    assert WithKey(rows, HourOf, 9) == [rows[0]];
    assert 8 in KeysIn(rows, HourOf);
    var h := PeakHour(rows);
    assert h == 8 || h == 9;
  }
}
