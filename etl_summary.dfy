/** Analytics step of the ETL handler: total sales per city, largest first,
    the first ten kept for the chart. Cities are grouped in order of first
    appearance; the order among equal totals is not part of the contract. */
module EtlSummary {
  import opened EtlTransform

  datatype CitySales = CitySales(city: string, total: real)

  /** How many rows `head` keeps. */
  const ChartSize: nat := 10

  predicate DistinctStrings(s: seq<string>)
  {
    forall i, j :: 0 <= i < j < |s| ==> s[i] != s[j]
  }

  /** The cities present in the cleaned table. */
  function CitySet(rows: seq<CleanRow>): set<string>
  {
    set i | 0 <= i < |rows| :: rows[i].city
  }

  /** Each city of the table once, in order of first appearance. */
  function Cities(rows: seq<CleanRow>): (cs: seq<string>)
    ensures DistinctStrings(cs)
    ensures forall c :: c in cs <==> c in CitySet(rows)
  {
    if rows == [] then []
    else
      var init, last := rows[..|rows| - 1], rows[|rows| - 1];
      assert CitySet(rows) == CitySet(init) + {last.city} by {
        assert forall i :: 0 <= i < |init| ==> init[i] == rows[i];
      }
      var cs := Cities(init);
      if last.city in cs then cs else cs + [last.city]
  }

  /** The sum of Total over the rows of `city`: zero for a city without rows,
      and never negative when no Total is. */
  function CityTotal(rows: seq<CleanRow>, city: string): (t: real)
    ensures (forall i :: 0 <= i < |rows| ==> rows[i].city != city) ==> t == 0.0
    ensures (forall i :: 0 <= i < |rows| ==> rows[i].total >= 0.0) ==> t >= 0.0
  {
    if rows == [] then 0.0
    else
      var last := rows[|rows| - 1];
      CityTotal(rows[..|rows| - 1], city) + (if last.city == city then last.total else 0.0)
  }

  /** `df.groupby("City")["Total"].sum()`. */
  function Groups(rows: seq<CleanRow>): (gs: seq<CitySales>)
    ensures |gs| == |Cities(rows)|
  {
    var cs := Cities(rows);
    seq(|cs|, i requires 0 <= i < |cs| => CitySales(cs[i], CityTotal(rows, cs[i])))
  }

  predicate SortedByTotalDesc(s: seq<CitySales>)
  {
    forall i, j :: 0 <= i < j < |s| ==> s[i].total >= s[j].total
  }

  function InsertByTotal(g: CitySales, s: seq<CitySales>): (r: seq<CitySales>)
    requires SortedByTotalDesc(s)
    ensures SortedByTotalDesc(r)
    ensures forall x :: x in r ==> x == g || x in s
    ensures multiset(r) == multiset(s) + multiset{g}
  {
    if s == [] || s[0].total <= g.total then
      ConsSorted(g, s);
      [g] + s
    else
      var rest := InsertByTotal(g, s[1..]);
      HeadIsLargest(s);
      ConsSorted(s[0], rest);
      assert s == [s[0]] + s[1..];
      [s[0]] + rest
  }

  /** In a sorted sequence no later element exceeds the first. */
  lemma HeadIsLargest(s: seq<CitySales>)
    requires SortedByTotalDesc(s) && s != []
    ensures forall x :: x in s[1..] ==> x.total <= s[0].total
  {
    forall x | x in s[1..]
      ensures x.total <= s[0].total
    {
      var j :| 0 <= j < |s[1..]| && s[1..][j] == x;
      assert s[j + 1] == x;
    }
  }

  /** Putting an element no smaller than all the others in front keeps the
      order. */
  lemma ConsSorted(h: CitySales, s: seq<CitySales>)
    requires SortedByTotalDesc(s)
    requires forall x :: x in s ==> x.total <= h.total
    ensures SortedByTotalDesc([h] + s)
  {
    var r := [h] + s;
    forall i, j | 0 <= i < j < |r|
      ensures r[i].total >= r[j].total
    {
      assert r[j] == s[j - 1];
      if i > 0 {
        assert r[i] == s[i - 1];
      } else {
        assert s[j - 1] in s;
      }
    }
  }

  /** `sort_values(by="Total", ascending=False)`. */
  function SortByTotalDesc(s: seq<CitySales>): (r: seq<CitySales>)
    ensures SortedByTotalDesc(r)
    ensures multiset(r) == multiset(s)
  {
    if s == [] then []
    else
      assert s == [s[0]] + s[1..];
      InsertByTotal(s[0], SortByTotalDesc(s[1..]))
  }

  function Min(a: int, b: int): int { if a <= b then a else b }

  /** `city_summary.head(10)`: at most ten groups, largest first. */
  function TopCities(rows: seq<CleanRow>): (top: seq<CitySales>)
    ensures |top| <= ChartSize
    ensures SortedByTotalDesc(top)
  {
    var sorted := SortByTotalDesc(Groups(rows));
    var top := sorted[..Min(ChartSize, |sorted|)];
    assert forall i :: 0 <= i < |top| ==> top[i] == sorted[i];
    top
  }

  function CitiesOf(s: seq<CitySales>): seq<string>
  {
    seq(|s|, i requires 0 <= i < |s| => s[i].city)
  }

  /** A sequence without repeated elements has as many elements as its set. */
  lemma {:induction false} DistinctCardinality(s: seq<string>)
    requires DistinctStrings(s)
    ensures |set x | x in s| == |s|
  {
    if s != [] {
      var init := s[..|s| - 1];
      DistinctCardinality(init);
      assert (set x | x in s) == (set x | x in init) + {s[|s| - 1]};
      assert s[|s| - 1] !in init;
    }
  }

  /** Grouping yields one group per city, each with that city's total. */
  lemma GroupsFacts(rows: seq<CleanRow>)
    ensures DistinctStrings(CitiesOf(Groups(rows)))
    ensures |Groups(rows)| == |CitySet(rows)|
    ensures forall g :: g in Groups(rows) ==> g.city in CitySet(rows) && g.total == CityTotal(rows, g.city)
    ensures forall c :: c in CitySet(rows) ==> CitySales(c, CityTotal(rows, c)) in Groups(rows)
  {
    var cs := Cities(rows);
    assert CitiesOf(Groups(rows)) == cs;
    DistinctCardinality(cs);
    assert (set x | x in cs) == CitySet(rows);
    forall c | c in CitySet(rows)
      ensures CitySales(c, CityTotal(rows, c)) in Groups(rows)
    {
      var i :| 0 <= i < |cs| && cs[i] == c;
      assert Groups(rows)[i] == CitySales(c, CityTotal(rows, c));
    }
  }

  /** Sorting keeps the cities distinct. */
  lemma SortKeepsDistinct(s: seq<CitySales>)
    requires DistinctStrings(CitiesOf(s))
    ensures DistinctStrings(CitiesOf(SortByTotalDesc(s)))
  {
    var r := SortByTotalDesc(s);
    forall i, j | 0 <= i < j < |r|
      ensures CitiesOf(r)[i] != CitiesOf(r)[j]
    {
      PermutedPairDistinct(s, r, i, j);
    }
  }

  /** Two positions of a permutation of `s` hold different cities when `s`
      has no city twice. */
  lemma PermutedPairDistinct(s: seq<CitySales>, r: seq<CitySales>, i: int, j: int)
    requires DistinctStrings(CitiesOf(s)) && multiset(r) == multiset(s)
    requires 0 <= i < j < |r|
    ensures r[i].city != r[j].city
  {
    assert r[i] in multiset(s) && r[j] in multiset(s);
    var a :| 0 <= a < |s| && s[a] == r[i];
    var b :| 0 <= b < |s| && s[b] == r[j];
    MultisetAtMostOnce(s, a);
    NotTwice(r, i, j);
    assert CitiesOf(s)[a] != CitiesOf(s)[b];
  }

  /** An element that occurs once in `r` is not found at two positions. */
  lemma NotTwice(r: seq<CitySales>, i: int, j: int)
    requires 0 <= i < j < |r| && multiset(r)[r[i]] == 1
    ensures r[i] != r[j]
  {
    assert r == r[..j] + [r[j]] + r[j + 1..];
    assert r[i] in r[..j];
    assert multiset(r)[r[j]] >= multiset(r[..j])[r[j]] + 1;
  }

  /** An element of a sequence with distinct cities occurs there once. */
  lemma {:induction false} MultisetAtMostOnce(s: seq<CitySales>, a: int)
    requires DistinctStrings(CitiesOf(s)) && 0 <= a < |s|
    ensures multiset(s)[s[a]] == 1
  {
    var init := s[..|s| - 1];
    assert s == init + [s[|s| - 1]];
    assert DistinctStrings(CitiesOf(init)) by {
      assert forall k :: 0 <= k < |init| ==> CitiesOf(init)[k] == CitiesOf(s)[k];
    }
    if a == |s| - 1 {
      assert s[a] !in init by {
        assert forall k :: 0 <= k < |init| ==> init[k].city == CitiesOf(s)[k] != CitiesOf(s)[a];
      }
    } else {
      MultisetAtMostOnce(init, a);
      assert init[a] == s[a];
      assert CitiesOf(s)[a] != CitiesOf(s)[|s| - 1];
    }
  }

  /** The chart data: at most ten rows, one per city, each with that city's
      total, largest first, ten of them whenever there are ten cities or more,
      and no city left out has a larger total than one shown. */
  lemma TopCitiesSpec(rows: seq<CleanRow>)
    ensures var top := TopCities(rows);
      |top| == Min(ChartSize, |CitySet(rows)|) &&
      SortedByTotalDesc(top) &&
      DistinctStrings(CitiesOf(top)) &&
      (forall g :: g in top ==> g.city in CitySet(rows) && g.total == CityTotal(rows, g.city)) &&
      (forall c, k :: c in CitySet(rows) && c !in CitiesOf(top) && 0 <= k < |top| ==> CityTotal(rows, c) <= top[k].total)
  {
    GroupsFacts(rows);
    TopCitiesShape(rows);
    TopCitiesContents(rows);
    TopCitiesAreTop(rows);
  }

  lemma TopCitiesShape(rows: seq<CleanRow>)
    ensures |TopCities(rows)| == Min(ChartSize, |CitySet(rows)|)
    ensures SortedByTotalDesc(TopCities(rows))
    ensures DistinctStrings(CitiesOf(TopCities(rows)))
  {
    var groups := Groups(rows);
    var sorted := SortByTotalDesc(groups);
    var top := TopCities(rows);
    GroupsFacts(rows);
    SortKeepsDistinct(groups);
    assert |sorted| == |multiset(sorted)| == |multiset(groups)| == |groups|;
    assert forall i :: 0 <= i < |top| ==> CitiesOf(top)[i] == CitiesOf(sorted)[i];
  }

  lemma TopCitiesContents(rows: seq<CleanRow>)
    ensures forall g :: g in TopCities(rows) ==> g.city in CitySet(rows) && g.total == CityTotal(rows, g.city)
  {
    var sorted := SortByTotalDesc(Groups(rows));
    GroupsFacts(rows);
    forall g | g in TopCities(rows)
      ensures g in Groups(rows)
    {
      assert g in multiset(sorted);
    }
  }

  lemma TopCitiesAreTop(rows: seq<CleanRow>)
    ensures forall c, k :: c in CitySet(rows) && c !in CitiesOf(TopCities(rows)) && 0 <= k < |TopCities(rows)| ==>
      CityTotal(rows, c) <= TopCities(rows)[k].total
  {
    var sorted := SortByTotalDesc(Groups(rows));
    var top := TopCities(rows);
    GroupsFacts(rows);
    forall c, k | c in CitySet(rows) && c !in CitiesOf(top) && 0 <= k < |top|
      ensures CityTotal(rows, c) <= top[k].total
    {
      var g := CitySales(c, CityTotal(rows, c));
      assert g in multiset(sorted);
      var p :| 0 <= p < |sorted| && sorted[p] == g;
      LeftOutIsBelow(sorted, Min(ChartSize, |sorted|), p, k);
    }
  }

  /** An element of a sorted sequence whose city is not among the first `n`
      is no larger than any of them. */
  lemma LeftOutIsBelow(sorted: seq<CitySales>, n: nat, p: nat, k: nat)
    requires SortedByTotalDesc(sorted) && n <= |sorted|
    requires p < |sorted| && sorted[p].city !in CitiesOf(sorted[..n]) && k < n
    ensures sorted[p].total <= sorted[k].total
  {
    var top := sorted[..n];
    assert forall i :: 0 <= i < n ==> CitiesOf(top)[i] == sorted[i].city;
    assert n <= p;
  }

  // ------------------------------------------------ nothing lost in grouping

  /** The sum of Total over all rows. */
  function RowsTotal(rows: seq<CleanRow>): real
  {
    if rows == [] then 0.0 else RowsTotal(rows[..|rows| - 1]) + rows[|rows| - 1].total
  }

  /** The sum of the city totals of `cs`. */
  function CitiesTotal(rows: seq<CleanRow>, cs: seq<string>): real
  {
    if cs == [] then 0.0 else CitiesTotal(rows, cs[..|cs| - 1]) + CityTotal(rows, cs[|cs| - 1])
  }

  function SalesTotal(s: seq<CitySales>): real
  {
    if s == [] then 0.0 else SalesTotal(s[..|s| - 1]) + s[|s| - 1].total
  }

  /** A city without rows has total zero. */
  lemma {:induction false} AbsentCityTotal(rows: seq<CleanRow>, c: string)
    requires c !in CitySet(rows)
    ensures CityTotal(rows, c) == 0.0
  {
    if rows != [] {
      var init := rows[..|rows| - 1];
      assert CitySet(init) <= CitySet(rows) by {
        assert forall i :: 0 <= i < |init| ==> init[i] == rows[i];
      }
      AbsentCityTotal(init, c);
    }
  }

  /** Appending row `x` adds its Total to the sum over `cs` exactly when its
      city is one of `cs`. */
  lemma {:induction false} CitiesTotalSnoc(init: seq<CleanRow>, x: CleanRow, cs: seq<string>)
    requires DistinctStrings(cs)
    ensures CitiesTotal(init + [x], cs) == CitiesTotal(init, cs) + (if x.city in cs then x.total else 0.0)
  {
    if cs != [] {
      var front := cs[..|cs| - 1];
      assert (init + [x])[..|init + [x]| - 1] == init;
      CitiesTotalSnoc(init, x, front);
      assert x.city in cs <==> x.city in front || x.city == cs[|cs| - 1];
      assert x.city == cs[|cs| - 1] ==> x.city !in front;
    }
  }

  /** The city totals add up to the total of all rows. */
  lemma {:induction false} CityTotalsSumToRowsTotal(rows: seq<CleanRow>)
    ensures CitiesTotal(rows, Cities(rows)) == RowsTotal(rows)
  {
    if rows != [] {
      var init, x := rows[..|rows| - 1], rows[|rows| - 1];
      assert rows == init + [x];
      var cs := Cities(init);
      CityTotalsSumToRowsTotal(init);
      CitiesTotalSnoc(init, x, cs);
      if x.city !in cs {
        AbsentCityTotal(init, x.city);
        assert (cs + [x.city])[..|cs|] == cs;
      }
    }
  }

  lemma {:induction false} SalesTotalOfGroups(rows: seq<CleanRow>, cs: seq<string>)
    ensures SalesTotal(seq(|cs|, i requires 0 <= i < |cs| => CitySales(cs[i], CityTotal(rows, cs[i])))) == CitiesTotal(rows, cs)
  {
    if cs != [] {
      var front := cs[..|cs| - 1];
      SalesTotalOfGroups(rows, front);
      var gs := seq(|cs|, i requires 0 <= i < |cs| => CitySales(cs[i], CityTotal(rows, cs[i])));
      assert gs[..|gs| - 1] == seq(|front|, i requires 0 <= i < |front| => CitySales(front[i], CityTotal(rows, front[i])));
    }
  }

  /** Grouping by city loses and duplicates no sales: the group totals add up
      to the total of all cleaned rows. */
  lemma GroupsConserveTotal(rows: seq<CleanRow>)
    ensures SalesTotal(Groups(rows)) == RowsTotal(rows)
  {
    SalesTotalOfGroups(rows, Cities(rows));
    CityTotalsSumToRowsTotal(rows);
  }
}
