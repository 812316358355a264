/** The composition charts: categories ranked by their total over the
    selection, the ten largest kept by name and the rest pooled as "RESTO",
    and each year's values turned into percentage shares of that year. */
module Composition {
  import opened Seqs
  import opened Grouping
  import opened Series

  /** How many categories keep their own name (`head(10)`). */
  const TopCount: nat := 10

  /** The label of the pooled remainder. */
  const Rest: string := "RESTO"

  function Min(a: nat, b: nat): nat { if a < b then a else b }

  // ------------------------------------------------------------------ ranking

  /** Totals never increase along `gs` (`sort_values(ascending=False)`). */
  predicate NonIncreasing(gs: seq<Group<string>>)
  {
    forall i, j :: 0 <= i < j < |gs| ==> gs[i].total >= gs[j].total
  }

  /** No category appears twice. */
  predicate DistinctKeys(gs: seq<Group<string>>)
  {
    forall i, j :: 0 <= i < j < |gs| ==> gs[i].key != gs[j].key
  }

  /** Insert `g` before the first group of `s` with a smaller total. */
  function Insert(g: Group<string>, s: seq<Group<string>>): (r: seq<Group<string>>)
    ensures multiset(r) == multiset(s) + multiset{g}
    decreases |s|
  {
    if |s| == 0 then [g]
    else if g.total >= s[0].total then [g] + s
    else
      assert s == [s[0]] + s[1..];
      [s[0]] + Insert(g, s[1..])
  }

  /** Every group of an insertion is the inserted one or was already there. */
  lemma InsertMembers(g: Group<string>, s: seq<Group<string>>, k: int)
    requires 0 <= k < |Insert(g, s)|
    ensures Insert(g, s)[k] == g || Insert(g, s)[k] in s
  {
    assert Insert(g, s)[k] in multiset(Insert(g, s));
  }

  /** Inserting into a non-increasing sequence keeps it non-increasing. */
  lemma {:induction false} InsertSorted(g: Group<string>, s: seq<Group<string>>)
    requires NonIncreasing(s)
    ensures NonIncreasing(Insert(g, s))
    decreases |s|
  {
    if |s| > 0 && g.total < s[0].total {
      var tail := Insert(g, s[1..]);
      InsertSorted(g, s[1..]);
      forall k | 0 <= k < |tail|
        ensures s[0].total >= tail[k].total
      {
        InsertMembers(g, s[1..], k);
      }
    }
  }

  /** Inserting a group of a new category keeps the categories distinct. */
  lemma {:induction false} InsertDistinct(g: Group<string>, s: seq<Group<string>>)
    requires DistinctKeys(s)
    requires forall k :: 0 <= k < |s| ==> s[k].key != g.key
    ensures DistinctKeys(Insert(g, s))
    decreases |s|
  {
    if |s| > 0 && g.total < s[0].total {
      var tail := Insert(g, s[1..]);
      InsertDistinct(g, s[1..]);
      forall k | 0 <= k < |tail|
        ensures s[0].key != tail[k].key
      {
        InsertMembers(g, s[1..], k);
      }
    }
  }

  /** Insertion sort, largest total first. */
  function SortDesc(gs: seq<Group<string>>): (s: seq<Group<string>>)
    ensures multiset(s) == multiset(gs)
    decreases |gs|
  {
    if |gs| == 0 then []
    else
      assert gs == [gs[0]] + gs[1..];
      Insert(gs[0], SortDesc(gs[1..]))
  }

  /** The ranking is ordered, and a sequence with distinct categories stays
      so. Groups with equal totals may come out in any order. */
  lemma {:induction false} SortDescOrdered(gs: seq<Group<string>>)
    ensures NonIncreasing(SortDesc(gs))
    ensures DistinctKeys(gs) ==> DistinctKeys(SortDesc(gs))
    decreases |gs|
  {
    if |gs| > 0 {
      var rest := SortDesc(gs[1..]);
      SortDescOrdered(gs[1..]);
      InsertSorted(gs[0], rest);
      if DistinctKeys(gs) {
        forall k | 0 <= k < |rest|
          ensures rest[k].key != gs[0].key
        {
          assert rest[k] in multiset(gs[1..]);
        }
        InsertDistinct(gs[0], rest);
      }
    }
  }

  /** The categories carried by `gs`. */
  function KeysOf(gs: seq<Group<string>>): set<string>
  {
    set j | 0 <= j < |gs| :: gs[j].key
  }

  /** Two sequences with the same groups carry the same categories. */
  lemma SameMembersSameKeys(a: seq<Group<string>>, b: seq<Group<string>>)
    requires multiset(a) == multiset(b)
    ensures KeysOf(a) == KeysOf(b)
  {
    forall k | k in KeysOf(a)
      ensures k in KeysOf(b)
    {
      var j :| 0 <= j < |a| && a[j].key == k;
      assert a[j] in multiset(b);
      var m :| 0 <= m < |b| && b[m] == a[j];
    }
    forall k | k in KeysOf(b)
      ensures k in KeysOf(a)
    {
      var j :| 0 <= j < |b| && b[j].key == k;
      assert b[j] in multiset(a);
      var m :| 0 <= m < |a| && a[m] == b[j];
    }
  }

  /** `prod_total` / `sub_total`: one group per category of the selection,
      holding its total, ranked largest first. */
  function Ranking(facts: seq<Fact>): (ranked: seq<Group<string>>)
    ensures NonIncreasing(ranked)
    ensures DistinctKeys(ranked)
    ensures |ranked| == |KeySet(facts, Category)|
    ensures KeysOf(ranked) == KeySet(facts, Category)
    ensures forall j :: 0 <= j < |ranked| ==> ranked[j].total == SumBy(facts, Category, Value, ranked[j].key)
  {
    var gs := GroupSums(facts, Category, Value);
    var ranked := SortDesc(gs);
    SortDescOrdered(gs);
    SameMembersSameKeys(ranked, gs);
    assert |ranked| == |multiset(ranked)| == |multiset(gs)| == |gs|;
    assert forall j :: 0 <= j < |ranked| ==> ranked[j].total == SumBy(facts, Category, Value, ranked[j].key) by {
      forall j | 0 <= j < |ranked|
        ensures ranked[j].total == SumBy(facts, Category, Value, ranked[j].key)
      {
        assert ranked[j] in multiset(gs);
      }
    }
    ranked
  }

  // --------------------------------------------------------- top ten and RESTO

  /** The categories of the first `n` groups of `ranked` (`head(n)`). */
  function Leading(ranked: seq<Group<string>>, n: nat): (top: seq<string>)
    ensures |top| == Min(n, |ranked|)
    ensures forall i :: 0 <= i < |top| ==> top[i] == ranked[i].key
  {
    var t := Min(n, |ranked|);
    seq(t, i requires 0 <= i < t => ranked[i].key)
  }

  /** The leading categories of a ranking without repeats are distinct. */
  lemma LeadingDistinct(ranked: seq<Group<string>>, n: nat)
    requires DistinctKeys(ranked)
    ensures Distinct(Leading(ranked, n))
  {
  }

  /** A category of the ranking left out of the leading ones sits after them,
      so its total is at most each leading total. */
  lemma LeadingDominates(ranked: seq<Group<string>>, n: nat, m: int, i: int)
    requires NonIncreasing(ranked) && DistinctKeys(ranked)
    requires 0 <= m < |ranked| && ranked[m].key !in Leading(ranked, n)
    requires 0 <= i < |Leading(ranked, n)|
    ensures ranked[m].total <= ranked[i].total
  {
    var top := Leading(ranked, n);
    if m < |top| {
      assert false;
    }
  }

  /** `top8` / `top8s`: the categories of the first ten ranked groups. They
      are `min(10, #categories)` distinct categories of the selection, in
      non-increasing order of total, and no category left out has a larger
      total than one kept. */
  function Top(facts: seq<Fact>): (top: seq<string>)
    ensures |top| == Min(TopCount, |KeySet(facts, Category)|)
    ensures Distinct(top)
    ensures forall i :: 0 <= i < |top| ==> top[i] in KeySet(facts, Category)
    ensures forall i, j :: 0 <= i < j < |top| ==>
      SumBy(facts, Category, Value, top[i]) >= SumBy(facts, Category, Value, top[j])
    ensures forall c, i :: c in KeySet(facts, Category) && c !in top && 0 <= i < |top| ==>
      SumBy(facts, Category, Value, c) <= SumBy(facts, Category, Value, top[i])
  {
    var ranked := Ranking(facts);
    LeadingDistinct(ranked, TopCount);
    TopInKeys(facts);
    TopOrdered(facts);
    TopDominates(facts);
    Leading(ranked, TopCount)
  }

  /** The leading categories of the ranking are categories of the selection. */
  lemma TopInKeys(facts: seq<Fact>)
    ensures var top := Leading(Ranking(facts), TopCount);
      forall i :: 0 <= i < |top| ==> top[i] in KeySet(facts, Category)
  {
    var ranked := Ranking(facts);
    var top := Leading(ranked, TopCount);
    assert forall i :: 0 <= i < |top| ==> top[i] in KeysOf(ranked);
  }

  /** The leading categories come in non-increasing order of total. */
  lemma TopOrdered(facts: seq<Fact>)
    ensures var top := Leading(Ranking(facts), TopCount);
      forall i, j :: 0 <= i < j < |top| ==>
        SumBy(facts, Category, Value, top[i]) >= SumBy(facts, Category, Value, top[j])
  {
    var ranked := Ranking(facts);
    var top := Leading(ranked, TopCount);
    assert forall i :: 0 <= i < |top| ==> SumBy(facts, Category, Value, top[i]) == ranked[i].total;
  }

  /** No category left out of the leading ones has a larger total than one
      kept. */
  lemma TopDominates(facts: seq<Fact>)
    ensures var top := Leading(Ranking(facts), TopCount);
      forall c, i :: c in KeySet(facts, Category) && c !in top && 0 <= i < |top| ==>
        SumBy(facts, Category, Value, c) <= SumBy(facts, Category, Value, top[i])
  {
    var ranked := Ranking(facts);
    var top := Leading(ranked, TopCount);
    forall c, i | c in KeySet(facts, Category) && c !in top && 0 <= i < |top|
      ensures SumBy(facts, Category, Value, c) <= SumBy(facts, Category, Value, top[i])
    {
      assert c in KeysOf(ranked);
      var m :| 0 <= m < |ranked| && ranked[m].key == c;
      LeadingDominates(ranked, TopCount, m, i);
    }
  }

  /** Selects the groups whose category is not in `top`. */
  function Outside(top: seq<string>): Group<string> -> bool
  {
    (g: Group<string>) => g.key !in top
  }

  /** Past its leading categories, a ranking without repeats has only
      categories outside them. */
  lemma {:induction false} CountOutsideLeading(ranked: seq<Group<string>>, n: nat)
    requires DistinctKeys(ranked)
    ensures Count(ranked, Outside(Leading(ranked, n))) == |ranked| - |Leading(ranked, n)|
  {
    var top := Leading(ranked, n);
    var t := |top|;
    assert ranked == ranked[..t] + ranked[t..];
    CountAppend(ranked[..t], ranked[t..], Outside(top));
    CountNone(ranked[..t], Outside(top));
    forall i | 0 <= i < |ranked[t..]|
      ensures Outside(top)(ranked[t..][i])
    {
      assert ranked[t..][i] == ranked[t + i];
    }
    CountAll(ranked[t..], Outside(top));
  }

  /** `n_resto_exp` / `n_resto_imp`: the number of ranked groups whose
      category is not among the top ones, which is the number of categories
      the top list leaves out. */
  function RestCount(facts: seq<Fact>): (n: nat)
    ensures n == |KeySet(facts, Category)| - |Top(facts)|
    ensures n == 0 <==> |KeySet(facts, Category)| <= TopCount
  {
    var ranked := Ranking(facts);
    CountOutsideLeading(ranked, TopCount);
    Count(ranked, Outside(Top(facts)))
  }

  /** `where(isin(top), "RESTO")`: a top category keeps its name, any other
      becomes "RESTO". */
  function Bucket(top: seq<string>, c: string): (b: string)
    ensures c in top ==> b == c
    ensures c !in top ==> b == Rest
  {
    if c in top then c else Rest
  }

  /** The key of the area charts: a year and a bucket. */
  datatype Cell = Cell(year: int, bucket: string)

  function CellOf(top: seq<string>): Fact -> Cell
  {
    (f: Fact) => Cell(f.year, Bucket(top, f.category))
  }

  /** `exp_area` / `imp_area`: the selection grouped by year and bucket. */
  function Area(facts: seq<Fact>, top: seq<string>): (area: seq<Group<Cell>>)
    ensures forall i, j :: 0 <= i < j < |area| ==> area[i].key != area[j].key
    ensures (set j | 0 <= j < |area| :: area[j].key) == KeySet(facts, CellOf(top))
    ensures forall j :: 0 <= j < |area| ==> area[j].total == SumBy(facts, CellOf(top), Value, area[j].key)
  {
    GroupSums(facts, CellOf(top), Value)
  }

  /** Selects the area rows of year `y`. */
  function InYear(y: int): Cell -> bool
  {
    (k: Cell) => k.year == y
  }

  lemma {:induction false} SumWhereYear(facts: seq<Fact>, top: seq<string>, y: int)
    ensures SumWhere(facts, CellOf(top), Value, InYear(y)) == SumBy(facts, Year, Value, y)
  {
    if |facts| > 0 {
      SumWhereYear(facts[..|facts| - 1], top, y);
    }
  }

  /** Pooling the small categories into "RESTO" loses nothing: each year's
      area rows add up to that year's total over the selection. */
  lemma AreaKeepsYearTotals(facts: seq<Fact>, top: seq<string>, y: int)
    ensures TotalWhere(Area(facts, top), InYear(y)) == SumBy(facts, Year, Value, y)
  {
    GroupSumsConserve(facts, CellOf(top), Value, InYear(y));
    SumWhereYear(facts, top, y);
  }

  /** Over the whole period, the named categories and "RESTO" together add
      up to the grand total of the selection. */
  lemma AreaKeepsGrandTotal(facts: seq<Fact>, top: seq<string>)
    ensures TotalWhere(Area(facts, top), Everything()) == Total(facts, Value)
  {
    GroupSumsConserve(facts, CellOf(top), Value, Everything());
    SumWhereEverything(facts, CellOf(top), Value);
  }

  // ------------------------------------------------------------------- shares

  /** `value / total.replace(0, 1) * 100`: the percentage of `value` in
      `total`, dividing by 1 when the total is zero. */
  function Share(value: real, total: real): (pct: real)
    ensures total != 0.0 ==> pct * total == value * 100.0
    ensures total == 0.0 ==> pct == value * 100.0
  {
    value / (if total == 0.0 then 1.0 else total) * 100.0
  }

  /** One row of the percentage chart. */
  datatype ShareRow = ShareRow(year: int, bucket: string, value: real, total: real, pct: real)

  /** The area rows with their year's total merged in and the share
      computed: row `j` describes area row `j`. */
  function Shares(area: seq<Group<Cell>>): (rows: seq<ShareRow>)
    ensures |rows| == |area|
    ensures forall j :: 0 <= j < |rows| ==>
      rows[j].year == area[j].key.year && rows[j].bucket == area[j].key.bucket && rows[j].value == area[j].total
    ensures forall j :: 0 <= j < |rows| ==> rows[j].total == TotalWhere(area, InYear(rows[j].year))
    ensures forall j :: 0 <= j < |rows| ==> rows[j].pct == Share(rows[j].value, rows[j].total)
  {
    seq(|area|, j requires 0 <= j < |area| =>
      var total := TotalWhere(area, InYear(area[j].key.year));
      ShareRow(area[j].key.year, area[j].key.bucket, area[j].total, total, Share(area[j].total, total)))
  }

  /** Sum of the values of the rows of year `y`. */
  function YearValues(rows: seq<ShareRow>, y: int): real
    decreases |rows|
  {
    if |rows| == 0 then 0.0
    else YearValues(rows[..|rows| - 1], y) + (if rows[|rows| - 1].year == y then rows[|rows| - 1].value else 0.0)
  }

  /** Sum of the shares of the rows of year `y`. */
  function YearShares(rows: seq<ShareRow>, y: int): real
    decreases |rows|
  {
    if |rows| == 0 then 0.0
    else YearShares(rows[..|rows| - 1], y) + (if rows[|rows| - 1].year == y then rows[|rows| - 1].pct else 0.0)
  }

  lemma {:induction false} YearValuesOfArea(rows: seq<ShareRow>, area: seq<Group<Cell>>, y: int)
    requires |rows| == |area|
    requires forall j :: 0 <= j < |rows| ==> rows[j].year == area[j].key.year && rows[j].value == area[j].total
    ensures YearValues(rows, y) == TotalWhere(area, InYear(y))
  {
    if |rows| > 0 {
      YearValuesOfArea(rows[..|rows| - 1], area[..|area| - 1], y);
    }
  }

  lemma {:induction false} YearSharesScale(rows: seq<ShareRow>, y: int, total: real)
    requires total != 0.0
    requires forall j :: 0 <= j < |rows| && rows[j].year == y ==> rows[j].pct * total == rows[j].value * 100.0
    ensures YearShares(rows, y) * total == YearValues(rows, y) * 100.0
  {
    if |rows| > 0 {
      var front := rows[..|rows| - 1];
      var last := rows[|rows| - 1];
      YearSharesScale(front, y, total);
      if last.year == y {
        calc {
          YearShares(rows, y) * total;
          (YearShares(front, y) + last.pct) * total;
          YearShares(front, y) * total + last.pct * total;
          YearValues(front, y) * 100.0 + last.value * 100.0;
          YearValues(rows, y) * 100.0;
        }
      }
    }
  }

  /** A year with a non-zero total has shares adding up to 100%. */
  lemma SharesSumToHundred(area: seq<Group<Cell>>, y: int)
    requires TotalWhere(area, InYear(y)) != 0.0
    ensures YearShares(Shares(area), y) == 100.0
  {
    var rows := Shares(area);
    var total := TotalWhere(area, InYear(y));
    YearValuesOfArea(rows, area, y);
    YearSharesScale(rows, y, total);
    assert YearShares(rows, y) * total == total * 100.0;
  }

  /** Non-negative totals that add up to zero are all zero. */
  lemma {:induction false} ZeroSumOfNonNegatives<K>(gs: seq<Group<K>>, keep: K -> bool, j: int)
    requires forall i :: 0 <= i < |gs| ==> gs[i].total >= 0.0
    requires TotalWhere(gs, keep) == 0.0
    requires 0 <= j < |gs| && keep(gs[j].key)
    ensures gs[j].total == 0.0
  {
    var front := gs[..|gs| - 1];
    NonNegativeTotal(front, keep);
    if j < |gs| - 1 {
      ZeroSumOfNonNegatives(front, keep, j);
    }
  }

  lemma {:induction false} NonNegativeTotal<K>(gs: seq<Group<K>>, keep: K -> bool)
    requires forall i :: 0 <= i < |gs| ==> gs[i].total >= 0.0
    ensures TotalWhere(gs, keep) >= 0.0
  {
    if |gs| > 0 {
      NonNegativeTotal(gs[..|gs| - 1], keep);
    }
  }

  /** The zero-total guard: when the selection's values are non-negative and
      a year's total is zero, every share of that year is 0 rather than an
      error. */
  lemma ZeroTotalZeroShares(facts: seq<Fact>, top: seq<string>, j: int)
    requires forall i :: 0 <= i < |facts| ==> facts[i].value >= 0.0
    requires 0 <= j < |Area(facts, top)|
    requires Shares(Area(facts, top))[j].total == 0.0
    ensures Shares(Area(facts, top))[j].pct == 0.0
  {
    var area := Area(facts, top);
    forall i | 0 <= i < |area|
      ensures area[i].total >= 0.0
    {
      SumByNonNegative(facts, CellOf(top), Value, area[i].key);
    }
    ZeroSumOfNonNegatives(area, InYear(area[j].key.year), j);
  }
}
