/** The yearly series drawn from a selection: the facts the charts are built
    from, and the annual trade balance over every year of the range. */
module Series {
  import opened Seqs
  import opened Grouping
  import opened Trade
  import opened Selection

  /** One selected row as the charts see it: its year, its category
      (`PP` for exports, `Subgrupo` for imports) and its value in millions. */
  datatype Fact = Fact(year: int, category: string, value: real)

  function Year(f: Fact): int { f.year }

  function Category(f: Fact): string { f.category }

  function Value(f: Fact): real { f.value }

  /** The export rows as facts: year, product, FOB. */
  function ExportFacts(rows: seq<ExportRow>): (facts: seq<Fact>)
    ensures |facts| == |rows|
    ensures forall i :: 0 <= i < |rows| ==>
      facts[i].year == rows[i].year && facts[i].category == rows[i].product && facts[i].value == rows[i].fob
  {
    seq(|rows|, i requires 0 <= i < |rows| => Fact(rows[i].year, rows[i].product, rows[i].fob))
  }

  /** The import rows as facts: year, CUODE subgroup, CIF. */
  function ImportFacts(rows: seq<ImportRow>): (facts: seq<Fact>)
    ensures |facts| == |rows|
    ensures forall i :: 0 <= i < |rows| ==>
      facts[i].year == rows[i].year && facts[i].category == rows[i].subgroup && facts[i].value == rows[i].cif
  {
    seq(|rows|, i requires 0 <= i < |rows| => Fact(rows[i].year, rows[i].subgroup, rows[i].cif))
  }

  // ------------------------------------------------------------ annual balance

  /** One row of the balance table: exports, imports and their difference. */
  datatype BalanceRow = BalanceRow(year: int, fob: real, cif: real, saldo: real)

  /** The left merge of a grouped-by-year table followed by `fillna(0)`: the
      total of the first row for year `y`, or 0 when there is none. */
  function YearValue(gs: seq<Group<int>>, y: int): (v: real)
    ensures (exists j :: 0 <= j < |gs| && gs[j].key == y && v == gs[j].total)
         || ((forall j :: 0 <= j < |gs| ==> gs[j].key != y) && v == 0.0)
  {
    if |gs| == 0 then 0.0
    else if gs[0].key == y then gs[0].total
    else YearValue(gs[1..], y)
  }

  /** Looking a year up in `groupby("Anio").sum()` gives that year's raw sum,
      present or not. */
  lemma YearLookup(facts: seq<Fact>, y: int)
    ensures YearValue(GroupSums(facts, Year, Value), y) == SumBy(facts, Year, Value, y)
  {
    var gs := GroupSums(facts, Year, Value);
    if forall j :: 0 <= j < |gs| ==> gs[j].key != y {
      assert y !in (set j | 0 <= j < |gs| :: gs[j].key);
      assert forall i :: 0 <= i < |facts| ==> Year(facts[i]) in KeySet(facts, Year);
      SumByAbsent(facts, Year, Value, y);
    }
  }

  /** Number of years from `range.first` to `range.last`, none when reversed. */
  function YearCount(range: YearRange): (n: nat)
    ensures range.first <= range.last ==> n == range.last - range.first + 1
    ensures range.last < range.first ==> n == 0
  {
    if range.last < range.first then 0 else range.last - range.first + 1
  }

  /** `row` is the balance of year `y`: that year's export and import sums
      (zero when the year has no data) and their difference. */
  predicate IsBalanceOf(exports: seq<Fact>, imports: seq<Fact>, y: int, row: BalanceRow)
  {
    && row.year == y
    && row.fob == SumBy(exports, Year, Value, y)
    && row.cif == SumBy(imports, Year, Value, y)
    && row.saldo == row.fob - row.cif
  }

  /** The balance row of year `y`: both tables grouped by year, merged on
      `y` with `fillna(0)`, and `Saldo` their difference. */
  function BalanceOf(exports: seq<Fact>, imports: seq<Fact>, y: int): (row: BalanceRow)
    ensures IsBalanceOf(exports, imports, y, row)
  {
    YearLookup(exports, y);
    YearLookup(imports, y);
    var fob := YearValue(GroupSums(exports, Year, Value), y);
    var cif := YearValue(GroupSums(imports, Year, Value), y);
    BalanceRow(y, fob, cif, fob - cif)
  }

  /** `balance`: one row per year of the range, ascending, exports and imports
      being that year's sums (zero for a year without data) and `Saldo` their
      difference. */
  function AnnualBalance(exports: seq<Fact>, imports: seq<Fact>, range: YearRange): (rows: seq<BalanceRow>)
    ensures |rows| == YearCount(range)
    ensures forall i :: 0 <= i < |rows| ==> IsBalanceOf(exports, imports, range.first + i, rows[i])
  {
    var rows := seq(YearCount(range), i => BalanceOf(exports, imports, range.first + i));
    forall i | 0 <= i < |rows|
      ensures IsBalanceOf(exports, imports, range.first + i, rows[i])
    {
      assert rows[i] == BalanceOf(exports, imports, range.first + i);
    }
    rows
  }

  /** A year of the range without any selected row still has its row, with
      zero exports, zero imports and zero balance. */
  lemma BalanceZeroFill(exports: seq<Fact>, imports: seq<Fact>, range: YearRange, i: int)
    requires 0 <= i < YearCount(range)
    requires forall k :: 0 <= k < |exports| ==> exports[k].year != range.first + i
    requires forall k :: 0 <= k < |imports| ==> imports[k].year != range.first + i
    ensures AnnualBalance(exports, imports, range)[i] == BalanceRow(range.first + i, 0.0, 0.0, 0.0)
  {
    var row := AnnualBalance(exports, imports, range)[i];
    assert IsBalanceOf(exports, imports, range.first + i, row);
    SumByAbsent(exports, Year, Value, range.first + i);
    SumByAbsent(imports, Year, Value, range.first + i);
    assert row.fob == 0.0 && row.cif == 0.0;
  }

  /** Sum of one column of the balance table. */
  function Column(rows: seq<BalanceRow>, col: BalanceRow -> real): real
    decreases |rows|
  {
    if |rows| == 0 then 0.0 else Column(rows[..|rows| - 1], col) + col(rows[|rows| - 1])
  }

  function Fob(r: BalanceRow): real { r.fob }

  function Cif(r: BalanceRow): real { r.cif }

  function Saldo(r: BalanceRow): real { r.saldo }

  /** The sum of the yearly sums for the `n` years from `first`. */
  function YearSums(facts: seq<Fact>, first: int, n: nat): real
  {
    if n == 0 then 0.0 else YearSums(facts, first, n - 1) + SumBy(facts, Year, Value, first + n - 1)
  }

  lemma {:induction false} SumBySnoc(facts: seq<Fact>, x: Fact, y: int)
    ensures SumBy(facts + [x], Year, Value, y)
         == SumBy(facts, Year, Value, y) + (if x.year == y then x.value else 0.0)
  {
    assert (facts + [x])[..|facts|] == facts;
  }

  lemma {:induction false} YearSumsSnoc(facts: seq<Fact>, x: Fact, first: int, n: nat)
    ensures YearSums(facts + [x], first, n)
         == YearSums(facts, first, n) + (if first <= x.year < first + n then x.value else 0.0)
  {
    if n > 0 {
      YearSumsSnoc(facts, x, first, n - 1);
      SumBySnoc(facts, x, first + n - 1);
    }
  }

  lemma {:induction false} YearSumsEmpty(first: int, n: nat)
    ensures YearSums([], first, n) == 0.0
  {
    if n > 0 {
      YearSumsEmpty(first, n - 1);
    }
  }

  /** When every fact lies in the `n` years from `first`, the yearly sums add
      up to the grand total. */
  lemma {:induction false} YearSumsCover(facts: seq<Fact>, first: int, n: nat)
    requires forall i :: 0 <= i < |facts| ==> first <= facts[i].year < first + n
    ensures YearSums(facts, first, n) == Total(facts, Value)
  {
    if |facts| == 0 {
      YearSumsEmpty(first, n);
    } else {
      var front := facts[..|facts| - 1];
      var x := facts[|facts| - 1];
      assert front + [x] == facts;
      YearSumsCover(front, first, n);
      YearSumsSnoc(front, x, first, n);
    }
  }

  /** A column whose `i`-th entry is the `i`-th year's sum adds up to the
      yearly sums. */
  lemma {:induction false} ColumnOfYearSums(rows: seq<BalanceRow>, col: BalanceRow -> real, facts: seq<Fact>, first: int)
    requires forall i :: 0 <= i < |rows| ==> col(rows[i]) == SumBy(facts, Year, Value, first + i)
    ensures Column(rows, col) == YearSums(facts, first, |rows|)
  {
    if |rows| > 0 {
      ColumnOfYearSums(rows[..|rows| - 1], col, facts, first);
    }
  }

  lemma {:induction false} SaldoColumn(rows: seq<BalanceRow>)
    requires forall i :: 0 <= i < |rows| ==> rows[i].saldo == rows[i].fob - rows[i].cif
    ensures Column(rows, Saldo) == Column(rows, Fob) - Column(rows, Cif)
  {
    if |rows| > 0 {
      SaldoColumn(rows[..|rows| - 1]);
    }
  }

  /** The balance chart agrees with the headline figures: when every
      selected row lies in the range (as the selection guarantees), the
      `FOB`, `CIF` and `Saldo` columns add up to the total exports, the total
      imports and their difference. */
  lemma BalanceConserves(exports: seq<Fact>, imports: seq<Fact>, range: YearRange)
    requires forall i :: 0 <= i < |exports| ==> InRange(exports[i].year, range)
    requires forall i :: 0 <= i < |imports| ==> InRange(imports[i].year, range)
    ensures Column(AnnualBalance(exports, imports, range), Fob) == Total(exports, Value)
    ensures Column(AnnualBalance(exports, imports, range), Cif) == Total(imports, Value)
    ensures Column(AnnualBalance(exports, imports, range), Saldo) == Total(exports, Value) - Total(imports, Value)
  {
    var rows := AnnualBalance(exports, imports, range);
    var n := YearCount(range);
    ColumnOfYearSums(rows, Fob, exports, range.first);
    ColumnOfYearSums(rows, Cif, imports, range.first);
    YearSumsCover(exports, range.first, n);
    YearSumsCover(imports, range.first, n);
    SaldoColumn(rows);
  }
}
