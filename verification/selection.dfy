/** The sidebar's period and the partner selection: the year range is put in
    order, and the aggregated tables are cut down to the chosen partner (or
    every partner of the chosen region) and the chosen years. */
module Selection {
  import opened Seqs
  import opened Countries
  import opened Trade

  /** A closed range of years, `rango`. */
  datatype YearRange = YearRange(first: int, last: int)

  /** The swap of the two year inputs: "Desde" and "Hasta" are exchanged when
      they arrive in the wrong order, so the range always runs forwards and
      is made of the two chosen years. */
  function OrderedRange(from: int, to: int): (range: YearRange)
    ensures range.first <= range.last
    ensures multiset{range.first, range.last} == multiset{from, to}
    ensures from <= to ==> range == YearRange(from, to)
  {
    if from > to then YearRange(to, from) else YearRange(from, to)
  }

  /** The order in which the two years are entered does not matter. */
  lemma OrderedRangeSymmetric(from: int, to: int)
    ensures OrderedRange(from, to) == OrderedRange(to, from)
  {
  }

  predicate InRange(year: int, range: YearRange)
  {
    range.first <= year <= range.last
  }

  /** What the partner selector holds: one country (by its display name) or
      "— Todos —" under a chosen region. */
  datatype Selection = Partner(name: string) | WholeRegion(region: string)

  /** The normalised keys the selection stands for: the key of the chosen
      country, or the keys of every country the index places in the region. */
  function SelectedKeys(index: map<string, CountryEntry>, sel: Selection): (keys: set<string>)
    requires sel.Partner? ==> sel.name in index
    ensures sel.Partner? ==> keys == {index[sel.name].key}
    ensures sel.WholeRegion? ==>
      forall d :: d in index && index[d].region == sel.region ==> index[d].key in keys
    ensures sel.WholeRegion? ==>
      forall k :: k in keys ==> exists d :: d in index && index[d].region == sel.region && index[d].key == k
  {
    match sel
    case Partner(name) => {index[name].key}
    case WholeRegion(region) => set d | d in index && index[d].region == region :: index[d].key
  }

  function KeepExport(keys: set<string>, range: YearRange): ExportRow -> bool
  {
    (row: ExportRow) => row.countryKey in keys && InRange(row.year, range)
  }

  function KeepImport(keys: set<string>, range: YearRange): ImportRow -> bool
  {
    (row: ImportRow) => row.countryKey in keys && InRange(row.year, range)
  }

  /** `df_exp_pais`: the export rows of the selected keys and years, in their
      original order; a row is kept exactly when its key is selected and its
      year lies in the range, and every kept row is kept as often as it
      passes (equal rows are not merged). */
  function SelectExports(rows: seq<ExportRow>, keys: set<string>, range: YearRange): (kept: seq<ExportRow>)
    ensures IsSubsequence(kept, rows)
    ensures forall i :: 0 <= i < |kept| ==> kept[i].countryKey in keys && InRange(kept[i].year, range)
    ensures forall i :: 0 <= i < |rows| ==>
      (rows[i] in kept <==> rows[i].countryKey in keys && InRange(rows[i].year, range))
    ensures |kept| == Count(rows, KeepExport(keys, range))
  {
    var keep := KeepExport(keys, range);
    var kept := Filter(rows, keep);
    FilterSubsequence(rows, keep);
    FilterCount(rows, keep);
    FilterMembers(rows, keep);
    assert forall i :: 0 <= i < |kept| ==> keep(kept[i]);
    kept
  }

  /** `df_imp_pais`, likewise. */
  function SelectImports(rows: seq<ImportRow>, keys: set<string>, range: YearRange): (kept: seq<ImportRow>)
    ensures IsSubsequence(kept, rows)
    ensures forall i :: 0 <= i < |kept| ==> kept[i].countryKey in keys && InRange(kept[i].year, range)
    ensures forall i :: 0 <= i < |rows| ==>
      (rows[i] in kept <==> rows[i].countryKey in keys && InRange(rows[i].year, range))
    ensures |kept| == Count(rows, KeepImport(keys, range))
  {
    var keep := KeepImport(keys, range);
    var kept := Filter(rows, keep);
    FilterSubsequence(rows, keep);
    FilterCount(rows, keep);
    FilterMembers(rows, keep);
    assert forall i :: 0 <= i < |kept| ==> keep(kept[i]);
    kept
  }

  /** Region mode is the union of its partners: an export row is selected for
      a whole region exactly when it is selected for some country the index
      places in that region. */
  lemma {:induction false} RegionIsUnionOfPartners(
    index: map<string, CountryEntry>, region: string, rows: seq<ExportRow>, range: YearRange, i: int)
    requires 0 <= i < |rows|
    ensures rows[i] in SelectExports(rows, SelectedKeys(index, WholeRegion(region)), range)
        <==> exists d :: d in index && index[d].region == region
                 && rows[i] in SelectExports(rows, SelectedKeys(index, Partner(d)), range)
  {
    var keys := SelectedKeys(index, WholeRegion(region));
    if rows[i] in SelectExports(rows, keys, range) {
      var d :| d in index && index[d].region == region && index[d].key == rows[i].countryKey;
      assert rows[i] in SelectExports(rows, SelectedKeys(index, Partner(d)), range);
    }
    if exists d :: d in index && index[d].region == region
                   && rows[i] in SelectExports(rows, SelectedKeys(index, Partner(d)), range) {
      var d :| d in index && index[d].region == region
               && rows[i] in SelectExports(rows, SelectedKeys(index, Partner(d)), range);
      assert index[d].key in keys;
    }
  }

  /** Selecting is idempotent: cutting a selection down again by the same
      keys and range changes nothing. */
  lemma SelectExportsIdempotent(rows: seq<ExportRow>, keys: set<string>, range: YearRange)
    ensures SelectExports(SelectExports(rows, keys, range), keys, range) == SelectExports(rows, keys, range)
  {
    FilterIdempotent(rows, KeepExport(keys, range));
  }
}
