# Ecuador trade-balance dashboard: a Dafny model of its data core

The dashboard (`app.py`) shows Ecuador's bilateral trade with one partner
country, or with every partner of a region, over a chosen range of years. It
draws from two tables: exports (FOB value) and imports (CIF value). Under the
Streamlit and Plotly layer sits a chain of pure data transformations, and
this project models that chain and proves what it promises:

- **`_normalizar`** turns a country name into its key. It upper-cases, strips,
  applies canonical decomposition (NFD) and drops every combining mark.
  Modelled in `text.dfy`. The four Unicode services are a `TextOps`
  parameter, so every theorem holds whatever they do. `latin.dfy` gives a
  small concrete instance, used only for worked examples.
- **`_asignar_region`** normalises the name once. It then scans
  `_REGION_PATTERNS` in order and returns the region of the first pattern
  whose normalised text occurs in the name, or "Otros" when none does.
  Modelled in `regions.dfy`. The scan is generic over the table, and the
  source's 192-row table and `REGION_ORDER` are also given as data.
- **Label tables** `SECTOR_MAP`, `GRUPO_MAP` and `SUBGRUPO_MAP`, each with
  its fallback label. Modelled in `categories.dfy`.
- **Aggregation** in `load_export_data` and `load_import_data`. Raw records
  are grouped by a key tuple, values are summed and converted from thousands
  to millions, and the label, key and region columns are derived. Modelled
  in `grouping.dfy` (a generic `groupby(...).sum()`) and `trade.dfy`. The
  aggregation is stated for any strip, key and region functions (a
  `Derivation`); `LoadExports` and `LoadImports` fix them to `str.strip`,
  `_normalizar` and `_asignar_region`.
- **`build_country_list`**: one entry per normalised key, shown under the
  export spelling when there is one, with its region. Modelled in
  `countries.dfy`.
- **The period and selection filter**: the year swap, then one partner or a
  whole region. Modelled in `selection.dfy`.
- **The annual balance** over every year of the range, with missing years
  zero-filled and `Saldo = FOB − CIF`. Modelled in `series.dfy`.
- **The composition charts**: the top ten categories, "RESTO" with its
  count, and per-year percentage shares with the zero-total guard. Modelled
  in `composition.dfy`.

`scenarios.dfy` states concrete cases:

- in the source's table the PAPUA row (Oceanía, row 107) comes before the
  GUINEA row (África, row 130);
- on a two-row excerpt holding just those two rows in that order, "PAPUA
  NUEVA GUINEA" is Oceanía, and the same name is África when the two rows
  are swapped (the full 192-row table is not evaluated on this name);
- a name that neither excerpt row matches falls back to "Otros";
- one 50 000 (thousand dollar) export record becomes a 50.0 (million) row;
- "Perú" and "PERU" share one key.

`seqs.dfy` holds the shared sequence vocabulary: options, sub-sequences,
filtering and counting.

## Notes on the code

- `_normalizar` is not idempotent. A combining mark in front of a blank
  hides the blank from `strip()`; once the mark is dropped the blank is
  exposed, so a second pass removes it (`Latin.NormalizeNotIdempotent`).
  The model proves the conditional form (`Text.NormalizeStable`) and the
  idempotence of the mark-dropping step.
- `sort_values(ascending=False)` gives no order among equal totals, so the
  model states none: it proves only that the ranking never increases.
- Patterns can disagree on one name. "PAPUA NUEVA GUINEA" contains both
  PAPUA (Oceanía) and GUINEA (África), so the table order decides
  (`Scenarios.OrderDecidesPapua`).

## Model

| member | source | states |
|---|---|---|
| Text.DropMarks | app.py:224-228 | the result holds no combining mark |
| Text.DropMarksSpec | app.py:224-228 | only combining marks are removed: the result is an order-preserving selection of the input, exactly as long as its number of non-marks, and holds a character exactly when the input holds it and it is not a mark |
| Text.Normalize | app.py:223-228 | the key holds no combining mark |
| Text.NormalizeSpec | app.py:223-228 | the key is made of the non-mark characters of the upper-cased, stripped, decomposed name: all of them, in their original order, and nothing else |
| Text.DropMarksIdempotent | app.py:225-228 | dropping marks a second time changes nothing |
| Text.NormalizeStable | app.py:223-228 | a key is its own key whenever upper-casing, stripping and decomposing leave it unchanged |
| Text.ContainsIff | app.py:315 | the `in` test on strings holds exactly when the pattern occurs at some offset of the name |
| Latin.NormalizeNotIdempotent | app.py:223-228 | with real Unicode behaviour, normalising a normalised key can change it: a mark, a blank, then "A" gives " A", which gives "A" |
| Latin.PeruSpellingsShareKey | app.py:223-228 | "Perú" normalises to "PERU" |
| Latin.PaddedLowerCaseShareKey | app.py:223-228 | " peru " normalises to "PERU": case and surrounding blanks do not matter |
| Latin.NormalizePlain | app.py:223-228 | a name of capital ASCII letters with inner blanks only is its own key |
| Regions.FirstMatchFrom | app.py:314-316 | the scan returns the first row from the start point whose normalised pattern occurs in the name, or reports that none does |
| Regions.Classify | app.py:312-317 | `_asignar_region`: the region of the first row whose normalised pattern occurs in the normalised name, or "Otros" when no row's does |
| Regions.ClassifyKey | app.py:312-317 | the result is the region of the first matching row, or "Otros" when no row matches |
| Regions.ClassifyFirstMatch | app.py:312-317 | if row i matches and no earlier row does, the region of row i is returned, whatever later rows say |
| Regions.ClassifyOtherIff | app.py:312-317 | for a table with no "Otros" row, "Otros" is returned exactly when no pattern occurs in the normalised name |
| Regions.ClassifyInRegionOrder | app.py:307-317 | when every row names a region of `REGION_ORDER`, so does every answer |
| Regions.ClassifySameKey | app.py:312-313 | two names with the same key get the same region |
| Regions.RegionPatternsWellFormed | app.py:230-310 | every row of the source's table names a region of `REGION_ORDER`, and none names "Otros" |
| Regions.AsignarRegion | app.py:230-317 | with the source's table, every answer is in `REGION_ORDER`, and "Otros" comes back exactly when no pattern occurs |
| Categories.LabelOf | app.py:333 | `map(table).fillna(fallback)`: the table's label for a known code, the fallback for any other code |
| Categories.SectorCode | app.py:332 | `str[:2]`: the first two characters, or the whole code when shorter, as a prefix of the code |
| Categories.SectorOf | app.py:332-333 | the sector is `SECTOR_MAP` of the two-character prefix when present, else "No Definido" |
| Categories.GroupOf | app.py:352 | the group is `GRUPO_MAP` of the code when present, else "Otros" |
| Categories.SubgroupOf | app.py:353 | the subgroup is `SUBGRUPO_MAP` of the code when present, else "Otros" |
| Categories.SectorLabelNeverEmpty | app.py:51-65 | every export code gets a non-empty sector label |
| Categories.GroupLabelNeverEmpty | app.py:92-104 | every import group code gets a non-empty label |
| Categories.SubgroupLabelNeverEmpty | app.py:128-164 | every import subgroup code gets a non-empty label |
| Categories.SectorDependsOnPrefix | app.py:332-333 | two codes with the same first two characters get the same sector |
| Grouping.Keys | app.py:327-329 | the distinct keys of the rows, each once, exactly the set of keys present |
| Grouping.GroupSums | app.py:327-329 | one group per distinct key present and no other group; each group's total is the sum of the values of the rows with its key |
| Grouping.GroupSumsConserve | app.py:327-329 | grouping neither loses nor invents value: for any selection of keys, the selected groups add up to the selected rows |
| Grouping.KeysCount | app.py:327-329 | there are exactly as many groups as distinct keys |
| Grouping.SumByAbsent | app.py:509-513 | a key that no row carries sums to zero |
| Trade.AggregateExports | app.py:327-336 | for any key and region functions: one row per distinct (year, country, code, product); FOB is the group's sum divided by 1000; TM is the undivided weight sum; the sector columns come from the code; the key and region are those functions of the country |
| Trade.LoadExports | app.py:323-337 | `load_export_data`: one row per distinct raw key, covering exactly those keys, FOB in millions, the partner key `_normalizar` of the country and the region `_asignar_region` of it |
| Trade.ExportRowCount | app.py:327-329 | exactly one export row per distinct raw key |
| Trade.ExportFobConserved | app.py:327-330 | the aggregated FOB column adds up to the raw FOB total divided by 1000 |
| Trade.AggregateImports | app.py:345-357 | for any strip, key and region functions: row j aggregates the j-th distinct raw key; the country is stripped after grouping, CIF is the group's sum divided by 1000, group and subgroup come from their tables, and the key and region are those functions of the stripped name |
| Trade.LoadImports | app.py:340-358 | `load_import_data`: one row per distinct raw key; row j holds the stripped country of the j-th key and its CIF in millions; the partner key is `_normalizar` and the region `_asignar_region` of the stripped name |
| Trade.ImportRowCount | app.py:345-347 | exactly one import row per distinct raw key |
| Trade.ImportCifConserved | app.py:345-354 | the aggregated CIF column adds up to the raw CIF total divided by 1000 |
| Countries.Unique | app.py:363 | `unique()`: each name once, exactly the names of the column, in order of first appearance |
| Countries.SpellingMap | app.py:363-364 | the spelling map has one entry per key of the names; each entry is one of the names, and it normalises back to its key |
| Countries.Spellings | app.py:363-364 | `exp_map` / `imp_map`: one entry per normalised name of the column, each holding a name of the column with that key |
| Countries.LastSpellingWins | app.py:363-364 | within one table, a key that some name of the column normalises to is in the spelling map, the spelling kept for it is a name of the column with that key, and no other name with that key first appears later in the column |
| Countries.AllKeys | app.py:365 | `all_norm` is the union of the two tables' normalised names |
| Countries.DisplayName | app.py:369 | the shown name of a key is an export name with that key when there is one, else an import name with that key when there is one, else the key itself |
| Countries.DisplayNameKey | app.py:368 | the displayed name of a key that some export or import name normalises to normalises back to that key |
| Countries.IndexKeys | app.py:367-371 | for keys whose display names are pairwise different, each display name maps to its key and region, nothing else is in the index, and there are as many entries as keys |
| Countries.BuildCountryList | app.py:361-372 | exactly one entry per normalised key of either table, shown under the export spelling when the key occurs among exports and under the import spelling otherwise, each holding its key and `_asignar_region` of the display name |
| Countries.RegionOfKey | app.py:369 | the stored region is the region of the key itself, whichever spelling is displayed |
| Selection.OrderedRange | app.py:406-408 | after the swap the range runs forwards and is made of the two chosen years, untouched when already ordered |
| Selection.OrderedRangeSymmetric | app.py:406-408 | the order in which the two years are entered does not matter |
| Selection.SelectedKeys | app.py:437-451 | one partner stands for its own key; a whole region stands for exactly the keys of the countries the index puts in it |
| Seqs.FilterMembers | app.py:442-445 | a boolean mask keeps an element exactly when it is in the input and passes the test |
| Seqs.FilterSubsequence | app.py:442-445 | a boolean mask keeps the surviving rows in their original order |
| Selection.SelectExports | app.py:437-455 | an export row is kept exactly when its key is selected and its year lies in the range; the kept rows stay in their original order, and there are as many as there are passing rows, so equal rows are all kept |
| Selection.SelectImports | app.py:437-457 | an import row is kept exactly when its key is selected and its year lies in the range; the kept rows stay in their original order, and there are as many as there are passing rows, so equal rows are all kept |
| Selection.RegionIsUnionOfPartners | app.py:437-457 | a row is selected for a whole region exactly when it is selected for some country of that region |
| Selection.SelectExportsIdempotent | app.py:442-445 | filtering a selection again by the same keys and range changes nothing |
| Series.YearValue | app.py:510-513 | the merged value for a year is the total of a row for that year, or 0 when there is none |
| Series.YearLookup | app.py:506-513 | looking a year up in the grouped-by-year table gives that year's raw sum, whether or not the year has data |
| Series.BalanceOf | app.py:509-514 | the row of one year: its FOB and CIF are that year's sums, zero when the year has no data, and `Saldo` is their difference |
| Series.AnnualBalance | app.py:506-514 | one row per year of the range, ascending; FOB and CIF are that year's sums over the selection; `Saldo = FOB − CIF` in every row |
| Series.BalanceZeroFill | app.py:509-513 | a year of the range without data still has its row, with FOB = CIF = Saldo = 0 |
| Series.BalanceConserves | app.py:506-514 | when the selection lies in the range, the FOB, CIF and Saldo columns add up to the total exports, the total imports and their difference |
| Composition.SortDesc | app.py:562-563 | the ranking is a permutation of the groups |
| Composition.SortDescOrdered | app.py:562-563 | the ranking never increases, and distinct categories stay distinct |
| Composition.Ranking | app.py:562-563 | one group per category of the selection, no category twice, each with its total, in non-increasing order |
| Composition.Leading | app.py:564 | `head(n)`: the categories of the first `min(n, #groups)` ranked groups, in ranking order |
| Composition.Top | app.py:564 | `min(10, #categories)` distinct categories of the selection in non-increasing order of total; no category left out has a larger total than a kept one |
| Composition.TopDominates | app.py:562-564 | no category left out of the top ten has a larger total than one kept |
| Composition.LeadingDominates | app.py:564 | a ranked category outside the leading ones has a total no larger than any leading one |
| Composition.RestCount | app.py:565 | `n_resto` is the number of categories minus the number kept, and it is zero exactly when there are at most ten categories |
| Composition.CountOutsideLeading | app.py:565 | the ranked groups outside the leading categories number exactly the rest of the ranking |
| Composition.Bucket | app.py:569 | a top category keeps its name and any other becomes "RESTO" |
| Composition.Area | app.py:570 | one row per (year, bucket) present, with the sum of its facts |
| Composition.AreaKeepsYearTotals | app.py:569-572 | pooling into "RESTO" preserves each year's total |
| Composition.AreaKeepsGrandTotal | app.py:569-570 | the named categories plus "RESTO" add up to the grand total of the selection |
| Composition.Share | app.py:573 | the share times a non-zero total is 100 times the value; with a zero total the division is by 1 |
| Composition.Shares | app.py:571-573 | each area row with its year's total merged in and its share computed |
| Composition.SharesSumToHundred | app.py:571-573 | in a year with a non-zero total, the shares add up to 100 |
| Composition.ZeroTotalZeroShares | app.py:573 | with non-negative values, every share of a year whose total is zero is 0 |
| Scenarios.PapuaPrecedesGuinea | app.py:270-279 | in the source's table PAPUA (Oceanía) is row 107 and GUINEA (África) is row 130 |
| Scenarios.OrderDecidesPapua | app.py:312-317 | on the two-row excerpt of the PAPUA and GUINEA rows, "PAPUA NUEVA GUINEA" is Oceanía with PAPUA listed first and África with the two rows swapped |
| Scenarios.UnlistedNameIsOther | app.py:317 | "ECUADOR", matched by no row of the excerpt, is "Otros" |
| Scenarios.SingleExportRow | app.py:327-334 | one export of 50 000 thousand dollars to "PERU" with code 1101 gives one row of 50.0 million in sector "Prod. Primarios Agrícolas", keyed "PERU" |
| Scenarios.PeruSpellingsOneKey | app.py:333-334 | export rows spelled "Perú" and "PERU" get the same partner key |

The import-side composition (app.py:665-677) runs the same steps as the
export side, over (year, subgroup, CIF) instead of (year, product, FOB). In
the model both are `Fact` sequences (`Series.ExportFacts`,
`Series.ImportFacts`), so the Composition rows cover both.

## Left out

- Streamlit widgets, page layout, `st.cache_data` memoisation and every
  Plotly figure. These are presentation and foreign libraries.
- Reading the parquet files and building paths. That is I/O: the model's
  inputs are the raw record sequences.
- Colour tables and `_get_product_color` / `_get_subgrupo_color`
  (app.py:213-218). They only choose a chart colour.
- The sidebar list of available regions, the sorted country list and its
  default entry (app.py:388-433). These only order and preselect widget
  options. The selector guarantees that a chosen partner is in the index,
  which is `Selection.SelectedKeys`'s precondition.
- The KPI cards and their year-on-year deltas (app.py:474-496). The totals
  they show are related to the balance table by `Series.BalanceConserves`.
- Real Unicode upper-casing, stripping, NFD and the "Mn" category. They are
  parameters (`Text.TextOps`). `Latin.Ops` covers only ASCII, Latin-1 case
  and the accented letters of Spanish.
- `str(s)` on non-string input and the `astype(str)` conversions. Every
  field is a string in the model.
- `.round(1)` on percentages and all display formatting. The model uses exact
  real arithmetic.
- `RESTO` as the name of a real product: the code would merge it with the
  pooled bucket. The model does the same and proves nothing special about it.
- Trade.AggregateExports: rows come out in first-appearance order of their
  key, not in pandas' sorted order; the contract says nothing about row order.
- Trade.AggregateImports: same as AggregateExports for row order.
- Composition.Ranking: groups with equal totals may come out in any order, as
  with `sort_values`; no tie order is stated.
- Composition.Share: the result is exact, not rounded to one decimal.
- Selection.SelectedKeys: requires the chosen partner to be in the index,
  which the selector widget guarantees in the source.
- Scenarios.OrderDecidesPapua: shown on a two-row excerpt of the table, not
  on all 192 rows; that none of rows 0-106 occurs in "PAPUA NUEVA GUINEA"
  is not proved, because evaluating the patterns of a long literal table
  is beyond what the verifier does cheaply.
