/** The aggregation steps of `load_export_data` and `load_import_data`: group
    the raw trade records, sum their values, convert thousands of dollars to
    millions, and attach the derived label, key and region columns. */
module Trade {
  import opened Seqs
  import opened Text
  import opened Regions
  import opened Categories
  import opened Grouping

  /** Thousands of dollars per million. */
  const Thousand: real := 1000.0

  /** How the derived country columns come from a country name: the import
      side's `str.strip`, `Pais_Norm` and `Region`. The aggregation is stated
      for any derivation; `Derived` is the dashboard's own. */
  datatype Derivation = Derivation(strip: string -> string, key: string -> string, region: string -> string)

  /** The dashboard's derivation: `str.strip`, `_normalizar` and
      `_asignar_region`. */
  function Derived(ops: TextOps, table: seq<Pattern>): (d: Derivation)
    ensures forall c :: d.strip(c) == ops.strip(c)
    ensures forall c :: d.key(c) == Normalize(ops, c) && d.region(c) == Classify(ops, table, c)
  {
    Derivation(ops.strip, c => Normalize(ops, c), c => Classify(ops, table, c))
  }

  // ---------------------------------------------------------------- exports

  /** One raw export record (`Anio`, `Pais_Destino`, `Codigo_PP`, `PP`, `FOB`,
      `TM_Peso_Neto`); FOB is in thousands of dollars. */
  datatype ExportRecord = ExportRecord(
    year: int, country: string, code: string, product: string,
    fob: real, weight: real)

  /** The export group-by key. */
  datatype ExportKey = ExportKey(year: int, country: string, code: string, product: string)

  /** One aggregated export row; `fob` is in millions of dollars. */
  datatype ExportRow = ExportRow(
    year: int, country: string, code: string, product: string,
    fob: real, tm: real,
    sectorCode: string, sector: string,
    countryKey: string, region: string)

  function ExportKeyOf(r: ExportRecord): ExportKey
  {
    ExportKey(r.year, r.country, r.code, r.product)
  }

  function Fob(r: ExportRecord): real { r.fob }

  function Weight(r: ExportRecord): real { r.weight }

  function RowKey(row: ExportRow): ExportKey
  {
    ExportKey(row.year, row.country, row.code, row.product)
  }

  /** `row` is the aggregated row of key `k`: its key columns, the summed FOB
      in millions, the summed weight, and the derived sector, key and region. */
  predicate IsExportRowOf(d: Derivation, records: seq<ExportRecord>, k: ExportKey, row: ExportRow)
  {
    && RowKey(row) == k
    && row.fob == SumBy(records, ExportKeyOf, Fob, k) / Thousand
    && row.tm == SumBy(records, ExportKeyOf, Weight, k)
    && row.sectorCode == SectorCode(k.code) && row.sector == SectorOf(k.code)
    && row.countryKey == d.key(k.country) && row.region == d.region(k.country)
  }

  /** The aggregated row of one key: sums converted, labels derived. */
  function ExportRowOf(d: Derivation, records: seq<ExportRecord>, k: ExportKey): (row: ExportRow)
    ensures IsExportRowOf(d, records, k, row)
  {
    ExportRow(k.year, k.country, k.code, k.product,
      SumBy(records, ExportKeyOf, Fob, k) / Thousand, SumBy(records, ExportKeyOf, Weight, k),
      SectorCode(k.code), SectorOf(k.code),
      d.key(k.country), d.region(k.country))
  }

  /** Sum of the FOB column of aggregated rows. */
  function TotalFob(rows: seq<ExportRow>): real
    decreases |rows|
  {
    if |rows| == 0 then 0.0 else TotalFob(rows[..|rows| - 1]) + rows[|rows| - 1].fob
  }

  /** The aggregated row of each key, as a function of the key. */
  function RowOfKey(d: Derivation, records: seq<ExportRecord>): ExportKey -> ExportRow
  {
    (k: ExportKey) => ExportRowOf(d, records, k)
  }

  /** The FOB column of the rows of `ks` adds up to the keys' raw sums, in
      millions. */
  lemma {:induction false} TotalFobOfKeys(d: Derivation, records: seq<ExportRecord>, ks: seq<ExportKey>)
    ensures TotalFob(Map(ks, RowOfKey(d, records)))
         == KeysTotalWhere(ks, records, ExportKeyOf, Fob, Everything()) / Thousand
  {
    if |ks| > 0 {
      var rows := Map(ks, RowOfKey(d, records));
      var front := ks[..|ks| - 1];
      assert rows[..|rows| - 1] == Map(front, RowOfKey(d, records));
      TotalFobOfKeys(d, records, front);
    }
  }

  /** The aggregation of `load_export_data`, under any derivation of the
      country columns: one row per distinct (year, country, code, product). */
  function AggregateExports(d: Derivation, records: seq<ExportRecord>): (rows: seq<ExportRow>)
    ensures forall i, j :: 0 <= i < j < |rows| ==> RowKey(rows[i]) != RowKey(rows[j])
    ensures (set j | 0 <= j < |rows| :: RowKey(rows[j])) == KeySet(records, ExportKeyOf)
    ensures forall j :: 0 <= j < |rows| ==>
      rows[j].fob == SumBy(records, ExportKeyOf, Fob, RowKey(rows[j])) / Thousand
    ensures forall j :: 0 <= j < |rows| ==>
      rows[j].tm == SumBy(records, ExportKeyOf, Weight, RowKey(rows[j]))
    ensures forall j :: 0 <= j < |rows| ==>
      rows[j].sectorCode == SectorCode(rows[j].code) && rows[j].sector == SectorOf(rows[j].code)
    ensures forall j :: 0 <= j < |rows| ==>
      rows[j].countryKey == d.key(rows[j].country)
      && rows[j].region == d.region(rows[j].country)
  {
    var ks := Keys(records, ExportKeyOf);
    var rows := Map(ks, RowOfKey(d, records));
    forall j | 0 <= j < |rows|
      ensures IsExportRowOf(d, records, ks[j], rows[j])
    {
      assert rows[j] == ExportRowOf(d, records, ks[j]);
    }
    assert (set j | 0 <= j < |rows| :: RowKey(rows[j])) == (set k | k in ks);
    rows
  }

  /** Exactly one aggregated row per distinct (year, country, code, product). */
  lemma ExportRowCount(d: Derivation, records: seq<ExportRecord>)
    ensures |AggregateExports(d, records)| == |KeySet(records, ExportKeyOf)|
  {
    KeysCount(records, ExportKeyOf);
  }

  /** Aggregation neither loses nor invents money: the aggregated FOB column
      sums to the raw FOB total, in millions. */
  lemma ExportFobConserved(d: Derivation, records: seq<ExportRecord>)
    ensures TotalFob(AggregateExports(d, records)) == Total(records, Fob) / Thousand
  {
    TotalFobOfKeys(d, records, Keys(records, ExportKeyOf));
    KeysTotalConserve(records, ExportKeyOf, Fob);
  }

  /** `load_export_data` after reading the file: one row per distinct
      (year, country, code, product), whose `Pais_Norm` is `_normalizar` of
      its country and whose `Region` is `_asignar_region` of it. */
  function LoadExports(ops: TextOps, table: seq<Pattern>, records: seq<ExportRecord>): (rows: seq<ExportRow>)
    ensures |rows| == |KeySet(records, ExportKeyOf)|
    ensures (set j | 0 <= j < |rows| :: RowKey(rows[j])) == KeySet(records, ExportKeyOf)
    ensures forall j :: 0 <= j < |rows| ==>
      rows[j].fob == SumBy(records, ExportKeyOf, Fob, RowKey(rows[j])) / Thousand
    ensures forall j :: 0 <= j < |rows| ==>
      rows[j].countryKey == Normalize(ops, rows[j].country)
      && rows[j].region == Classify(ops, table, rows[j].country)
  {
    var d := Derived(ops, table);
    ExportRowCount(d, records);
    AggregateExports(d, records)
  }

  // ---------------------------------------------------------------- imports

  /** One raw import record (`Anio`, `Pais_Origen`, `Cod_Grupo`,
      `Cod_Subgrupo`, `CIF`); CIF is in thousands of dollars. */
  datatype ImportRecord = ImportRecord(
    year: int, country: string, groupCode: string, subgroupCode: string, cif: real)

  /** The import group-by key, on the raw (unstripped) country name. */
  datatype ImportKey = ImportKey(year: int, country: string, groupCode: string, subgroupCode: string)

  /** One aggregated import row; `cif` is in millions of dollars and `country`
      is the stripped name. */
  datatype ImportRow = ImportRow(
    year: int, country: string, groupCode: string, subgroupCode: string,
    group: string, subgroup: string, cif: real,
    countryKey: string, region: string)

  function ImportKeyOf(r: ImportRecord): ImportKey
  {
    ImportKey(r.year, r.country, r.groupCode, r.subgroupCode)
  }

  function Cif(r: ImportRecord): real { r.cif }

  /** `row` is the aggregated row of raw key `k`: the country stripped after
      grouping, the summed CIF in millions, the group and subgroup labels,
      and the key and region of the stripped name. */
  predicate IsImportRowOf(d: Derivation, records: seq<ImportRecord>, k: ImportKey, row: ImportRow)
  {
    && row.year == k.year
    && row.country == d.strip(k.country)
    && row.groupCode == k.groupCode && row.subgroupCode == k.subgroupCode
    && row.cif == SumBy(records, ImportKeyOf, Cif, k) / Thousand
    && row.group == GroupOf(k.groupCode) && row.subgroup == SubgroupOf(k.subgroupCode)
    && row.countryKey == d.key(row.country) && row.region == d.region(row.country)
  }

  /** The aggregated row of one key. The country is stripped only after
      grouping, so normalisation and region see the stripped name. */
  function ImportRowOf(d: Derivation, records: seq<ImportRecord>, k: ImportKey): (row: ImportRow)
    ensures IsImportRowOf(d, records, k, row)
  {
    var country := d.strip(k.country);
    ImportRow(k.year, country, k.groupCode, k.subgroupCode,
      GroupOf(k.groupCode), SubgroupOf(k.subgroupCode),
      SumBy(records, ImportKeyOf, Cif, k) / Thousand,
      d.key(country), d.region(country))
  }

  /** Sum of the CIF column of aggregated rows. */
  function TotalCif(rows: seq<ImportRow>): real
    decreases |rows|
  {
    if |rows| == 0 then 0.0 else TotalCif(rows[..|rows| - 1]) + rows[|rows| - 1].cif
  }

  /** The aggregated row of each raw key, as a function of the key. */
  function RowOfImportKey(d: Derivation, records: seq<ImportRecord>): ImportKey -> ImportRow
  {
    (k: ImportKey) => ImportRowOf(d, records, k)
  }

  /** The CIF column of the rows of `ks` adds up to the keys' raw sums, in
      millions. */
  lemma {:induction false} TotalCifOfKeys(d: Derivation, records: seq<ImportRecord>, ks: seq<ImportKey>)
    ensures TotalCif(Map(ks, RowOfImportKey(d, records)))
         == KeysTotalWhere(ks, records, ImportKeyOf, Cif, Everything()) / Thousand
  {
    if |ks| > 0 {
      var rows := Map(ks, RowOfImportKey(d, records));
      var front := ks[..|ks| - 1];
      assert rows[..|rows| - 1] == Map(front, RowOfImportKey(d, records));
      TotalCifOfKeys(d, records, front);
    }
  }

  /** The aggregation of `load_import_data`, under any derivation of the
      country columns: row `j` aggregates the `j`-th distinct raw key. */
  function AggregateImports(d: Derivation, records: seq<ImportRecord>): (rows: seq<ImportRow>)
    ensures |rows| == |Keys(records, ImportKeyOf)|
    ensures forall j :: 0 <= j < |rows| ==>
      var k := Keys(records, ImportKeyOf)[j];
      && rows[j].year == k.year
      && rows[j].country == d.strip(k.country)
      && rows[j].groupCode == k.groupCode && rows[j].subgroupCode == k.subgroupCode
      && rows[j].cif == SumBy(records, ImportKeyOf, Cif, k) / Thousand
    ensures forall j :: 0 <= j < |rows| ==>
      rows[j].group == GroupOf(rows[j].groupCode) && rows[j].subgroup == SubgroupOf(rows[j].subgroupCode)
    ensures forall j :: 0 <= j < |rows| ==>
      rows[j].countryKey == d.key(rows[j].country)
      && rows[j].region == d.region(rows[j].country)
  {
    var ks := Keys(records, ImportKeyOf);
    var rows := Map(ks, RowOfImportKey(d, records));
    forall j | 0 <= j < |rows|
      ensures IsImportRowOf(d, records, ks[j], rows[j])
    {
      assert rows[j] == ImportRowOf(d, records, ks[j]);
    }
    rows
  }

  /** Exactly one aggregated row per distinct raw (year, country, group, subgroup). */
  lemma ImportRowCount(d: Derivation, records: seq<ImportRecord>)
    ensures |AggregateImports(d, records)| == |KeySet(records, ImportKeyOf)|
  {
    KeysCount(records, ImportKeyOf);
  }

  /** The aggregated CIF column sums to the raw CIF total, in millions. */
  lemma ImportCifConserved(d: Derivation, records: seq<ImportRecord>)
    ensures TotalCif(AggregateImports(d, records)) == Total(records, Cif) / Thousand
  {
    TotalCifOfKeys(d, records, Keys(records, ImportKeyOf));
    KeysTotalConserve(records, ImportKeyOf, Cif);
  }

  /** `load_import_data` after reading the file: one row per distinct raw
      (year, country, group, subgroup), whose country is stripped and whose
      `Pais_Norm` and `Region` are `_normalizar` and `_asignar_region` of the
      stripped name. */
  function LoadImports(ops: TextOps, table: seq<Pattern>, records: seq<ImportRecord>): (rows: seq<ImportRow>)
    ensures |rows| == |Keys(records, ImportKeyOf)| == |KeySet(records, ImportKeyOf)|
    ensures var ks := Keys(records, ImportKeyOf);
      forall j :: 0 <= j < |rows| ==>
        rows[j].country == ops.strip(ks[j].country) && rows[j].cif == SumBy(records, ImportKeyOf, Cif, ks[j]) / Thousand
    ensures forall j :: 0 <= j < |rows| ==>
      rows[j].countryKey == Normalize(ops, rows[j].country)
      && rows[j].region == Classify(ops, table, rows[j].country)
  {
    var d := Derived(ops, table);
    ImportRowCount(d, records);
    AggregateImports(d, records)
  }
}
