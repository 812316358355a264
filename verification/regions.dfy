/** Region classification (`_asignar_region`): a first-match-wins scan of an
    ordered (pattern, region) table over the normalised country name. */
module Regions {
  import opened Seqs
  import opened Text

  /** One row of the pattern table: a name fragment and the region it implies. */
  datatype Pattern = Pattern(text: string, region: string)

  /** The catch-all region. */
  const Other: string := "Otros"

  /** `REGION_ORDER`: the closed set of regions, in display order. */
  const RegionOrder: seq<string> := [
    "América Latina", "América del Norte", "Europa",
    "Asia", "Medio Oriente", "África", "Oceanía", Other
  ]

  /** Pattern `p` occurs in the normalised name `key`; like the source, the
      pattern is normalised at the moment it is compared. */
  predicate Matches(ops: TextOps, p: Pattern, key: string)
  {
    Contains(key, Normalize(ops, p.text))
  }

  /** Row `i` is the first row of `table` whose pattern occurs in `key`. */
  predicate FirstMatchAt(ops: TextOps, table: seq<Pattern>, key: string, i: int)
  {
    && 0 <= i < |table|
    && Matches(ops, table[i], key)
    && forall j :: 0 <= j < i ==> !Matches(ops, table[j], key)
  }

  /** No row of `table` has a pattern occurring in `key`. */
  predicate NoMatch(ops: TextOps, table: seq<Pattern>, key: string)
  {
    forall j :: 0 <= j < |table| ==> !Matches(ops, table[j], key)
  }

  /** The scan itself: the index of the first matching row at or after `from`. */
  function FirstMatchFrom(ops: TextOps, table: seq<Pattern>, key: string, from: nat): (r: Option<nat>)
    requires from <= |table|
    decreases |table| - from
    ensures r.Some? ==> from <= r.value < |table| && Matches(ops, table[r.value], key)
    ensures r.Some? ==> forall j :: from <= j < r.value ==> !Matches(ops, table[j], key)
    ensures r.None? ==> forall j :: from <= j < |table| ==> !Matches(ops, table[j], key)
  {
    if from == |table| then None
    else if Matches(ops, table[from], key) then Some(from)
    else FirstMatchFrom(ops, table, key, from + 1)
  }

  /** The loop of `_asignar_region` over an already normalised name. */
  function ClassifyKey(ops: TextOps, table: seq<Pattern>, key: string): (region: string)
    ensures (exists i :: FirstMatchAt(ops, table, key, i) && region == table[i].region)
         || (NoMatch(ops, table, key) && region == Other)
  {
    match FirstMatchFrom(ops, table, key, 0)
    case Some(i) => assert FirstMatchAt(ops, table, key, i); table[i].region
    case None => Other
  }

  /** `_asignar_region`: normalise the name once, then scan the table. */
  function Classify(ops: TextOps, table: seq<Pattern>, name: string): (region: string)
    ensures var key := Normalize(ops, name);
      || (exists i :: FirstMatchAt(ops, table, key, i) && region == table[i].region)
      || (NoMatch(ops, table, key) && region == Other)
  {
    ClassifyKey(ops, table, Normalize(ops, name))
  }

  /** First match wins: if row `i` matches and no earlier row does, row `i`'s
      region is the answer, whatever later rows say. */
  lemma ClassifyFirstMatch(ops: TextOps, table: seq<Pattern>, name: string, i: int)
    requires FirstMatchAt(ops, table, Normalize(ops, name), i)
    ensures Classify(ops, table, name) == table[i].region
  {
  }

  /** A table none of whose rows names the catch-all region. */
  predicate NoCatchAllRow(table: seq<Pattern>)
  {
    forall j :: 0 <= j < |table| ==> table[j].region != Other
  }

  /** With such a table, "Otros" comes back exactly when no pattern occurs in
      the normalised name. */
  lemma ClassifyOtherIff(ops: TextOps, table: seq<Pattern>, name: string)
    requires NoCatchAllRow(table)
    ensures Classify(ops, table, name) == Other <==> NoMatch(ops, table, Normalize(ops, name))
  {
  }

  /** Every region of a table drawn from `REGION_ORDER` keeps the answer in
      `REGION_ORDER`. */
  lemma ClassifyInRegionOrder(ops: TextOps, table: seq<Pattern>, name: string)
    requires forall j :: 0 <= j < |table| ==> table[j].region in RegionOrder
    ensures Classify(ops, table, name) in RegionOrder
  {
  }

  /** Classification depends on the name only through its normalised key. */
  lemma ClassifySameKey(ops: TextOps, table: seq<Pattern>, a: string, b: string)
    requires Normalize(ops, a) == Normalize(ops, b)
    ensures Classify(ops, table, a) == Classify(ops, table, b)
  {
  }

  /** The rows of one region, in the given order. */
  function Tag(region: string, texts: seq<string>): (rows: seq<Pattern>)
    ensures |rows| == |texts|
    ensures forall i :: 0 <= i < |rows| ==> rows[i] == Pattern(texts[i], region)
  {
    seq(|texts|, i requires 0 <= i < |texts| => Pattern(texts[i], region))
  }

  /** `_REGION_PATTERNS`, in the source's order (the source lists the rows of
      each region contiguously). */
  const RegionPatterns: seq<Pattern> :=
    Tag("América del Norte", [
      "ESTADOS UNIDOS", "CANAD", "MEXIC", "MÉXIC"])
    + Tag("Europa", [
      "ALEMANI", "ESPAÑ", "FRANCI",
      "ITALI", "HOLANDA", "PAÍSES BAJOS",
      "REINO UNIDO", "BÉLGI", "BELGI", "BELG",
      "RUSI", "SUIZ", "PORTUG",
      "SUECI", "POLONI", "GRECI",
      "TURQU", "UCRANI", "NORUEG",
      "DINAMARC", "FINLANDI", "IRLAND",
      "RUMANI", "AUSTRI", "CHECA",
      "BULGARI", "ESLOVENI", "LITUANI",
      "CROACI", "MONTENEGR", "ESTONI",
      "ALBANI", "SERBI", "MALT",
      "LETONI", "ESLOVAQU", "HUNGR",
      "MACEDONI", "BOSNIA", "LUXEMBURG",
      "ISLANDI", "LIECHTENSTEIN", "ANDORR",
      "SAN MARINO", "MONACO", "GIBRALTAR",
      "SANTA SEDE", "VATICANO", "BELAR",
      "MOLDOV", "GEORGI", "CHIPRE"])
    + Tag("Asia", [
      "CHINA", "JAPON", "JAPÓN",
      "COREA", "INDIA", "INDONESI",
      "TAILANDI", "VIETNAM", "MALASI",
      "FILIPIN", "TAIW", "SINGAPUR",
      "HONG KONG", "MACAO", "PAKIST",
      "BANGLADESH", "SRI LANKA", "CAMBOYA",
      "MYANMAR", "BRUNEI", "LAOS",
      "MONGOLI", "NEPAL", "MALDIV",
      "KAZAJIST", "UZBEKIST", "TAYIKIST",
      "TURKMENIST", "AZERBAIY", "ARMENI",
      "KIRGUIST", "AFGANIST"])
    + Tag("Medio Oriente", [
      "ARABIA SAUDITA", "EMIRATOS",
      "ISRAEL", "IRAN", "IRÁN",
      "IRAK", "KUWAIT",
      "QATAR", "OMAN", "OMÁN",
      "BAHREIN", "JORDANI",
      "LIBANO", "LÍBANO",
      "SIRIA", "YEMEN", "PALESTIN"])
    + Tag("Oceanía", [
      "AUSTRALIA", "NUEVA ZELAND",
      "PAPUA", "FIJI", "SAMOA",
      "POLINESIA", "NUEVA CALEDONI",
      "GUAM", "MARIANAS"])
    + Tag("África", [
      "SUDAFRICA", "SUDÁFRICA",
      "EGIPTO", "NIGERIA", "MARRUECOS",
      "KENYA", "KENIA", "GHANA",
      "ARGELIA", "COSTA DE MARFIL",
      "LIBIA", "TUNEZ", "TÚNEZ",
      "SENEGAL", "CAMERUN", "CAMERÚN",
      "GUINEA", "MADAGASCAR", "ETIOP",
      "MOZAMBIQUE", "ANGOLA", "TOGO",
      "BENIN", "BENÍN", "CONGO",
      "GABON", "GABÓN", "MAURICIO",
      "MAURITANI", "NAMIBIA", "SUDAN",
      "LIBERIA", "UGANDA", "TANZAN",
      "RWANDA", "BURUNDI", "BURKINA",
      "MALI", "MALÍ", "NIGER", "NÍGER",
      "CHAD", "GAMBIA", "DJIBOUTI"])
    + Tag("América Latina", [
      "COLOMBIA", "PERU", "PERÚ",
      "CHILE", "ARGENTINA",
      "BRASIL", "VENEZUEL",
      "ECUADOR", "BOLIVI",
      "PARAGUA", "URUGUA",
      "GUATEMAL", "HONDUR",
      "EL SALVADOR", "NICARAG",
      "COSTA RICA", "PANAM",
      "CUBA", "HAITI", "HAITÍ",
      "REP. DOMINICAN", "DOMINICAN",
      "PUERTO RICO", "JAMAICA",
      "TRINIDAD", "BARBADOS",
      "GUYANA", "SURINAM",
      "BELIZE", "BELICE",
      "ANTILLAS", "ARUBA",
      "CURAZAO", "BAHAMAS"])

  /** The source's table only names listed regions, and never the catch-all. */
  lemma RegionPatternsWellFormed()
    ensures forall j :: 0 <= j < |RegionPatterns| ==> RegionPatterns[j].region in RegionOrder
    ensures NoCatchAllRow(RegionPatterns)
  {
  }

  /** With the source's table: every answer is a listed region, and "Otros"
      means that no pattern occurs in the normalised name. */
  lemma AsignarRegion(ops: TextOps, name: string)
    ensures Classify(ops, RegionPatterns, name) in RegionOrder
    ensures Classify(ops, RegionPatterns, name) == Other <==> NoMatch(ops, RegionPatterns, Normalize(ops, name))
  {
    RegionPatternsWellFormed();
    ClassifyInRegionOrder(ops, RegionPatterns, name);
    ClassifyOtherIff(ops, RegionPatterns, name);
  }
}
