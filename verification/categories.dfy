/** Code-to-label mapping: the export sector (`SECTOR_MAP`) and the import CUODE
    group and subgroup (`GRUPO_MAP`, `SUBGRUPO_MAP`), each with its fallback. */
module Categories {

  /** Label used for an export sector code missing from `SECTOR_MAP`. */
  const Undefined: string := "No Definido"

  /** Label used for an import code missing from its table. */
  const OtherGroup: string := "Otros"

  const SectorMap: map<string, string> := map[
    "11" := "Prod. Primarios Agrícolas",
    "12" := "Silvicultura",
    "13" := "Pecuarios",
    "14" := "Pesca",
    "15" := "Minería y Petróleo",
    "21" := "Químicos y Farmacéuticos",
    "22" := "Alimentos Procesados",
    "23" := "Industrializados",
    "31" := "Desperdicios de Papel",
    "32" := "Desperdicios de Metales",
    "33" := "Otros Desperdicios",
    "41" := "Animales Vivos",
    "-9" := "No Definido"
  ]

  const GroupMap: map<string, string> := map[
    "01" := "Consumo No Duradero",
    "02" := "Consumo Duradero",
    "03" := "Combustibles y Lubricantes",
    "04" := "Mat. Primas Agropecuarias",
    "05" := "Mat. Primas Industriales",
    "06" := "Construcción",
    "07" := "Capital Agrícola",
    "08" := "Capital Industrial",
    "09" := "Equipo de Transporte",
    "10" := "Diversos",
    "99" := "Otros"
  ]

  const SubgroupMap: map<string, string> := map[
    "011" := "Productos Alimenticios",
    "012" := "Bebidas",
    "013" := "Tabaco",
    "014" := "Farmacéuticos y Tocador",
    "015" := "Vestuario y Confecciones",
    "019" := "Otros No Duraderos",
    "021" := "Utensilios Domésticos",
    "022" := "Adorno y Uso Personal",
    "023" := "Muebles y Hogar",
    "024" := "Electrodomésticos",
    "025" := "Vehículos Particulares",
    "029" := "Armas y Equipo Militar",
    "031" := "Combustibles",
    "032" := "Lubricantes",
    "033" := "Electricidad",
    "041" := "Alimentos para Animales",
    "042" := "Mat. Primas Agrícolas",
    "051" := "Alimentos Industriales",
    "052" := "Agropecuarios no Aliment.",
    "053" := "Minerales Industriales",
    "055" := "Químicos y Farmacéuticos",
    "061" := "Mat. de Construcción",
    "071" := "Maq. y Herram. Agrícolas",
    "072" := "Otro Equipo Agrícola",
    "073" := "Transp. Agrícola",
    "081" := "Maq. Oficina y Científicas",
    "082" := "Herramientas Industriales",
    "083" := "Partes de Maquinaria",
    "084" := "Maquinaria Industrial",
    "085" := "Otro Equipo Fijo Ind.",
    "091" := "Partes de Transporte",
    "092" := "Equipo Rodante",
    "093" := "Equipo Fijo Transporte",
    "100" := "Diversos",
    "999" := "Tráfico Postal"
  ]

  /** `series.map(table).fillna(fallback)` on one value: the table's label
      when the code is a key, the fallback otherwise. */
  function LabelOf(table: map<string, string>, code: string, fallback: string): (text: string)
    ensures code in table ==> text == table[code]
    ensures code !in table ==> text == fallback
    ensures text in table.Values || text == fallback
  {
    if code in table then table[code] else fallback
  }

  /** `str[:2]`: the first two characters, or the whole string when shorter. */
  function SectorCode(code: string): (prefix: string)
    ensures |prefix| == if |code| < 2 then |code| else 2
    ensures prefix <= code
  {
    if |code| < 2 then code else code[..2]
  }

  /** The export sector label of a `Codigo_PP` value. */
  function SectorOf(code: string): (text: string)
    ensures SectorCode(code) in SectorMap ==> text == SectorMap[SectorCode(code)]
    ensures SectorCode(code) !in SectorMap ==> text == Undefined
  {
    LabelOf(SectorMap, SectorCode(code), Undefined)
  }

  function GroupOf(code: string): (text: string)
    ensures code in GroupMap ==> text == GroupMap[code]
    ensures code !in GroupMap ==> text == OtherGroup
  {
    LabelOf(GroupMap, code, OtherGroup)
  }

  function SubgroupOf(code: string): (text: string)
    ensures code in SubgroupMap ==> text == SubgroupMap[code]
    ensures code !in SubgroupMap ==> text == OtherGroup
  {
    LabelOf(SubgroupMap, code, OtherGroup)
  }

  /** No label is ever missing: every code, known or not, gets a non-empty label. */
  lemma SectorLabelNeverEmpty(code: string)
    ensures |SectorOf(code)| > 0
  {
    assert forall v :: v in SectorMap.Values ==> |v| > 0;
  }

  lemma GroupLabelNeverEmpty(code: string)
    ensures |GroupOf(code)| > 0
  {
    assert forall v :: v in GroupMap.Values ==> |v| > 0;
  }

  lemma SubgroupLabelNeverEmpty(code: string)
    ensures |SubgroupOf(code)| > 0
  {
    assert forall v :: v in SubgroupMap.Values ==> |v| > 0;
  }

  /** A code that only starts like a known sector still gets that sector:
      only its first two characters are looked up. */
  lemma SectorDependsOnPrefix(a: string, b: string)
    requires |a| >= 2 && |b| >= 2 && a[..2] == b[..2]
    ensures SectorOf(a) == SectorOf(b)
  {
  }
}
