/** Concrete cases of the classifier and the normaliser, stated with the
    Latin stand-in for the Unicode services. */
module Scenarios {
  import opened Text
  import opened Regions
  import opened Latin
  import opened Grouping
  import opened Categories
  import opened Trade

  const PapuaName: string := "PAPUA NUEVA GUINEA"
  const Papua: string := "PAPUA"
  const Guinea: string := "GUINEA"
  const Ecuador: string := "ECUADOR"

  /** The two rows of the source's table that occur in "PAPUA NUEVA GUINEA",
      in the source's order. */
  const PapuaFirst: seq<Pattern> := [Pattern(Papua, "Oceanía"), Pattern(Guinea, "África")]

  /** The same two rows in the opposite order. */
  const GuineaFirst: seq<Pattern> := [Pattern(Guinea, "África"), Pattern(Papua, "Oceanía")]

  lemma PapuaNameKey()
    ensures Normalize(Ops, PapuaName) == PapuaName
  {
    NormalizePlain(PapuaName);
  }

  lemma PapuaKey()
    ensures Normalize(Ops, Papua) == Papua
  {
    NormalizePlain(Papua);
  }

  lemma GuineaKey()
    ensures Normalize(Ops, Guinea) == Guinea
  {
    NormalizePlain(Guinea);
  }

  lemma EcuadorKey()
    ensures Normalize(Ops, Ecuador) == Ecuador
  {
    NormalizePlain(Ecuador);
  }

  lemma PapuaAtStart()
    ensures Contains(PapuaName, Papua)
  {
    assert StartsWith(PapuaName, Papua);
  }

  lemma GuineaAtTwelve()
    ensures Contains(PapuaName, Guinea)
  {
    assert OccursAt(PapuaName, Guinea, 12);
    ContainsIff(PapuaName, Guinea);
  }

  /** A pattern whose first character never occurs in `s` does not occur in `s`. */
  lemma MissingFirstChar(s: string, p: string)
    requires |p| > 0
    requires forall k :: 0 <= k < |s| ==> s[k] != p[0]
    ensures !Contains(s, p)
  {
    ContainsIff(s, p);
  }

  lemma EcuadorMatchesNeither()
    ensures !Contains(Ecuador, Papua)
    ensures !Contains(Ecuador, Guinea)
  {
    MissingFirstChar(Ecuador, Papua);
    MissingFirstChar(Ecuador, Guinea);
  }

  /** In the source's table "PAPUA" (row 107) comes before "GUINEA" (row 130). */
  lemma PapuaPrecedesGuinea()
    ensures RegionPatterns[107] == Pattern("PAPUA", "Oceanía")
    ensures RegionPatterns[130] == Pattern("GUINEA", "África")
  {
  }

  /** First match wins: with PAPUA listed first the name is in Oceania, and
      the very same name lands in Africa once the rows are swapped. */
  lemma OrderDecidesPapua()
    ensures Classify(Ops, PapuaFirst, PapuaName) == "Oceanía"
    ensures Classify(Ops, GuineaFirst, PapuaName) == "África"
  {
    PapuaNameKey();
    PapuaKey();
    GuineaKey();
    PapuaAtStart();
    GuineaAtTwelve();
    assert FirstMatchAt(Ops, PapuaFirst, Normalize(Ops, PapuaName), 0);
    ClassifyFirstMatch(Ops, PapuaFirst, PapuaName, 0);
    assert FirstMatchAt(Ops, GuineaFirst, Normalize(Ops, PapuaName), 0);
    ClassifyFirstMatch(Ops, GuineaFirst, PapuaName, 0);
  }

  lemma EcuadorMissesPapua()
    ensures !Matches(Ops, PapuaFirst[0], Ecuador)
  {
    PapuaKey();
    EcuadorMatchesNeither();
  }

  lemma EcuadorMissesGuinea()
    ensures !Matches(Ops, PapuaFirst[1], Ecuador)
  {
    GuineaKey();
    EcuadorMatchesNeither();
  }

  lemma EcuadorNoMatch()
    ensures NoMatch(Ops, PapuaFirst, Ecuador)
  {
    forall j | 0 <= j < |PapuaFirst|
      ensures !Matches(Ops, PapuaFirst[j], Ecuador)
    {
      if j == 0 {
        EcuadorMissesPapua();
      } else {
        EcuadorMissesGuinea();
      }
    }
  }

  lemma PapuaFirstHasNoCatchAll()
    ensures NoCatchAllRow(PapuaFirst)
  {
  }

  /** A name none of whose rows occurs falls back to "Otros". */
  lemma UnlistedNameIsOther()
    ensures Classify(Ops, PapuaFirst, Ecuador) == Other
  {
    EcuadorKey();
    EcuadorNoMatch();
    PapuaFirstHasNoCatchAll();
  }

  // ------------------------------------------------------------- aggregation

  const Peru: string := "PERU"
  const Banana: ExportRecord := ExportRecord(2023, Peru, "1101", "BANANO", 50000.0, 120.0)

  lemma PeruKey()
    ensures Normalize(Ops, Peru) == Peru
  {
    NormalizePlain(Peru);
  }

  lemma BananaKeySet()
    ensures KeySet([Banana], ExportKeyOf) == {ExportKeyOf(Banana)}
  {
    assert ExportKeyOf([Banana][0]) in KeySet([Banana], ExportKeyOf);
  }

  lemma BananaSum()
    ensures SumBy([Banana], ExportKeyOf, Fob, ExportKeyOf(Banana)) == 50000.0
  {
    assert [Banana][..0] == [];
  }

  lemma BananaSector()
    ensures SectorOf("1101") == "Prod. Primarios Agrícolas"
  {
    assert SectorCode("1101") == "11";
  }

  /** One export record of 50 000 thousand dollars becomes one row of 50
      million, in the primary agricultural sector, keyed "PERU". */
  lemma SingleExportRow(table: seq<Pattern>)
    ensures |LoadExports(Ops, table, [Banana])| == 1
    ensures LoadExports(Ops, table, [Banana])[0].fob == 50.0
    ensures LoadExports(Ops, table, [Banana])[0].sector == "Prod. Primarios Agrícolas"
    ensures LoadExports(Ops, table, [Banana])[0].countryKey == Peru
  {
    var rows := LoadExports(Ops, table, [Banana]);
    BananaKeySet();
    ExportRowCount(Derived(Ops, table), [Banana]);
    assert RowKey(rows[0]) in KeySet([Banana], ExportKeyOf);
    assert RowKey(rows[0]) == ExportKeyOf(Banana);
    BananaSum();
    BananaSector();
    PeruKey();
  }

  /** "Perú" and "PERU" rows end up under one partner key. */
  lemma PeruSpellingsOneKey()
    ensures Normalize(Ops, "Perú") == Normalize(Ops, Peru)
  {
    PeruSpellingsShareKey();
    PeruKey();
  }
}
