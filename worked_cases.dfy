/**
 * What the model gives for two small edge files, where the code's answer
 * differs from the wording of the two query statements shown by the
 * program's start page (scripts_cassandra/hetio_cassandra.py:423-437).
 */
module WorkedCases {
  import opened Optional
  import opened Text
  import opened Rows
  import opened DiseaseTable
  import opened DiseaseQuery
  import opened GeneJoin
  import opened NewDrugs

  /** A treated, gene-associated (`DaG`) and localised disease. */
  const ProfileRows: seq<EdgeRow> :=
    [EdgeRow("Compound::C1", "CtD", "Disease::D1"), EdgeRow("Disease::D1", "DaG", "Gene::G1"),
     EdgeRow("Disease::D1", "DlA", "Anatomy::AN1")]

  /** How query 1 reads each row. */
  lemma ProfileRowKinds()
    ensures IsDrugEdge(ProfileRows[0]) && !IsGeneEdge(ProfileRows[0]) && !IsLocationEdge(ProfileRows[0])
    ensures !IsDrugEdge(ProfileRows[1]) && !IsGeneEdge(ProfileRows[1]) && !IsLocationEdge(ProfileRows[1])
    ensures !IsDrugEdge(ProfileRows[2]) && !IsGeneEdge(ProfileRows[2]) && IsLocationEdge(ProfileRows[2])
  {
    PrefixContained(DiseaseMarker, "D1");
    assert DiseaseMarker + "D1" == "Disease::D1";
  }

  /** Query 1 makes an entry for `x` exactly when `x` is the one disease. */
  lemma ProfileKey(x: string)
    ensures x in DiseaseRelations(ProfileRows) <==> x == "Disease::D1"
  {
    ProfileRowKinds();
    var rows := ProfileRows;
    DiseaseRelationsKeys(rows, x);
    assert rows[0] in rows;
    assert forall r :: r in rows ==> r == rows[0] || r == rows[1] || r == rows[2];
  }

  /** The treating compound is the only drug of the disease. */
  lemma ProfileDrugs()
    requires "Disease::D1" in DiseaseRelations(ProfileRows)
    ensures DiseaseRelations(ProfileRows)["Disease::D1"].drugs == {"Compound::C1"}
  {
    var rows := ProfileRows;
    ProfileRowKinds();
    DiseaseRelationsEntry(rows, "Disease::D1");
    assert rows[0] in rows;
    assert forall r :: r in rows ==> r == rows[0] || r == rows[1] || r == rows[2];
  }

  /** The disease has no gene and the one anatomy as location. */
  lemma ProfileGenesAndLocations()
    requires "Disease::D1" in DiseaseRelations(ProfileRows)
    ensures DiseaseRelations(ProfileRows)["Disease::D1"].genes == {}
    ensures DiseaseRelations(ProfileRows)["Disease::D1"].locations == {"Anatomy::AN1"}
  {
    var rows := ProfileRows;
    ProfileRowKinds();
    DiseaseRelationsEntry(rows, "Disease::D1");
    assert rows[2] in rows;
    assert forall r :: r in rows ==> r == rows[0] || r == rows[1] || r == rows[2];
  }

  /** Query 1 keeps the drug and the location but no gene: only `DuG` rows give genes. */
  lemma AssociatedGeneNotProfiled()
    ensures DiseaseRelations(ProfileRows) ==
            map["Disease::D1" := DiseaseData({"Compound::C1"}, {}, {"Anatomy::AN1"})]
  {
    forall x ensures x in DiseaseRelations(ProfileRows) <==> x == "Disease::D1" {
      ProfileKey(x);
    }
    ProfileDrugs();
    ProfileGenesAndLocations();
  }

  /**
   * A compound that up-regulates a gene an anatomy down-regulates, where a
   * disease is localised, and that treats another disease.
   */
  const RepurposingRows: seq<EdgeRow> := [EdgeRow("Compound::C2", "CuG", "Gene::G2"), EdgeRow("Anatomy::AN2", "AdG", "Gene::G2"),
                                EdgeRow("Disease::D2", "DlA", "Anatomy::AN2"), EdgeRow("Compound::C2", "CtD", "Disease::D3")]

  /** For a three-letter metaedge, containing a code is being that code. */
  lemma ThreeLetterCodes(m: string)
    requires |m| == 3
    ensures forall reg :: Contains(m, Code(reg)) <==> m == Code(reg)
  {
    forall reg ensures Contains(m, Code(reg)) <==> m == Code(reg) {
      SameLengthContains(m, Code(reg));
    }
  }

  /** A row whose three-letter metaedge is the code of `reg`, with the markers `reg` tests, feeds `reg`. */
  lemma LinkOfCode(r: EdgeRow, reg: Regulation)
    requires r.metaedge == Code(reg)
    requires Contains(r.source, SourceMarker(reg)) && Contains(r.target, GeneMarker)
    ensures Link(r) == Some(reg)
  {
    ThreeLetterCodes(r.metaedge);
  }

  /** A row whose three-letter metaedge is no code of the join feeds no dictionary. */
  lemma NoLinkOfOtherCode(r: EdgeRow)
    requires |r.metaedge| == 3 && forall reg :: r.metaedge != Code(reg)
    ensures Link(r) == None
  {
    ThreeLetterCodes(r.metaedge);
  }

  /** Which join dictionary each row feeds. */
  lemma Links()
    ensures Link(RepurposingRows[0]) == Some(CuG) && Link(RepurposingRows[1]) == Some(AdG)
    ensures Link(RepurposingRows[2]) == None && Link(RepurposingRows[3]) == None
  {
    PrefixContained(CompoundMarker, "C2");
    PrefixContained(GeneMarker, "G2");
    PrefixContained(AnatomyMarker, "AN2");
    assert CompoundMarker + "C2" == "Compound::C2" && GeneMarker + "G2" == "Gene::G2" && AnatomyMarker + "AN2" == "Anatomy::AN2";
    LinkOfCode(RepurposingRows[0], CuG);
    LinkOfCode(RepurposingRows[1], AdG);
    NoLinkOfOtherCode(RepurposingRows[2]);
    NoLinkOfOtherCode(RepurposingRows[3]);
  }

  /** The last two rows feed the disease table of query 2: a localisation and a treatment. */
  lemma RepurposingTableRows()
    ensures IsLocalization(RepurposingRows[2]) && IsTreatment(RepurposingRows[3])
  {
    PrefixContained(CompoundMarker, "C2");
    PrefixContained(AnatomyMarker, "AN2");
    assert CompoundMarker + "C2" == "Compound::C2" && AnatomyMarker + "AN2" == "Anatomy::AN2";
  }

  /** The join finds one triple. */
  lemma Join()
    ensures JoinTriples(RepurposingRows) == {Triple("Gene::G2", "Compound::C2", "Anatomy::AN2")}
  {
    EmptyGeneMaps();
    UpGeneMap();
    DownGeneMap();
    var up, down := map["Gene::G2" := "Compound::C2"], map["Gene::G2" := "Anatomy::AN2"];
    assert Triple("Gene::G2", "Compound::C2", "Anatomy::AN2") in Joined(up, down) by {
      assert "Gene::G2" in up && "Gene::G2" in down;
    }
  }

  /** No row feeds the `CdG` or the `AuG` dictionary. */
  lemma EmptyGeneMaps()
    ensures GeneMap(RepurposingRows, CdG) == map[] && GeneMap(RepurposingRows, AuG) == map[]
  {
    Links();
    forall reg, x | reg in {CdG, AuG} ensures x !in GeneMap(RepurposingRows, reg) {
      GeneMapIsLastRow(RepurposingRows, reg, x);
    }
  }

  /** The `CuG` dictionary maps the shared gene to the compound. */
  lemma UpGeneMap()
    ensures GeneMap(RepurposingRows, CuG) == map["Gene::G2" := "Compound::C2"]
  {
    Links();
    forall x ensures x in GeneMap(RepurposingRows, CuG) <==> x == "Gene::G2" {
      GeneMapIsLastRow(RepurposingRows, CuG, x);
      assert RowWrites(RepurposingRows, 0, CuG, "Gene::G2");
    }
    GeneMapIsLastRow(RepurposingRows, CuG, "Gene::G2");
    var i :| RowWrites(RepurposingRows, i, CuG, "Gene::G2") &&
             RepurposingRows[i].source == GeneMap(RepurposingRows, CuG)["Gene::G2"];
    assert i == 0;
  }

  /** The `AdG` dictionary maps the shared gene to the anatomy. */
  lemma DownGeneMap()
    ensures GeneMap(RepurposingRows, AdG) == map["Gene::G2" := "Anatomy::AN2"]
  {
    Links();
    forall x ensures x in GeneMap(RepurposingRows, AdG) <==> x == "Gene::G2" {
      GeneMapIsLastRow(RepurposingRows, AdG, x);
      assert RowWrites(RepurposingRows, 1, AdG, "Gene::G2");
    }
    GeneMapIsLastRow(RepurposingRows, AdG, "Gene::G2");
    var j :| RowWrites(RepurposingRows, j, AdG, "Gene::G2") &&
             RepurposingRows[j].source == GeneMap(RepurposingRows, AdG)["Gene::G2"];
    assert j == 1;
  }

  /** The compound treats no disease localised at the anatomy of its triple. */
  lemma NoTreatmentAtAN2()
    ensures !TreatsDiseaseAt(RepurposingRows, "Compound::C2", "Anatomy::AN2")
  {
    forall tr | tr in RepurposingRows && IsTreatment(tr) ensures tr.target == "Disease::D3" {
    }
    forall lo | lo in RepurposingRows && IsLocalization(lo) ensures lo.source == "Disease::D2" {
    }
  }

  /** So the compound is a new drug, although it treats a disease: only a disease at the same anatomy excludes it. */
  lemma TreatmentElsewhereKept()
    ensures "Compound::C2" in NewDrugsInfo(JoinTriples(RepurposingRows), AnatomyDiseaseCompound(RepurposingRows))
  {
    RepurposingTableRows();
    Join();
    assert RepurposingRows[2] in RepurposingRows;
    NoTreatmentAtAN2();
    NewDrugsFromRows(RepurposingRows, "Compound::C2");
  }
}
