/**
 * Query 1 aggregation, load_disease_relations: for each disease, the drugs
 * that treat or palliate it, the genes it up-regulates and the anatomies it
 * is localised in, gathered from the edge rows.
 */
module DiseaseQuery {
  import opened Text
  import opened Rows
  import opened DiseaseTable

  /** A `CtD` or `CpD` row into a target that contains "Disease::": its source is a drug of the target. */
  predicate IsDrugEdge(r: EdgeRow)
  {
    Contains(r.target, DiseaseMarker) && (r.metaedge == "CtD" || r.metaedge == "CpD")
  }

  /** A `DuG` row out of a source that contains "Disease::": its target is a gene of the source. */
  predicate IsGeneEdge(r: EdgeRow)
  {
    Contains(r.source, DiseaseMarker) && r.metaedge == "DuG"
  }

  /** A `DlA` row out of a source that contains "Disease::": its target is a location of the source. */
  predicate IsLocationEdge(r: EdgeRow)
  {
    Contains(r.source, DiseaseMarker) && r.metaedge == "DlA"
  }

  /** The addition the first `if` block (on the target) makes for one row. */
  function TargetAdditions(r: EdgeRow): set<Addition>
  {
    if IsDrugEdge(r) then {Addition(r.target, Drugs, r.source)} else {}
  }

  /** The addition the second `if` block (on the source) makes for one row. */
  function SourceAdditions(r: EdgeRow): set<Addition>
  {
    if IsGeneEdge(r) then {Addition(r.source, Genes, r.target)}
    else if IsLocationEdge(r) then {Addition(r.source, Locations, r.target)}
    else {}
  }

  /** The additions the two `if` blocks make for one row. */
  function RowAdditions(r: EdgeRow): set<Addition>
  {
    TargetAdditions(r) + SourceAdditions(r)
  }

  /** The dictionary load_disease_relations returns for the edge rows `rows`. */
  function DiseaseRelations(rows: seq<EdgeRow>): map<string, DiseaseData>
  {
    Collect(AdditionsOf(EdgeSet(rows), RowAdditions))
  }

  /**
   * The body of load_disease_relations' loop for one row: the `if` block on
   * the target, then the one on the source. On a table that collects
   * `before`, it leaves the table that also collects the row's additions.
   */
  method AddRowRelations(table: map<string, DiseaseData>, row: EdgeRow, ghost before: set<Addition>)
    returns (t: map<string, DiseaseData>)
    requires table == Collect(before)
    ensures t == Collect(before + RowAdditions(row))
  {
    t := table;
    ghost var done := before;
    if Contains(row.target, DiseaseMarker) {
      if row.metaedge == "CtD" {
        CollectAdd(done, Addition(row.target, Drugs, row.source));
        t := Add(t, Addition(row.target, Drugs, row.source));
        done := done + {Addition(row.target, Drugs, row.source)};
      } else if row.metaedge == "CpD" {
        CollectAdd(done, Addition(row.target, Drugs, row.source));
        t := Add(t, Addition(row.target, Drugs, row.source));
        done := done + {Addition(row.target, Drugs, row.source)};
      }
    }
    assert done == before + TargetAdditions(row);
    ghost var middle := done;
    if Contains(row.source, DiseaseMarker) {
      if row.metaedge == "DuG" {
        CollectAdd(done, Addition(row.source, Genes, row.target));
        t := Add(t, Addition(row.source, Genes, row.target));
        done := done + {Addition(row.source, Genes, row.target)};
      } else if row.metaedge == "DlA" {
        CollectAdd(done, Addition(row.source, Locations, row.target));
        t := Add(t, Addition(row.source, Locations, row.target));
        done := done + {Addition(row.source, Locations, row.target)};
      }
    }
    assert done == middle + SourceAdditions(row);
    assert done == before + RowAdditions(row);
  }

  /** load_disease_relations: one pass over the rows, from an empty table. */
  method LoadDiseaseRelations(rows: seq<EdgeRow>) returns (table: map<string, DiseaseData>)
    ensures table == DiseaseRelations(rows)
  {
    table := map[];
    var i := 0;
    while i < |rows|
      invariant 0 <= i <= |rows|
      invariant table == Collect(AdditionsOf(EdgeSet(rows[..i]), RowAdditions))
    {
      table := AddRowRelations(table, rows[i], AdditionsOf(EdgeSet(rows[..i]), RowAdditions));
      AdditionsStep(rows, i, RowAdditions);
      i := i + 1;
    }
    assert rows[..|rows|] == rows;
  }

  /** A disease id is a key exactly when some qualifying row names it. */
  lemma DiseaseRelationsKeys(rows: seq<EdgeRow>, d: string)
    ensures d in DiseaseRelations(rows) <==>
            exists r :: r in rows && ((IsDrugEdge(r) && r.target == d) ||
                                      ((IsGeneEdge(r) || IsLocationEdge(r)) && r.source == d))
  {
    var adds := AdditionsOf(EdgeSet(rows), RowAdditions);
    if d in DiseaseRelations(rows) {
      var a :| a in adds && a.disease == d;
      var r :| r in EdgeSet(rows) && a in RowAdditions(r);
      assert r in rows;
    }
    if exists r :: r in rows && ((IsDrugEdge(r) && r.target == d) ||
                                 ((IsGeneEdge(r) || IsLocationEdge(r)) && r.source == d)) {
      var r :| r in rows && ((IsDrugEdge(r) && r.target == d) ||
                             ((IsGeneEdge(r) || IsLocationEdge(r)) && r.source == d));
      assert r in EdgeSet(rows);
      if IsDrugEdge(r) && r.target == d {
        assert Addition(d, Drugs, r.source) in RowAdditions(r);
      } else if IsGeneEdge(r) {
        assert Addition(d, Genes, r.target) in RowAdditions(r);
      } else {
        assert Addition(d, Locations, r.target) in RowAdditions(r);
      }
    }
  }

  /**
   * The three sets of a disease: sources of its `CtD`/`CpD` rows, targets of
   * its `DuG` rows, targets of its `DlA` rows, and nothing else.
   */
  lemma DiseaseRelationsEntry(rows: seq<EdgeRow>, d: string)
    requires d in DiseaseRelations(rows)
    ensures DiseaseRelations(rows)[d].drugs == set r | r in rows && IsDrugEdge(r) && r.target == d :: r.source
    ensures DiseaseRelations(rows)[d].genes == set r | r in rows && IsGeneEdge(r) && r.source == d :: r.target
    ensures DiseaseRelations(rows)[d].locations == set r | r in rows && IsLocationEdge(r) && r.source == d :: r.target
  {
    var adds := AdditionsOf(EdgeSet(rows), RowAdditions);
    CollectGet(adds, d, Drugs);
    CollectGet(adds, d, Genes);
    CollectGet(adds, d, Locations);
    MembersFromRows(rows, d);
  }

  lemma MembersFromRows(rows: seq<EdgeRow>, d: string)
    ensures Members(AdditionsOf(EdgeSet(rows), RowAdditions), d, Drugs) == set r | r in rows && IsDrugEdge(r) && r.target == d :: r.source
    ensures Members(AdditionsOf(EdgeSet(rows), RowAdditions), d, Genes) == set r | r in rows && IsGeneEdge(r) && r.source == d :: r.target
    ensures Members(AdditionsOf(EdgeSet(rows), RowAdditions), d, Locations) == set r | r in rows && IsLocationEdge(r) && r.source == d :: r.target
  {
    var adds := AdditionsOf(EdgeSet(rows), RowAdditions);
    forall x | x in Members(adds, d, Drugs) ensures exists r :: r in rows && IsDrugEdge(r) && r.target == d && r.source == x {
      var a :| a in adds && a.disease == d && a.field == Drugs && a.member == x;
      var r :| r in EdgeSet(rows) && a in RowAdditions(r);
      assert r in rows;
    }
    forall r | r in rows && IsDrugEdge(r) && r.target == d ensures r.source in Members(adds, d, Drugs) {
      assert Addition(d, Drugs, r.source) in RowAdditions(r);
    }
    forall x | x in Members(adds, d, Genes) ensures exists r :: r in rows && IsGeneEdge(r) && r.source == d && r.target == x {
      var a :| a in adds && a.disease == d && a.field == Genes && a.member == x;
      var r :| r in EdgeSet(rows) && a in RowAdditions(r);
      assert r in rows;
    }
    forall r | r in rows && IsGeneEdge(r) && r.source == d ensures r.target in Members(adds, d, Genes) {
      assert Addition(d, Genes, r.target) in RowAdditions(r);
    }
    forall x | x in Members(adds, d, Locations) ensures exists r :: r in rows && IsLocationEdge(r) && r.source == d && r.target == x {
      var a :| a in adds && a.disease == d && a.field == Locations && a.member == x;
      var r :| r in EdgeSet(rows) && a in RowAdditions(r);
      assert r in rows;
    }
    forall r | r in rows && IsLocationEdge(r) && r.source == d ensures r.target in Members(adds, d, Locations) {
      assert !IsGeneEdge(r);
      assert Addition(d, Locations, r.target) in RowAdditions(r);
    }
  }

  /** The result depends only on which rows occur: reordering or repeating rows changes nothing. */
  lemma DiseaseRelationsIgnoreOrder(rows1: seq<EdgeRow>, rows2: seq<EdgeRow>)
    requires forall r :: r in rows1 <==> r in rows2
    ensures DiseaseRelations(rows1) == DiseaseRelations(rows2)
  {
    assert EdgeSet(rows1) == EdgeSet(rows2);
  }

  /** A row whose metaedge is none of `CtD`, `CpD`, `DuG`, `DlA` (`DaG` and `DdG` among them) changes nothing. */
  lemma OtherMetaedgesIgnored(rows: seq<EdgeRow>, r: EdgeRow)
    requires r.metaedge !in {"CtD", "CpD", "DuG", "DlA"}
    ensures DiseaseRelations(rows + [r]) == DiseaseRelations(rows)
  {
    assert RowAdditions(r) == {};
    assert EdgeSet(rows + [r]) == EdgeSet(rows) + {r};
    assert AdditionsOf(EdgeSet(rows + [r]), RowAdditions) == AdditionsOf(EdgeSet(rows), RowAdditions);
  }
}
