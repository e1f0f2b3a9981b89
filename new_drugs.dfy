/**
 * Query 2 selection: load_anatomy_desease_compound_relations builds a
 * drugs/locations table keyed by disease, and load_new_drugs_info keeps the
 * compounds of the join that do not treat a disease localised at the anatomy
 * of one of their triples.
 */
module NewDrugs {
  import opened Text
  import opened Rows
  import opened DiseaseTable
  import opened Optional
  import opened GeneJoin

  /** A `DlA` row into a target that contains "Anatomy::": the target is a location of the source. */
  predicate IsLocalization(r: EdgeRow)
  {
    Contains(r.target, AnatomyMarker) && r.metaedge == "DlA"
  }

  /** A `CtD` or `CpD` row out of a source that contains "Compound::": the source is a drug of the target. */
  predicate IsTreatment(r: EdgeRow)
  {
    Contains(r.source, CompoundMarker) && (r.metaedge == "CtD" || r.metaedge == "CpD")
  }

  /** The additions the two `if` blocks of load_anatomy_desease_compound_relations make for one row. */
  function RowAdditions(r: EdgeRow): set<Addition>
  {
    (if IsLocalization(r) then {Addition(r.source, Locations, r.target)} else {}) +
    (if IsTreatment(r) then {Addition(r.target, Drugs, r.source)} else {})
  }

  /** The dictionary load_anatomy_desease_compound_relations returns for the edge rows `rows`. */
  function AnatomyDiseaseCompound(rows: seq<EdgeRow>): map<string, DiseaseData>
  {
    Collect(AdditionsOf(EdgeSet(rows), RowAdditions))
  }

  /**
   * The body of load_anatomy_desease_compound_relations' loop for one row:
   * the `if` block on the target, then the one on the source.
   */
  method AddRowAnatomyDiseaseCompound(table: map<string, DiseaseData>, row: EdgeRow, ghost before: set<Addition>)
    returns (t: map<string, DiseaseData>)
    requires table == Collect(before)
    ensures t == Collect(before + RowAdditions(row))
  {
    t := table;
    ghost var done := before;
    if Contains(row.target, AnatomyMarker) {
      if row.metaedge == "DlA" {
        CollectAdd(done, Addition(row.source, Locations, row.target));
        t := Add(t, Addition(row.source, Locations, row.target));
        done := done + {Addition(row.source, Locations, row.target)};
      }
    }
    if Contains(row.source, CompoundMarker) {
      if row.metaedge == "CtD" || row.metaedge == "CpD" {
        CollectAdd(done, Addition(row.target, Drugs, row.source));
        t := Add(t, Addition(row.target, Drugs, row.source));
        done := done + {Addition(row.target, Drugs, row.source)};
      }
    }
    assert done == before + RowAdditions(row);
  }

  /** load_anatomy_desease_compound_relations: one pass over the rows, from an empty table. */
  method LoadAnatomyDiseaseCompoundRelations(rows: seq<EdgeRow>) returns (table: map<string, DiseaseData>)
    ensures table == AnatomyDiseaseCompound(rows)
  {
    table := map[];
    var i := 0;
    while i < |rows|
      invariant 0 <= i <= |rows|
      invariant table == Collect(AdditionsOf(EdgeSet(rows[..i]), RowAdditions))
    {
      table := AddRowAnatomyDiseaseCompound(table, rows[i], AdditionsOf(EdgeSet(rows[..i]), RowAdditions));
      AdditionsStep(rows, i, RowAdditions);
      i := i + 1;
    }
    assert rows[..|rows|] == rows;
  }

  /** The table has an entry exactly for the sources of localisation rows and the targets of treatment rows. */
  lemma AnatomyDiseaseCompoundKeys(rows: seq<EdgeRow>, d: string)
    ensures d in AnatomyDiseaseCompound(rows) <==>
            exists r :: r in rows && ((IsLocalization(r) && r.source == d) || (IsTreatment(r) && r.target == d))
  {
    var adds := AdditionsOf(EdgeSet(rows), RowAdditions);
    if d in AnatomyDiseaseCompound(rows) {
      var a :| a in adds && a.disease == d;
      var r :| r in EdgeSet(rows) && a in RowAdditions(r);
      assert r in rows;
    }
    if exists r :: r in rows && ((IsLocalization(r) && r.source == d) || (IsTreatment(r) && r.target == d)) {
      var r :| r in rows && ((IsLocalization(r) && r.source == d) || (IsTreatment(r) && r.target == d));
      assert r in EdgeSet(rows);
      if IsLocalization(r) && r.source == d {
        assert Addition(d, Locations, r.target) in RowAdditions(r);
      } else {
        assert Addition(d, Drugs, r.source) in RowAdditions(r);
      }
    }
  }

  /** Each entry: the sources of the treatment rows into it and the targets of the localisation rows out of it. */
  lemma AnatomyDiseaseCompoundEntry(rows: seq<EdgeRow>, d: string)
    requires d in AnatomyDiseaseCompound(rows)
    ensures AnatomyDiseaseCompound(rows)[d].drugs == set r | r in rows && IsTreatment(r) && r.target == d :: r.source
    ensures AnatomyDiseaseCompound(rows)[d].locations == set r | r in rows && IsLocalization(r) && r.source == d :: r.target
    ensures AnatomyDiseaseCompound(rows)[d].genes == {}
  {
    var adds := AdditionsOf(EdgeSet(rows), RowAdditions);
    CollectGet(adds, d, Drugs);
    CollectGet(adds, d, Genes);
    CollectGet(adds, d, Locations);
    DrugMembersFromRows(rows, d);
    LocationMembersFromRows(rows, d);
  }

  lemma DrugMembersFromRows(rows: seq<EdgeRow>, d: string)
    ensures Members(AdditionsOf(EdgeSet(rows), RowAdditions), d, Drugs) ==
            set r | r in rows && IsTreatment(r) && r.target == d :: r.source
  {
    var adds := AdditionsOf(EdgeSet(rows), RowAdditions);
    forall x | x in Members(adds, d, Drugs) ensures exists r :: r in rows && IsTreatment(r) && r.target == d && r.source == x {
      var a :| a in adds && a.disease == d && a.field == Drugs && a.member == x;
      var r :| r in EdgeSet(rows) && a in RowAdditions(r);
      assert r in rows;
    }
    forall r | r in rows && IsTreatment(r) && r.target == d ensures r.source in Members(adds, d, Drugs) {
      assert Addition(d, Drugs, r.source) in RowAdditions(r);
    }
  }

  lemma LocationMembersFromRows(rows: seq<EdgeRow>, d: string)
    ensures Members(AdditionsOf(EdgeSet(rows), RowAdditions), d, Locations) ==
            set r | r in rows && IsLocalization(r) && r.source == d :: r.target
  {
    var adds := AdditionsOf(EdgeSet(rows), RowAdditions);
    forall x | x in Members(adds, d, Locations) ensures exists r :: r in rows && IsLocalization(r) && r.source == d && r.target == x {
      var a :| a in adds && a.disease == d && a.field == Locations && a.member == x;
      var r :| r in EdgeSet(rows) && a in RowAdditions(r);
      assert r in rows;
    }
    forall r | r in rows && IsLocalization(r) && r.source == d ensures r.target in Members(adds, d, Locations) {
      assert Addition(d, Locations, r.target) in RowAdditions(r);
    }
  }

  /** Some disease of the table is treated by `c` and localised at `a`. */
  predicate TreatedAt(table: map<string, DiseaseData>, c: string, a: string)
  {
    exists d :: d in table && c in table[d].drugs && a in table[d].locations
  }

  /** `all_drugs_info`: filled inside the loop over the table, so empty when the table is. */
  function AllDrugs(triples: set<Triple>, table: map<string, DiseaseData>): set<string>
  {
    if table == map[] then {} else set t | t in triples :: t.compound
  }

  /** `old_drugs_info`: compounds of a triple whose anatomy hosts a disease the compound treats. */
  function OldDrugs(triples: set<Triple>, table: map<string, DiseaseData>): set<string>
  {
    set t | t in triples && TreatedAt(table, t.compound, t.anatomy) :: t.compound
  }

  /** The set load_new_drugs_info returns. */
  function NewDrugsInfo(triples: set<Triple>, table: map<string, DiseaseData>): set<string>
  {
    AllDrugs(triples, table) - OldDrugs(triples, table)
  }

  /** load_new_drugs_info: the nested loops over the triples and the table. */
  method LoadNewDrugsInfo(triples: set<Triple>, table: map<string, DiseaseData>) returns (newDrugs: set<string>)
    ensures newDrugs == NewDrugsInfo(triples, table)
    ensures forall c :: c in newDrugs <==>
              table != map[] && (exists t :: t in triples && t.compound == c) &&
              forall t :: t in triples && t.compound == c ==> !TreatedAt(table, c, t.anatomy)
  {
    var allDrugs: set<string> := {};
    var oldDrugs: set<string> := {};
    var items := triples;
    while items != {}
      invariant items <= triples
      invariant allDrugs == AllDrugs(triples - items, table)
      invariant oldDrugs == OldDrugs(triples - items, table)
      decreases items
    {
      var item :| item in items;
      ghost var done := triples - items;
      var keys := table.Keys;
      while keys != {}
        invariant keys <= table.Keys
        invariant allDrugs == AllDrugs(done, table) + (if keys == table.Keys then {} else {item.compound})
        invariant oldDrugs == OldDrugs(done, table) +
                    (if exists d :: d in table.Keys - keys && item.compound in table[d].drugs &&
                                    item.anatomy in table[d].locations
                     then {item.compound} else {})
        decreases keys
      {
        var d :| d in keys;
        allDrugs := allDrugs + {item.compound};
        if item.compound in table[d].drugs && item.anatomy in table[d].locations {
          oldDrugs := oldDrugs + {item.compound};
        }
        keys := keys - {d};
      }
      items := items - {item};
      assert triples - items == done + {item};
      assert table != map[] ==> keys != table.Keys by {
        if table != map[] { var d :| d in table; }
      }
      assert AllDrugs(done + {item}, table) ==
             AllDrugs(done, table) + (if table == map[] then {} else {item.compound});
      assert OldDrugs(done + {item}, table) ==
             OldDrugs(done, table) + (if TreatedAt(table, item.compound, item.anatomy) then {item.compound} else {});
    }
    newDrugs := allDrugs - oldDrugs;
    assert triples - {} == triples;
  }

  /** Rows `tr` and `lo` say that compound `c` treats (or palliates) a disease localised at anatomy `a`. */
  predicate TreatsDiseaseAt(rows: seq<EdgeRow>, c: string, a: string)
  {
    exists tr, lo :: tr in rows && lo in rows && IsTreatment(tr) && IsLocalization(lo) &&
                     tr.source == c && lo.source == tr.target && lo.target == a
  }

  /** TreatedAt on the table built from `rows`, read back in terms of the rows. */
  lemma TreatedAtRows(rows: seq<EdgeRow>, c: string, a: string)
    ensures TreatedAt(AnatomyDiseaseCompound(rows), c, a) <==> TreatsDiseaseAt(rows, c, a)
  {
    var table := AnatomyDiseaseCompound(rows);
    if TreatedAt(table, c, a) {
      var d :| d in table && c in table[d].drugs && a in table[d].locations;
      AnatomyDiseaseCompoundEntry(rows, d);
      var tr :| tr in rows && IsTreatment(tr) && tr.target == d && tr.source == c;
      var lo :| lo in rows && IsLocalization(lo) && lo.source == d && lo.target == a;
    }
    if TreatsDiseaseAt(rows, c, a) {
      var tr, lo :| tr in rows && lo in rows && IsTreatment(tr) && IsLocalization(lo) &&
                    tr.source == c && lo.source == tr.target && lo.target == a;
      var d := tr.target;
      AnatomyDiseaseCompoundKeys(rows, d);
      AnatomyDiseaseCompoundEntry(rows, d);
      assert c in table[d].drugs && a in table[d].locations;
    }
  }

  /** Membership in the result of load_new_drugs_info, stated on the triples and the table. */
  lemma NewDrugsInfoMembers(triples: set<Triple>, table: map<string, DiseaseData>, c: string)
    ensures c in NewDrugsInfo(triples, table) <==>
            table != map[] && (exists t :: t in triples && t.compound == c) &&
            forall t :: t in triples && t.compound == c ==> !TreatedAt(table, c, t.anatomy)
  {
  }

  /** The disease table of query 2 is empty exactly when no row is a localisation or a treatment. */
  lemma AnatomyDiseaseCompoundEmpty(rows: seq<EdgeRow>)
    ensures AnatomyDiseaseCompound(rows) != map[] <==>
            exists r :: r in rows && (IsLocalization(r) || IsTreatment(r))
  {
    var table := AnatomyDiseaseCompound(rows);
    if table != map[] {
      var d :| d in table;
      AnatomyDiseaseCompoundKeys(rows, d);
    }
    if exists r :: r in rows && (IsLocalization(r) || IsTreatment(r)) {
      var r :| r in rows && (IsLocalization(r) || IsTreatment(r));
      if IsLocalization(r) {
        AnatomyDiseaseCompoundKeys(rows, r.source);
      } else {
        AnatomyDiseaseCompoundKeys(rows, r.target);
      }
    }
  }

  /**
   * End to end over one edge file: a compound is a new drug exactly when the
   * file has some localisation or treatment row, the compound is in some
   * triple of the join, and it treats no disease localised at the anatomy of
   * any of its triples.
   */
  lemma NewDrugsFromRows(rows: seq<EdgeRow>, c: string)
    ensures c in NewDrugsInfo(JoinTriples(rows), AnatomyDiseaseCompound(rows)) <==>
            (exists r :: r in rows && (IsLocalization(r) || IsTreatment(r))) &&
            (exists t :: t in JoinTriples(rows) && t.compound == c) &&
            forall t :: t in JoinTriples(rows) && t.compound == c ==> !TreatsDiseaseAt(rows, c, t.anatomy)
  {
    var triples, table := JoinTriples(rows), AnatomyDiseaseCompound(rows);
    NewDrugsInfoMembers(triples, table, c);
    AnatomyDiseaseCompoundEmpty(rows);
    forall t | t in triples && t.compound == c
      ensures TreatedAt(table, c, t.anatomy) <==> TreatsDiseaseAt(rows, c, t.anatomy)
    {
      TreatedAtRows(rows, c, t.anatomy);
    }
  }

  /** A compound that treats a disease localised at the anatomy of one of its triples is never a new drug. */
  lemma TreatingCompoundExcluded(rows: seq<EdgeRow>, t: Triple, tr: EdgeRow, lo: EdgeRow)
    requires t in JoinTriples(rows)
    requires tr in rows && IsTreatment(tr) && tr.source == t.compound
    requires lo in rows && IsLocalization(lo) && lo.source == tr.target && lo.target == t.anatomy
    ensures t.compound !in NewDrugsInfo(JoinTriples(rows), AnatomyDiseaseCompound(rows))
  {
    NewDrugsFromRows(rows, t.compound);
  }

  /** Without any localisation or treatment row there is no new drug, whatever the join found. */
  lemma NoTableNoNewDrugs(rows: seq<EdgeRow>)
    requires forall r :: r in rows ==> !IsLocalization(r) && !IsTreatment(r)
    ensures NewDrugsInfo(JoinTriples(rows), AnatomyDiseaseCompound(rows)) == {}
  {
    forall c ensures c !in NewDrugsInfo(JoinTriples(rows), AnatomyDiseaseCompound(rows)) {
      NewDrugsFromRows(rows, c);
    }
  }

  /** Rows `i` and `j` regulate the same gene in opposite directions: `CdG` with `AuG`, or `CuG` with `AdG`. */
  predicate OppositePair(rows: seq<EdgeRow>, i: int, j: int)
  {
    0 <= i < |rows| && 0 <= j < |rows| && rows[i].target == rows[j].target &&
    ((Link(rows[i]) == Some(CdG) && Link(rows[j]) == Some(AuG)) ||
     (Link(rows[i]) == Some(CuG) && Link(rows[j]) == Some(AdG)))
  }

  /** Every new drug regulates some gene opposite to some anatomy. */
  lemma NewDrugHasOppositePair(rows: seq<EdgeRow>, c: string)
    requires c in NewDrugsInfo(JoinTriples(rows), AnatomyDiseaseCompound(rows))
    ensures exists i, j :: OppositePair(rows, i, j) && rows[i].source == c
  {
    NewDrugsFromRows(rows, c);
    var t :| t in JoinTriples(rows) && t.compound == c;
    TripleOrigin(rows, t);
    if exists i, j :: RowWrites(rows, i, CdG, t.gene) && rows[i].source == t.compound &&
                      RowWrites(rows, j, AuG, t.gene) && rows[j].source == t.anatomy {
      var i, j :| RowWrites(rows, i, CdG, t.gene) && rows[i].source == t.compound &&
                  RowWrites(rows, j, AuG, t.gene) && rows[j].source == t.anatomy;
      assert OppositePair(rows, i, j);
    } else {
      var i, j :| RowWrites(rows, i, CuG, t.gene) && rows[i].source == t.compound &&
                  RowWrites(rows, j, AdG, t.gene) && rows[j].source == t.anatomy;
      assert OppositePair(rows, i, j);
    }
  }
}
