/**
 * The values insert_disease_info writes for query 1: one record per disease
 * of the relations table, with every id replaced by its display name.
 */
module DiseaseRecords {
  import opened Rows
  import opened DiseaseTable
  import opened DiseaseQuery

  const UnknownDisease: string := "Unknown Disease"

  /** One row of the disease_info table, keyed by the disease id. */
  datatype DiseaseRecord = DiseaseRecord(diseaseName: string, drugNames: set<string>,
                                         geneNames: set<string>, locationNames: set<string>)

  /** `names.get(id, default)`. */
  function NameOr(names: map<string, string>, id: string, default: string): string
  {
    if id in names then names[id] else default
  }

  /** `{names.get(x, x) for x in ids}`: each id by its name, an unnamed id by itself. */
  function DisplayNames(names: map<string, string>, ids: set<string>): (shown: set<string>)
  {
    set x | x in ids :: NameOr(names, x, x)
  }

  /** Naming never adds entries; ids with equal names collapse into one. */
  lemma {:induction false} DisplayNamesAtMostIds(names: map<string, string>, ids: set<string>)
    ensures |DisplayNames(names, ids)| <= |ids|
    decreases |ids|
  {
    if ids != {} {
      var x :| x in ids;
      var rest := ids - {x};
      DisplayNamesAtMostIds(names, rest);
      assert DisplayNames(names, ids) == DisplayNames(names, rest) + {NameOr(names, x, x)};
    }
  }

  /** Ids without a name are shown as themselves. */
  lemma UnnamedIdsShownAsIs(names: map<string, string>, ids: set<string>)
    requires ids !! names.Keys
    ensures DisplayNames(names, ids) == ids
  {
    forall x | x in ids ensures x in DisplayNames(names, ids) {
      assert NameOr(names, x, x) == x;
    }
  }

  /** Two different ids with the same name give one entry: the sets are of names, not of ids. */
  lemma SameNameMerged(names: map<string, string>, x: string, y: string)
    requires x != y && x in names && y in names && names[x] == names[y]
    ensures DisplayNames(names, {x, y}) == {names[x]}
  {
    assert NameOr(names, x, x) == names[x] && NameOr(names, y, y) == names[x];
  }

  /** The record built for one entry of the relations table. */
  function Record(diseaseNames: map<string, string>, drugNames: map<string, string>,
                  geneNames: map<string, string>, locationNames: map<string, string>,
                  d: string, data: DiseaseData): (rec: DiseaseRecord)
    ensures d in diseaseNames ==> rec.diseaseName == diseaseNames[d]
    ensures d !in diseaseNames ==> rec.diseaseName == UnknownDisease
    ensures forall n :: n in rec.drugNames <==> exists x :: x in data.drugs && NameOr(drugNames, x, x) == n
    ensures forall n :: n in rec.geneNames <==> exists x :: x in data.genes && NameOr(geneNames, x, x) == n
    ensures forall n :: n in rec.locationNames <==> exists x :: x in data.locations && NameOr(locationNames, x, x) == n
    ensures |rec.drugNames| <= |data.drugs| && |rec.geneNames| <= |data.genes| && |rec.locationNames| <= |data.locations|
  {
    DisplayNamesAtMostIds(drugNames, data.drugs);
    DisplayNamesAtMostIds(geneNames, data.genes);
    DisplayNamesAtMostIds(locationNames, data.locations);
    DiseaseRecord(NameOr(diseaseNames, d, UnknownDisease),
                  DisplayNames(drugNames, data.drugs),
                  DisplayNames(geneNames, data.genes),
                  DisplayNames(locationNames, data.locations))
  }

  /** The rows insert_disease_info writes, by primary key: one per disease of the table. */
  function DiseaseRecords(diseaseNames: map<string, string>, drugNames: map<string, string>,
                          geneNames: map<string, string>, locationNames: map<string, string>,
                          table: map<string, DiseaseData>): (records: map<string, DiseaseRecord>)
    ensures records.Keys == table.Keys
  {
    map d | d in table :: Record(diseaseNames, drugNames, geneNames, locationNames, d, table[d])
  }

  /**
   * Query 1 end to end: the record stored for a disease of the edge file
   * lists, by name, the sources of its `CtD`/`CpD` rows, the targets of its
   * `DuG` rows and the targets of its `DlA` rows.
   */
  lemma RecordFromRows(diseaseNames: map<string, string>, drugNames: map<string, string>,
                       geneNames: map<string, string>, locationNames: map<string, string>,
                       rows: seq<EdgeRow>, d: string)
    requires d in DiseaseRelations(rows)
    ensures d in DiseaseRecords(diseaseNames, drugNames, geneNames, locationNames, DiseaseRelations(rows))
    ensures var rec := DiseaseRecords(diseaseNames, drugNames, geneNames, locationNames, DiseaseRelations(rows))[d];
            (forall n :: n in rec.drugNames <==>
               exists r :: r in rows && IsDrugEdge(r) && r.target == d && NameOr(drugNames, r.source, r.source) == n) &&
            (forall n :: n in rec.geneNames <==>
               exists r :: r in rows && IsGeneEdge(r) && r.source == d && NameOr(geneNames, r.target, r.target) == n) &&
            (forall n :: n in rec.locationNames <==>
               exists r :: r in rows && IsLocationEdge(r) && r.source == d && NameOr(locationNames, r.target, r.target) == n)
  {
    DiseaseRelationsEntry(rows, d);
  }
}
