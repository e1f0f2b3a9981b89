/**
 * The two relation files as the loaders see them once `csv.reader` has split
 * them on tabs and the header row has been skipped.
 */
module Rows {

  /** One row of the node file: `node_id, name, kind = row`. */
  datatype NodeRow = NodeRow(id: string, name: string, kind: string)

  /** One row of the edge file: `source, metaedge, target = row`. */
  datatype EdgeRow = EdgeRow(source: string, metaedge: string, target: string)

  // Namespace markers searched for inside node ids.
  const DiseaseMarker: string := "Disease::"
  const CompoundMarker: string := "Compound::"
  const GeneMarker: string := "Gene::"
  const AnatomyMarker: string := "Anatomy::"

  /** The rows of a file regardless of their order or repetition. */
  function EdgeSet(rows: seq<EdgeRow>): (s: set<EdgeRow>)
    ensures forall r :: r in s <==> r in rows
  {
    set r | r in rows
  }

  /** One more row read. */
  lemma EdgeSetStep(rows: seq<EdgeRow>, i: int)
    requires 0 <= i < |rows|
    ensures EdgeSet(rows[..i + 1]) == EdgeSet(rows[..i]) + {rows[i]}
  {
    assert rows[..i + 1] == rows[..i] + [rows[i]];
  }
}
