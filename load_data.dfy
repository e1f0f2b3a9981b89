/** The two string helpers of the Neo4j loader. */
module LoadData {

  /** The labels a node can receive. */
  const Labels: set<string> := {"Compound", "Disease", "Gene", "Anatomy", "Entity"}

  /** `label_mapping`: the four node kinds that keep their own name as label. */
  const LabelMapping: map<string, string> :=
    map["Compound" := "Compound", "Disease" := "Disease", "Gene" := "Gene", "Anatomy" := "Anatomy"]

  /** get_node_label: `label_mapping.get(kind, "Entity")`. */
  function GetNodeLabel(kind: string): (nodeLabel: string)
    ensures kind in {"Compound", "Disease", "Gene", "Anatomy"} ==> nodeLabel == kind
    ensures kind !in {"Compound", "Disease", "Gene", "Anatomy"} ==> nodeLabel == "Entity"
    ensures nodeLabel in Labels
  {
    if kind in LabelMapping then LabelMapping[kind] else "Entity"
  }

  /** convert_relationship_type: `metaedge.replace(">", "_")`. */
  function ConvertRelationshipType(metaedge: string): (r: string)
    ensures |r| == |metaedge|
    ensures forall i :: 0 <= i < |r| ==> r[i] == if metaedge[i] == '>' then '_' else metaedge[i]
    ensures '>' !in r
  {
    if metaedge == [] then []
    else [if metaedge[0] == '>' then '_' else metaedge[0]] + ConvertRelationshipType(metaedge[1..])
  }

  /** Converting twice is converting once. */
  lemma ConvertIdempotent(metaedge: string)
    ensures ConvertRelationshipType(ConvertRelationshipType(metaedge)) == ConvertRelationshipType(metaedge)
  {
    var once := ConvertRelationshipType(metaedge);
    var twice := ConvertRelationshipType(once);
    assert forall i :: 0 <= i < |twice| ==> twice[i] == once[i];
  }

  /** A metaedge without `>` is already a valid relationship type and is left unchanged. */
  lemma ConvertKeepsPlainTypes(metaedge: string)
    requires '>' !in metaedge
    ensures ConvertRelationshipType(metaedge) == metaedge
  {
    var r := ConvertRelationshipType(metaedge);
    assert forall i :: 0 <= i < |r| ==> r[i] == metaedge[i];
  }
}
