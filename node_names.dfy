/**
 * Node classification: the loaders that read the node file into
 * id -> name dictionaries, one per kind of node.
 */
module NodeNames {
  import opened Optional
  import opened Text
  import opened Rows
  import opened LastWrite

  /** The dictionary a node row is put into by load_nodes_information. */
  datatype NodeKind = DiseaseNode | CompoundNode | GeneNode | AnatomyNode | OtherNode

  /** The `if`/`elif` chain on the id: the first marker found decides; no marker, no dictionary. */
  function Classify(id: string): NodeKind
  {
    if Contains(id, DiseaseMarker) then DiseaseNode
    else if Contains(id, CompoundMarker) then CompoundNode
    else if Contains(id, GeneMarker) then GeneNode
    else if Contains(id, AnatomyMarker) then AnatomyNode
    else OtherNode
  }

  /** Which rows a loader keeps: those of one kind, or those whose id contains a marker. */
  datatype Selector = OfKind(kind: NodeKind) | WithMarker(marker: string)

  predicate Selects(s: Selector, id: string)
  {
    match s
    case OfKind(k) => Classify(id) == k
    case WithMarker(m) => Contains(id, m)
  }

  /** The assignment `names[node_id] = name` made for each row, if the loader keeps it. */
  function NameWrites(rows: seq<NodeRow>, s: Selector): (w: seq<Option<(string, string)>>)
    ensures |w| == |rows|
  {
    seq(|rows|, i requires 0 <= i < |rows| =>
      if Selects(s, rows[i].id) then Some((rows[i].id, rows[i].name)) else None)
  }

  /** The dictionary a loader returns for the node rows `rows`. */
  function NamesOf(rows: seq<NodeRow>, s: Selector): map<string, string>
  {
    Assigned(NameWrites(rows, s))
  }

  /** An id is a key exactly when some row carries it and the loader keeps that id. */
  lemma NamesOfKeys(rows: seq<NodeRow>, s: Selector, id: string)
    ensures id in NamesOf(rows, s) <==> Selects(s, id) && exists i :: 0 <= i < |rows| && rows[i].id == id
  {
    var w := NameWrites(rows, s);
    AssignedKeys(w, id);
    if id in NamesOf(rows, s) {
      var i :| WritesKey(w, i, id);
      assert rows[i].id == id;
    }
    if Selects(s, id) && exists i :: 0 <= i < |rows| && rows[i].id == id {
      var i :| 0 <= i < |rows| && rows[i].id == id;
      assert WritesKey(w, i, id);
    }
  }

  /** Last write wins: the name kept for an id is the name on the last row with that id. */
  lemma NamesOfLastRow(rows: seq<NodeRow>, s: Selector, id: string)
    requires id in NamesOf(rows, s)
    ensures exists i :: 0 <= i < |rows| && rows[i].id == id && rows[i].name == NamesOf(rows, s)[id] &&
                        forall j :: i < j < |rows| ==> rows[j].id != id
  {
    var w := NameWrites(rows, s);
    AssignedIsLastWrite(w, id);
    var i :| WritesKey(w, i, id) && w[i].value.1 == Assigned(w)[id] &&
             forall j :: i < j < |w| ==> !WritesKey(w, j, id);
    assert rows[i].id == id;
    forall j | i < j < |rows| ensures rows[j].id != id {
      assert !WritesKey(w, j, id);
      NamesOfKeys(rows, s, id);
    }
  }

  /** The four dictionaries of load_nodes_information never share a key. */
  lemma KindsDisjoint(rows: seq<NodeRow>, k1: NodeKind, k2: NodeKind)
    requires k1 != k2
    ensures NamesOf(rows, OfKind(k1)).Keys !! NamesOf(rows, OfKind(k2)).Keys
  {
    forall id | id in NamesOf(rows, OfKind(k1)) ensures id !in NamesOf(rows, OfKind(k2)) {
      NamesOfKeys(rows, OfKind(k1), id);
      NamesOfKeys(rows, OfKind(k2), id);
    }
  }

  /**
   * The precedence of the `elif` chain: an id of the file that contains
   * "Disease::" is a disease whatever other marker it also contains, and an
   * id that contains no marker is in none of the four dictionaries.
   */
  lemma ClassificationPrecedence(rows: seq<NodeRow>, i: int)
    requires 0 <= i < |rows|
    ensures Contains(rows[i].id, DiseaseMarker) ==>
              rows[i].id in NamesOf(rows, OfKind(DiseaseNode)) &&
              rows[i].id !in NamesOf(rows, OfKind(CompoundNode)) &&
              rows[i].id !in NamesOf(rows, OfKind(GeneNode)) &&
              rows[i].id !in NamesOf(rows, OfKind(AnatomyNode))
    ensures (!Contains(rows[i].id, DiseaseMarker) && !Contains(rows[i].id, CompoundMarker) &&
             !Contains(rows[i].id, GeneMarker) && !Contains(rows[i].id, AnatomyMarker)) ==>
              forall k :: k != OtherNode ==> rows[i].id !in NamesOf(rows, OfKind(k))
  {
    var id := rows[i].id;
    NamesOfKeys(rows, OfKind(DiseaseNode), id);
    NamesOfKeys(rows, OfKind(CompoundNode), id);
    NamesOfKeys(rows, OfKind(GeneNode), id);
    NamesOfKeys(rows, OfKind(AnatomyNode), id);
  }

  /**
   * Two loaders whose selections agree on a key give that key the same
   * entry: the key is in both or neither, and with the same name.
   */
  lemma SameSelectionSameEntry(rows: seq<NodeRow>, s1: Selector, s2: Selector, id: string)
    requires Selects(s1, id) == Selects(s2, id)
    ensures id in NamesOf(rows, s1) <==> id in NamesOf(rows, s2)
    ensures id in NamesOf(rows, s1) ==> NamesOf(rows, s1)[id] == NamesOf(rows, s2)[id]
  {
    NamesOfKeys(rows, s1, id);
    NamesOfKeys(rows, s2, id);
    var w1, w2 := NameWrites(rows, s1), NameWrites(rows, s2);
    if id in NamesOf(rows, s1) {
      forall i | 0 <= i < |w1| && WritesKey(w1, i, id) ensures w2[i] == w1[i] { }
      forall i | 0 <= i < |w2| && WritesKey(w2, i, id) ensures w1[i] == w2[i] { }
      AssignedAgreeAt(w1, w2, id);
    }
  }

  /** A loader that keeps the ids containing `marker`: load_disease_names, load_drugs_names, load_gene_names. */
  method LoadNamesContaining(rows: seq<NodeRow>, marker: string) returns (names: map<string, string>)
    ensures names == NamesOf(rows, WithMarker(marker))
  {
    ghost var w := NameWrites(rows, WithMarker(marker));
    names := map[];
    var i := 0;
    while i < |rows|
      invariant 0 <= i <= |rows|
      invariant names == Assigned(w[..i])
    {
      var row := rows[i];
      if Contains(row.id, marker) {
        names := names[row.id := row.name];
      }
      AssignedStep(w, i);
      i := i + 1;
    }
    assert w[..|rows|] == w;
  }

  /** load_disease_names: exactly the disease dictionary of load_nodes_information. */
  method LoadDiseaseNames(rows: seq<NodeRow>) returns (names: map<string, string>)
    ensures names == NamesOf(rows, OfKind(DiseaseNode))
    ensures forall id :: id in names <==> Contains(id, DiseaseMarker) && exists i :: 0 <= i < |rows| && rows[i].id == id
  {
    names := LoadNamesContaining(rows, DiseaseMarker);
    forall id ensures id in names <==> Contains(id, DiseaseMarker) && exists i :: 0 <= i < |rows| && rows[i].id == id
    {
      NamesOfKeys(rows, WithMarker(DiseaseMarker), id);
    }
    forall id ensures id in names <==> id in NamesOf(rows, OfKind(DiseaseNode))
    {
      SameSelectionSameEntry(rows, WithMarker(DiseaseMarker), OfKind(DiseaseNode), id);
    }
    forall id | id in names ensures names[id] == NamesOf(rows, OfKind(DiseaseNode))[id]
    {
      SameSelectionSameEntry(rows, WithMarker(DiseaseMarker), OfKind(DiseaseNode), id);
    }
  }

  /**
   * load_drugs_names: every id containing "Compound::", with the name of
   * its last row (NamesOfLastRow); the compound dictionary of
   * load_nodes_information is the part of it whose ids do not also contain
   * "Disease::", with the same names.
   */
  method LoadDrugsNames(rows: seq<NodeRow>) returns (names: map<string, string>)
    ensures names == NamesOf(rows, WithMarker(CompoundMarker))
    ensures forall id :: id in names <==> Contains(id, CompoundMarker) && exists i :: 0 <= i < |rows| && rows[i].id == id
    ensures forall id :: id in NamesOf(rows, OfKind(CompoundNode)) <==> id in names && !Contains(id, DiseaseMarker)
    ensures forall id :: id in NamesOf(rows, OfKind(CompoundNode)) ==> NamesOf(rows, OfKind(CompoundNode))[id] == names[id]
  {
    names := LoadNamesContaining(rows, CompoundMarker);
    forall id ensures id in names <==> Contains(id, CompoundMarker) && exists i :: 0 <= i < |rows| && rows[i].id == id
    {
      NamesOfKeys(rows, WithMarker(CompoundMarker), id);
    }
    forall id ensures (id in NamesOf(rows, OfKind(CompoundNode)) <==> id in names && !Contains(id, DiseaseMarker)) &&
                      (id in NamesOf(rows, OfKind(CompoundNode)) ==> NamesOf(rows, OfKind(CompoundNode))[id] == names[id])
    {
      NamesOfKeys(rows, OfKind(CompoundNode), id);
      if !Contains(id, DiseaseMarker) {
        SameSelectionSameEntry(rows, WithMarker(CompoundMarker), OfKind(CompoundNode), id);
      }
    }
  }

  /**
   * load_gene_names: every id containing "Gene::", with the name of its
   * last row (NamesOfLastRow); the gene dictionary of
   * load_nodes_information is the part of it whose ids contain neither
   * "Disease::" nor "Compound::", with the same names.
   */
  method LoadGeneNames(rows: seq<NodeRow>) returns (names: map<string, string>)
    ensures names == NamesOf(rows, WithMarker(GeneMarker))
    ensures forall id :: id in names <==> Contains(id, GeneMarker) && exists i :: 0 <= i < |rows| && rows[i].id == id
    ensures forall id :: id in NamesOf(rows, OfKind(GeneNode)) <==>
                         id in names && !Contains(id, DiseaseMarker) && !Contains(id, CompoundMarker)
    ensures forall id :: id in NamesOf(rows, OfKind(GeneNode)) ==> NamesOf(rows, OfKind(GeneNode))[id] == names[id]
  {
    names := LoadNamesContaining(rows, GeneMarker);
    forall id ensures id in names <==> Contains(id, GeneMarker) && exists i :: 0 <= i < |rows| && rows[i].id == id
    {
      NamesOfKeys(rows, WithMarker(GeneMarker), id);
    }
    forall id ensures (id in NamesOf(rows, OfKind(GeneNode)) <==>
                         id in names && !Contains(id, DiseaseMarker) && !Contains(id, CompoundMarker)) &&
                      (id in NamesOf(rows, OfKind(GeneNode)) ==> NamesOf(rows, OfKind(GeneNode))[id] == names[id])
    {
      NamesOfKeys(rows, OfKind(GeneNode), id);
      if !Contains(id, DiseaseMarker) && !Contains(id, CompoundMarker) {
        SameSelectionSameEntry(rows, WithMarker(GeneMarker), OfKind(GeneNode), id);
      }
    }
  }

  /**
   * load_nodes_information: one pass over the rows filling the disease,
   * compound, gene and anatomy dictionaries through the `elif` chain.
   */
  method LoadNodesInformation(rows: seq<NodeRow>)
    returns (diseases: map<string, string>, compounds: map<string, string>,
             genes: map<string, string>, locations: map<string, string>)
    ensures diseases == NamesOf(rows, OfKind(DiseaseNode))
    ensures compounds == NamesOf(rows, OfKind(CompoundNode))
    ensures genes == NamesOf(rows, OfKind(GeneNode))
    ensures locations == NamesOf(rows, OfKind(AnatomyNode))
    ensures diseases.Keys !! compounds.Keys && diseases.Keys !! genes.Keys && diseases.Keys !! locations.Keys
    ensures compounds.Keys !! genes.Keys && compounds.Keys !! locations.Keys && genes.Keys !! locations.Keys
  {
    ghost var wd := NameWrites(rows, OfKind(DiseaseNode));
    ghost var wc := NameWrites(rows, OfKind(CompoundNode));
    ghost var wg := NameWrites(rows, OfKind(GeneNode));
    ghost var wa := NameWrites(rows, OfKind(AnatomyNode));
    diseases, compounds, genes, locations := map[], map[], map[], map[];
    var i := 0;
    while i < |rows|
      invariant 0 <= i <= |rows|
      invariant diseases == Assigned(wd[..i])
      invariant compounds == Assigned(wc[..i])
      invariant genes == Assigned(wg[..i])
      invariant locations == Assigned(wa[..i])
    {
      var row := rows[i];
      if Contains(row.id, DiseaseMarker) {
        diseases := diseases[row.id := row.name];
      } else if Contains(row.id, CompoundMarker) {
        compounds := compounds[row.id := row.name];
      } else if Contains(row.id, GeneMarker) {
        genes := genes[row.id := row.name];
      } else if Contains(row.id, AnatomyMarker) {
        locations := locations[row.id := row.name];
      }
      AssignedStep(wd, i);
      AssignedStep(wc, i);
      AssignedStep(wg, i);
      AssignedStep(wa, i);
      i := i + 1;
    }
    assert wd[..|rows|] == wd && wc[..|rows|] == wc && wg[..|rows|] == wg && wa[..|rows|] == wa;
    KindsDisjoint(rows, DiseaseNode, CompoundNode);
    KindsDisjoint(rows, DiseaseNode, GeneNode);
    KindsDisjoint(rows, DiseaseNode, AnatomyNode);
    KindsDisjoint(rows, CompoundNode, GeneNode);
    KindsDisjoint(rows, CompoundNode, AnatomyNode);
    KindsDisjoint(rows, GeneNode, AnatomyNode);
  }
}
