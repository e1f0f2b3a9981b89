/**
 * Query 2 join, load_compound_gene_anatomy_relations: four gene-keyed
 * dictionaries (CdG, CuG, AdG, AuG), each keeping the last source seen for a
 * gene, joined on the gene with opposite directions.
 */
module GeneJoin {
  import opened Optional
  import opened Text
  import opened Rows
  import opened LastWrite

  /** The four dictionaries, named after the metaedge code each one looks for. */
  datatype Regulation = CdG | CuG | AdG | AuG

  function Code(reg: Regulation): string
  {
    match reg
    case CdG => "CdG"
    case CuG => "CuG"
    case AdG => "AdG"
    case AuG => "AuG"
  }

  function SourceMarker(reg: Regulation): string
  {
    if reg == CdG || reg == CuG then CompoundMarker else AnatomyMarker
  }

  /** One test of the `elif` chain: source marker, metaedge containing the code, target containing "Gene::". */
  predicate Matches(r: EdgeRow, reg: Regulation)
  {
    Contains(r.source, SourceMarker(reg)) && Contains(r.metaedge, Code(reg)) && Contains(r.target, GeneMarker)
  }

  /** The dictionary a row is written to: the first test of the chain that matches, if any. */
  function Link(r: EdgeRow): Option<Regulation>
  {
    if Matches(r, CdG) then Some(CdG)
    else if Matches(r, CuG) then Some(CuG)
    else if Matches(r, AdG) then Some(AdG)
    else if Matches(r, AuG) then Some(AuG)
    else None
  }

  /**
   * A row feeds at most one dictionary, one whose test it passes and which
   * comes first in the chain; a row passing no test feeds none.
   */
  lemma LinkIsFirstMatch(r: EdgeRow)
    ensures Link(r).Some? ==> Matches(r, Link(r).value)
    ensures Link(r) == Some(CuG) ==> !Matches(r, CdG)
    ensures Link(r) == Some(AdG) ==> !Matches(r, CdG) && !Matches(r, CuG)
    ensures Link(r) == Some(AuG) ==> !Matches(r, CdG) && !Matches(r, CuG) && !Matches(r, AdG)
    ensures Link(r).None? <==> forall reg :: !Matches(r, reg)
  {
  }

  /** The assignment `reg_map[target] = source` each row makes to dictionary `reg`, if any. */
  function GeneWrites(rows: seq<EdgeRow>, reg: Regulation): (w: seq<Option<(string, string)>>)
    ensures |w| == |rows|
  {
    seq(|rows|, i requires 0 <= i < |rows| =>
      if Link(rows[i]) == Some(reg) then Some((rows[i].target, rows[i].source)) else None)
  }

  /** Dictionary `reg` after the loop over the rows: gene id -> source id. */
  function GeneMap(rows: seq<EdgeRow>, reg: Regulation): map<string, string>
  {
    Assigned(GeneWrites(rows, reg))
  }

  /** A (gene, compound, anatomy) triple of the result set. */
  datatype Triple = Triple(gene: string, compound: string, anatomy: string)

  /** One of the two join loops: every gene of `compounds` also in `anatomies`. */
  function Joined(compounds: map<string, string>, anatomies: map<string, string>): set<Triple>
  {
    set g | g in compounds && g in anatomies :: Triple(g, compounds[g], anatomies[g])
  }

  /** The set load_compound_gene_anatomy_relations returns: CdG joined with AuG, CuG joined with AdG. */
  function JoinTriples(rows: seq<EdgeRow>): set<Triple>
  {
    Joined(GeneMap(rows, CdG), GeneMap(rows, AuG)) + Joined(GeneMap(rows, CuG), GeneMap(rows, AdG))
  }

  /** Row `i` writes `(gene, source)` into dictionary `reg`. */
  predicate RowWrites(rows: seq<EdgeRow>, i: int, reg: Regulation, gene: string)
  {
    0 <= i < |rows| && Link(rows[i]) == Some(reg) && rows[i].target == gene
  }

  /**
   * Last write wins: a gene is a key of dictionary `reg` exactly when some row
   * writes it there, and its value is the source of the last such row.
   */
  lemma GeneMapIsLastRow(rows: seq<EdgeRow>, reg: Regulation, g: string)
    ensures g in GeneMap(rows, reg) <==> exists i :: RowWrites(rows, i, reg, g)
    ensures g in GeneMap(rows, reg) ==>
              exists i :: RowWrites(rows, i, reg, g) && rows[i].source == GeneMap(rows, reg)[g] &&
                          forall j :: i < j < |rows| ==> !RowWrites(rows, j, reg, g)
  {
    var w := GeneWrites(rows, reg);
    assert forall i :: WritesKey(w, i, g) <==> RowWrites(rows, i, reg, g);
    AssignedKeys(w, g);
    if g in GeneMap(rows, reg) {
      AssignedIsLastWrite(w, g);
    }
  }

  /** A triple of one join loop comes from a row of each of its two dictionaries for its gene. */
  lemma JoinedFromRows(rows: seq<EdgeRow>, creg: Regulation, areg: Regulation, t: Triple)
    requires t in Joined(GeneMap(rows, creg), GeneMap(rows, areg))
    ensures t.compound == GeneMap(rows, creg)[t.gene] && t.anatomy == GeneMap(rows, areg)[t.gene]
    ensures exists i, j :: RowWrites(rows, i, creg, t.gene) && rows[i].source == t.compound &&
                           RowWrites(rows, j, areg, t.gene) && rows[j].source == t.anatomy
  {
    var g := t.gene;
    GeneMapIsLastRow(rows, creg, g);
    GeneMapIsLastRow(rows, areg, g);
    var i :| RowWrites(rows, i, creg, g) && rows[i].source == GeneMap(rows, creg)[g] &&
             forall k :: i < k < |rows| ==> !RowWrites(rows, k, creg, g);
    var j :| RowWrites(rows, j, areg, g) && rows[j].source == GeneMap(rows, areg)[g] &&
             forall k :: j < k < |rows| ==> !RowWrites(rows, k, areg, g);
  }

  /**
   * Every triple pairs a compound and an anatomy that regulate its gene in
   * opposite directions: a `CdG` row with an `AuG` row, or a `CuG` row with
   * an `AdG` row, each the last of its dictionary for that gene.
   */
  lemma TripleOrigin(rows: seq<EdgeRow>, t: Triple)
    requires t in JoinTriples(rows)
    ensures (t.gene in GeneMap(rows, CdG) && t.gene in GeneMap(rows, AuG) &&
             t.compound == GeneMap(rows, CdG)[t.gene] && t.anatomy == GeneMap(rows, AuG)[t.gene]) ||
            (t.gene in GeneMap(rows, CuG) && t.gene in GeneMap(rows, AdG) &&
             t.compound == GeneMap(rows, CuG)[t.gene] && t.anatomy == GeneMap(rows, AdG)[t.gene])
    ensures (exists i, j :: RowWrites(rows, i, CdG, t.gene) && rows[i].source == t.compound &&
                            RowWrites(rows, j, AuG, t.gene) && rows[j].source == t.anatomy) ||
            (exists i, j :: RowWrites(rows, i, CuG, t.gene) && rows[i].source == t.compound &&
                            RowWrites(rows, j, AdG, t.gene) && rows[j].source == t.anatomy)
  {
    if t in Joined(GeneMap(rows, CdG), GeneMap(rows, AuG)) {
      JoinedFromRows(rows, CdG, AuG, t);
    } else {
      JoinedFromRows(rows, CuG, AdG, t);
    }
  }

  /** A gene gives at most two triples: one through CdG/AuG and one through CuG/AdG. */
  lemma AtMostTwoPerGene(rows: seq<EdgeRow>, g: string)
    ensures |set t | t in JoinTriples(rows) && t.gene == g| <= 2
  {
    var mine := set t | t in JoinTriples(rows) && t.gene == g;
    var down := if g in GeneMap(rows, CdG) && g in GeneMap(rows, AuG)
                then {Triple(g, GeneMap(rows, CdG)[g], GeneMap(rows, AuG)[g])} else {};
    var up := if g in GeneMap(rows, CuG) && g in GeneMap(rows, AdG)
              then {Triple(g, GeneMap(rows, CuG)[g], GeneMap(rows, AdG)[g])} else {};
    assert mine <= down + up;
    assert |down| <= 1 && |up| <= 1;
    assert |down + up| <= 2;
    SubsetSize(mine, down + up);
  }

  lemma {:induction false} SubsetSize<T>(a: set<T>, b: set<T>)
    requires a <= b
    ensures |a| <= |b|
    decreases |b|
  {
    if a != {} {
      var x :| x in a;
      SubsetSize(a - {x}, b - {x});
    }
  }

  /** The two join loops: add to `acc` every gene of `compounds` that `anatomies` also has. */
  method AddJoined(compounds: map<string, string>, anatomies: map<string, string>, acc: set<Triple>)
    returns (triples: set<Triple>)
    ensures triples == acc + Joined(compounds, anatomies)
  {
    triples := acc;
    var todo := compounds.Keys;
    while todo != {}
      invariant todo <= compounds.Keys
      invariant triples == acc + Joined(map g | g in compounds.Keys - todo :: compounds[g], anatomies)
      decreases todo
    {
      var g :| g in todo;
      ghost var doneBefore := map k | k in compounds.Keys - todo :: compounds[k];
      if g in anatomies {
        triples := triples + {Triple(g, compounds[g], anatomies[g])};
      }
      todo := todo - {g};
      assert Joined(map k | k in compounds.Keys - todo :: compounds[k], anatomies) ==
             Joined(doneBefore, anatomies) + (if g in anatomies then {Triple(g, compounds[g], anatomies[g])} else {});
    }
    assert (map k | k in compounds.Keys - {} :: compounds[k]) == compounds;
  }

  /** Dictionary `reg` after the first `i` rows. */
  function GeneMapUpTo(rows: seq<EdgeRow>, reg: Regulation, i: int): map<string, string>
    requires 0 <= i <= |rows|
  {
    Assigned(GeneWrites(rows, reg)[..i])
  }

  /** Row `i` assigns `reg_map[target] = source` exactly when it links to `reg`. */
  lemma GeneMapStep(rows: seq<EdgeRow>, reg: Regulation, i: int)
    requires 0 <= i < |rows|
    ensures GeneMapUpTo(rows, reg, i + 1) ==
            if Link(rows[i]) == Some(reg) then GeneMapUpTo(rows, reg, i)[rows[i].target := rows[i].source]
            else GeneMapUpTo(rows, reg, i)
  {
    AssignedStep(GeneWrites(rows, reg), i);
  }

  /**
   * The body of the reading loop for one row: the `elif` chain assigns
   * `reg_map[target] = source` in the dictionary of the first test the row
   * passes, and in no other.
   */
  method AssignGene(row: EdgeRow, cdg: map<string, string>, cug: map<string, string>,
                    adg: map<string, string>, aug: map<string, string>)
    returns (cdg': map<string, string>, cug': map<string, string>,
             adg': map<string, string>, aug': map<string, string>)
    ensures cdg' == if Link(row) == Some(CdG) then cdg[row.target := row.source] else cdg
    ensures cug' == if Link(row) == Some(CuG) then cug[row.target := row.source] else cug
    ensures adg' == if Link(row) == Some(AdG) then adg[row.target := row.source] else adg
    ensures aug' == if Link(row) == Some(AuG) then aug[row.target := row.source] else aug
  {
    cdg', cug', adg', aug' := cdg, cug, adg, aug;
    if Contains(row.source, CompoundMarker) && Contains(row.metaedge, "CdG") && Contains(row.target, GeneMarker) {
      cdg' := cdg[row.target := row.source];
    } else if Contains(row.source, CompoundMarker) && Contains(row.metaedge, "CuG") && Contains(row.target, GeneMarker) {
      cug' := cug[row.target := row.source];
    } else if Contains(row.source, AnatomyMarker) && Contains(row.metaedge, "AdG") && Contains(row.target, GeneMarker) {
      adg' := adg[row.target := row.source];
    } else if Contains(row.source, AnatomyMarker) && Contains(row.metaedge, "AuG") && Contains(row.target, GeneMarker) {
      aug' := aug[row.target := row.source];
    }
  }

  /** load_compound_gene_anatomy_relations: the reading loop, then the two join loops. */
  method LoadCompoundGeneAnatomyRelations(rows: seq<EdgeRow>) returns (triples: set<Triple>)
    ensures triples == JoinTriples(rows)
  {
    var compoundCdG: map<string, string> := map[];
    var compoundCuG: map<string, string> := map[];
    var anatomyAdG: map<string, string> := map[];
    var anatomyAuG: map<string, string> := map[];
    var i := 0;
    while i < |rows|
      invariant 0 <= i <= |rows|
      invariant compoundCdG == GeneMapUpTo(rows, CdG, i) && compoundCuG == GeneMapUpTo(rows, CuG, i)
      invariant anatomyAdG == GeneMapUpTo(rows, AdG, i) && anatomyAuG == GeneMapUpTo(rows, AuG, i)
    {
      compoundCdG, compoundCuG, anatomyAdG, anatomyAuG :=
        AssignGene(rows[i], compoundCdG, compoundCuG, anatomyAdG, anatomyAuG);
      GeneMapStep(rows, CdG, i);
      GeneMapStep(rows, CuG, i);
      GeneMapStep(rows, AdG, i);
      GeneMapStep(rows, AuG, i);
      i := i + 1;
    }
    assert forall reg :: GeneWrites(rows, reg)[..|rows|] == GeneWrites(rows, reg);
    triples := AddJoined(compoundCdG, anatomyAuG, {});
    triples := AddJoined(compoundCuG, anatomyAdG, triples);
  }
}
