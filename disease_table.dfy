/**
 * The per-disease record the loaders fill, a
 * `defaultdict(lambda: {"drugs": set(), "genes": set(), "locations": set()})`,
 * and the single update they make to it, `disease_data[d][field].add(x)`.
 */
module DiseaseTable {
  import opened Rows

  datatype Field = Drugs | Genes | Locations

  /** The three sets kept for one disease id. */
  datatype DiseaseData = DiseaseData(drugs: set<string>, genes: set<string>, locations: set<string>)
  {
    function Get(f: Field): set<string>
    {
      match f
      case Drugs => drugs
      case Genes => genes
      case Locations => locations
    }
  }

  /** One `disease_data[disease][field].add(member)`. */
  datatype Addition = Addition(disease: string, field: Field, member: string)

  /** What the defaultdict's factory creates for a disease id on first access. */
  const NoData: DiseaseData := DiseaseData({}, {}, {})

  function Entry(table: map<string, DiseaseData>, d: string): DiseaseData
  {
    if d in table then table[d] else NoData
  }

  /** Performs one addition: creates the entry if missing and adds to one of its sets, leaving the rest alone. */
  function Add(table: map<string, DiseaseData>, a: Addition): map<string, DiseaseData>
  {
    var e := Entry(table, a.disease);
    var e' := match a.field
      case Drugs => e.(drugs := e.drugs + {a.member})
      case Genes => e.(genes := e.genes + {a.member})
      case Locations => e.(locations := e.locations + {a.member});
    table[a.disease := e']
  }

  /** What one addition changes: one more key at most, and one member more in one set of that key. */
  lemma AddGet(table: map<string, DiseaseData>, a: Addition)
    ensures Add(table, a).Keys == table.Keys + {a.disease}
    ensures forall d :: d in table && d != a.disease ==> Add(table, a)[d] == table[d]
    ensures forall f :: Add(table, a)[a.disease].Get(f) == Entry(table, a.disease).Get(f) + (if f == a.field then {a.member} else {})
  {
  }

  /** The members added to one set of one disease. */
  function Members(adds: set<Addition>, d: string, f: Field): set<string>
  {
    set a | a in adds && a.disease == d && a.field == f :: a.member
  }

  /** The table left by performing the additions `adds`, in any order and any number of times, on an empty table. */
  function Collect(adds: set<Addition>): (t: map<string, DiseaseData>)
    ensures forall d :: d in t <==> exists a :: a in adds && a.disease == d
  {
    map d | d in (set a | a in adds :: a.disease) ::
      DiseaseData(Members(adds, d, Drugs), Members(adds, d, Genes), Members(adds, d, Locations))
  }

  lemma CollectGet(adds: set<Addition>, d: string, f: Field)
    requires d in Collect(adds)
    ensures Collect(adds)[d].Get(f) == Members(adds, d, f)
  {
  }

  lemma MembersAdd(adds: set<Addition>, a: Addition, d: string, f: Field)
    ensures Members(adds + {a}, d, f) == Members(adds, d, f) + (if a.disease == d && a.field == f then {a.member} else {})
  {
  }

  /** Two records with the same three sets are the same record. */
  lemma DataExtensional(x: DiseaseData, y: DiseaseData)
    requires forall f :: x.Get(f) == y.Get(f)
    ensures x == y
  {
    assert x.Get(Drugs) == y.Get(Drugs) && x.Get(Genes) == y.Get(Genes) && x.Get(Locations) == y.Get(Locations);
  }

  /** Every addition the loop body makes for some row of `rows`, where `step` gives a row's additions. */
  function AdditionsOf(rows: set<EdgeRow>, step: EdgeRow -> set<Addition>): set<Addition>
  {
    set r, a | r in rows && a in step(r) :: a
  }

  /** One more row read adds that row's additions. */
  lemma AdditionsStep(rows: seq<EdgeRow>, i: int, step: EdgeRow -> set<Addition>)
    requires 0 <= i < |rows|
    ensures AdditionsOf(EdgeSet(rows[..i + 1]), step) == AdditionsOf(EdgeSet(rows[..i]), step) + step(rows[i])
  {
    EdgeSetStep(rows, i);
  }

  /** One set of one entry after one more addition, computed both ways. */
  lemma CollectAddAt(adds: set<Addition>, a: Addition, d: string, f: Field)
    requires d in Collect(adds + {a})
    ensures d in Add(Collect(adds), a)
    ensures Add(Collect(adds), a)[d].Get(f) == Collect(adds + {a})[d].Get(f)
  {
    AddGet(Collect(adds), a);
    MembersAdd(adds, a, d, f);
    CollectGet(adds + {a}, d, f);
    if d in Collect(adds) { CollectGet(adds, d, f); }
  }

  /** Performing one more addition on the collected table collects one more addition. */
  lemma CollectAdd(adds: set<Addition>, a: Addition)
    ensures Add(Collect(adds), a) == Collect(adds + {a})
  {
    var after := Collect(adds + {a});
    var added := Add(Collect(adds), a);
    AddGet(Collect(adds), a);
    assert added.Keys == after.Keys;
    forall d | d in after ensures added[d] == after[d] {
      CollectAddAt(adds, a, d, Drugs);
      CollectAddAt(adds, a, d, Genes);
      CollectAddAt(adds, a, d, Locations);
      DataExtensional(added[d], after[d]);
    }
  }
}
