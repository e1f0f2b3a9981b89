# HetioNet loaders for Cassandra, modelled in Dafny

The repository loads the HetioNet biomedical graph (a node file and an edge
file, tab separated) and answers two questions about it:

* **Query 1 (disease profile).** For a disease id, give its name, the
  compounds that treat (`CtD`) or palliate (`CpD`) it, the genes it
  up-regulates (`DuG`) and the anatomies it is localised in (`DlA`). All of
  them are shown by display name.
* **Query 2 (drug repurposing).** Find the compounds that regulate a gene in
  the direction opposite to an anatomy. That means `CdG` against `AuG`, or
  `CuG` against `AdG`. Keep those that do not already treat a disease
  localised at that anatomy.

This project models the part of `scripts_cassandra/hetio_cassandra.py` that
turns rows into dictionaries, sets and records:

* the node loaders;
* the query 1 aggregation and the records written for it;
* the query 2 join, its disease/anatomy/compound table and the
  new-drug selection.

It also models the two pure helpers of the Neo4j loader `scripts/load_data.py`.
The model reads every Python `x in s` on strings as "`x` occurs somewhere in
`s`" (`Text.Contains`), not as a prefix test. The source does the same.

Modules:

* `Rows` holds the two row shapes, `NodeRow(id, name, kind)` and
  `EdgeRow(source, metaedge, target)`, and the four id markers.
* `LastWrite` gives the meaning of a dictionary filled by `d[k] = v` in a
  loop: the last assignment to a key wins.
* `DiseaseTable` gives the meaning of the
  `defaultdict(lambda: {"drugs": set(), "genes": set(), "locations": set()})`
  tables filled by `.add`. The result depends only on the set of additions made, not on
  their order or repetition.
* `NodeNames` covers `load_disease_names`, `load_drugs_names`,
  `load_gene_names` and `load_nodes_information`.
* `DiseaseQuery` covers `load_disease_relations`.
* `DiseaseRecords` covers the values built by `insert_disease_info`.
* `GeneJoin` covers `load_compound_gene_anatomy_relations`.
* `NewDrugs` covers `load_anatomy_desease_compound_relations` and
  `load_new_drugs_info`.
* `WorkedCases` proves what the model gives for two small edge files.
* `LoadData` covers `get_node_label` and `convert_relationship_type`.

Every loader loop of the source is a `method` with a `while` loop, and so
are the nested loops of `load_new_drugs_info`. Each is proved equal to a
specification function (`NamesOf`, `DiseaseRelations`,
`JoinTriples`, `AnatomyDiseaseCompound`, `NewDrugsInfo`). The lemmas then
state, in terms of the input rows, what those functions contain. The loop
of `insert_disease_info` over the relations table only builds one record
per key; it is the map comprehension `DiseaseRecords.DiseaseRecords`.

The program's start page states the two queries in words
(`scripts_cassandra/hetio_cassandra.py:423-437`). Where the code answers
something other than that wording, the model follows the code:

* Query 1 takes genes only from `DuG` rows. A disease's `DaG` (associates)
  and `DdG` (down-regulates) genes are not part of its profile
  (`WorkedCases.AssociatedGeneNotProfiled`).
* The record sets hold display names, not ids. Two ids with the same name
  appear once (`DiseaseRecords.SameNameMerged`). An id without a name
  appears as itself.
* A compound is excluded from the new drugs only when it treats a disease
  localised at the same anatomy as one of its triples. Treating some other disease
  does not exclude it (`WorkedCases.TreatmentElsewhereKept`).
* Becoming a candidate does not need any disease localised at the triple's
  anatomy, although the query 2 statement speaks of the location "where the
  disease occurs". Every compound of a join triple is a candidate, as long
  as the disease table of query 2 is not empty
  (`NewDrugs.LoadNewDrugsInfo`).
* Each of the four query 2 dictionaries keeps the last compound or anatomy
  seen for a gene. So a gene gives at most two triples
  (`GeneJoin.AtMostTwoPerGene`), not one per pair of opposite edges.
* Nothing in the loaders checks that an id is well formed, that a disease
  exists, or that an edge's endpoints occur in the node file. Only the
  Query 1 page tests that the typed id contains "Disease::"
  (`scripts_cassandra/hetio_cassandra.py:486`), and that page is not part of
  this model. Nothing sorts the results.
  An unknown disease id simply has no entry.
* If the edge file has no localisation and no treatment row, no compound is
  a new drug, whatever the join found (`NewDrugs.NoTableNoNewDrugs`). This
  is because `all_drugs_info` is filled inside the loop over the
  disease/anatomy table.

## Model

| member | source | states |
|---|---|---|
| NodeNames.NamesOfKeys | scripts_cassandra/hetio_cassandra.py:168-177 | an id is a key of a loader's dictionary exactly when some node row has that id and the loader's test keeps the id |
| NodeNames.NamesOfLastRow | scripts_cassandra/hetio_cassandra.py:168-177 | the name stored for an id comes from a row with that id, and no later row has that id (last assignment wins) |
| NodeNames.KindsDisjoint | scripts_cassandra/hetio_cassandra.py:170-177 | the `if`/`elif` chain puts an id into at most one of the four dictionaries |
| NodeNames.ClassificationPrecedence | scripts_cassandra/hetio_cassandra.py:170-177 | an id containing "Disease::" is a disease and in no other dictionary, whatever other markers it contains; an id with none of the four markers is in none of them |
| NodeNames.SameSelectionSameEntry | scripts_cassandra/hetio_cassandra.py:129-132 | two loaders that keep or drop an id alike have the same entry for it, with the same name |
| NodeNames.LoadNamesContaining | scripts_cassandra/hetio_cassandra.py:125-133 | the loop over the rows builds the dictionary of ids containing a marker, each with the last name seen |
| NodeNames.LoadDiseaseNames | scripts_cassandra/hetio_cassandra.py:123-133 | the keys are exactly the row ids containing "Disease::"; the result equals the disease dictionary of load_nodes_information |
| NodeNames.LoadDrugsNames | scripts_cassandra/hetio_cassandra.py:135-145 | the result is the last-assignment-wins dictionary of the ids containing "Compound::", whose keys are exactly those row ids; the compound dictionary of load_nodes_information is the part whose ids lack "Disease::", with the same names |
| NodeNames.LoadGeneNames | scripts_cassandra/hetio_cassandra.py:147-157 | the result is the last-assignment-wins dictionary of the ids containing "Gene::", whose keys are exactly those row ids; the gene dictionary of load_nodes_information is the part whose ids lack "Disease::" and "Compound::", with the same names |
| NodeNames.LoadNodesInformation | scripts_cassandra/hetio_cassandra.py:159-179 | one pass returns the four dictionaries of the `elif` chain (each with last-assignment-wins names), with pairwise disjoint keys |
| DiseaseTable.AddGet | scripts_cassandra/hetio_cassandra.py:195-206 | one `disease_data[d][field].add(x)` adds the key `d` if it is missing, adds `x` to that one set, and changes nothing else |
| DiseaseTable.CollectAdd | scripts_cassandra/hetio_cassandra.py:184-206 | one more `.add` on the table of a set of additions gives the table of that set plus the addition, so the table depends only on which additions were made |
| DiseaseQuery.AddRowRelations | scripts_cassandra/hetio_cassandra.py:193-206 | the two `if` blocks for one row turn the table of the earlier additions into the table that also holds the row's additions |
| DiseaseQuery.LoadDiseaseRelations | scripts_cassandra/hetio_cassandra.py:182-209 | the loop over the edge rows returns the table of all additions the rows call for |
| DiseaseQuery.DiseaseRelationsKeys | scripts_cassandra/hetio_cassandra.py:193-206 | a disease id has an entry exactly when it is the target of a `CtD`/`CpD` row or the source of a `DuG`/`DlA` row, with "Disease::" in that id |
| DiseaseQuery.DiseaseRelationsEntry | scripts_cassandra/hetio_cassandra.py:193-206 | an entry's drugs, genes and locations are exactly the sources of its `CtD`/`CpD` rows, the targets of its `DuG` rows and the targets of its `DlA` rows |
| DiseaseQuery.DiseaseRelationsIgnoreOrder | scripts_cassandra/hetio_cassandra.py:184-206 | two edge files with the same rows, in any order and with any repetition, give the same table |
| DiseaseQuery.OtherMetaedgesIgnored | scripts_cassandra/hetio_cassandra.py:193-206 | a row whose metaedge is not `CtD`, `CpD`, `DuG` or `DlA` (`DaG` and `DdG` among them) leaves the table unchanged |
| DiseaseRecords.DisplayNamesAtMostIds | scripts_cassandra/hetio_cassandra.py:87-89 | replacing ids by names never gives more names than there were ids |
| DiseaseRecords.UnnamedIdsShownAsIs | scripts_cassandra/hetio_cassandra.py:87-89 | ids with no entry in the name dictionary are shown as themselves |
| DiseaseRecords.SameNameMerged | scripts_cassandra/hetio_cassandra.py:87-89 | two different ids with the same name are shown as one name |
| DiseaseRecords.Record | scripts_cassandra/hetio_cassandra.py:85-89 | the disease name is its entry in the disease names or "Unknown Disease"; each of the three sets holds exactly the display names of the entry's ids (an id's name, or the id itself if it has none); no set grows |
| DiseaseRecords.DiseaseRecords | scripts_cassandra/hetio_cassandra.py:85-94 | exactly one record is written per disease of the relations table |
| DiseaseRecords.RecordFromRows | scripts_cassandra/hetio_cassandra.py:85-89 | end to end: a name is in a disease's drug, gene or location set exactly when some `CtD`/`CpD`, `DuG` or `DlA` row of that disease has an endpoint shown by that name |
| GeneJoin.LinkIsFirstMatch | scripts_cassandra/hetio_cassandra.py:228-235 | a row goes into the dictionary of the first test it passes, in the order CdG, CuG, AdG, AuG, and into none when it passes no test |
| GeneJoin.GeneMapIsLastRow | scripts_cassandra/hetio_cassandra.py:225-235 | a gene is a key of a dictionary exactly when some row is assigned to it there; its value is the source of the last such row |
| GeneJoin.TripleOrigin | scripts_cassandra/hetio_cassandra.py:237-247 | every triple joins a `CdG` compound with an `AuG` anatomy, or a `CuG` compound with an `AdG` anatomy, on its gene, and rows in the edge file are the witnesses |
| GeneJoin.AtMostTwoPerGene | scripts_cassandra/hetio_cassandra.py:237-247 | a gene occurs in at most two triples |
| GeneJoin.AddJoined | scripts_cassandra/hetio_cassandra.py:237-247 | each of the two join loops (CdG with AuG, then CuG with AdG) adds exactly one triple for each gene present in both dictionaries, and keeps what was already in the set |
| GeneJoin.GeneMapStep | scripts_cassandra/hetio_cassandra.py:228-235 | one more row changes a dictionary exactly when the row is assigned to it, and then only at the row's gene |
| GeneJoin.AssignGene | scripts_cassandra/hetio_cassandra.py:228-235 | the `elif` chain for one row assigns `target -> source` in the dictionary of the row's first test and leaves the other three alone |
| GeneJoin.LoadCompoundGeneAnatomyRelations | scripts_cassandra/hetio_cassandra.py:212-249 | the reading loop and the two join loops return the join of CdG with AuG and of CuG with AdG |
| NewDrugs.AddRowAnatomyDiseaseCompound | scripts_cassandra/hetio_cassandra.py:261-268 | the two `if` blocks for one row turn the table of the earlier additions into the table that also holds the row's additions |
| NewDrugs.LoadAnatomyDiseaseCompoundRelations | scripts_cassandra/hetio_cassandra.py:251-272 | the loop over the edge rows returns the table of all additions the rows call for |
| NewDrugs.AnatomyDiseaseCompoundKeys | scripts_cassandra/hetio_cassandra.py:261-268 | an id has an entry exactly when it is the source of a `DlA` row into an "Anatomy::" target or the target of a `CtD`/`CpD` row from a "Compound::" source |
| NewDrugs.AnatomyDiseaseCompoundEntry | scripts_cassandra/hetio_cassandra.py:261-268 | an entry's locations and drugs are exactly those rows' anatomies and compounds, and its genes set stays empty |
| NewDrugs.LoadNewDrugsInfo | scripts_cassandra/hetio_cassandra.py:274-295 | a compound is returned exactly when the table is not empty, the compound is in some triple, and no triple of it has an anatomy where a disease of the table that it treats is localised |
| NewDrugs.TreatedAtRows | scripts_cassandra/hetio_cassandra.py:283-287 | the test on the table holds exactly when the rows hold a treatment of some disease by the compound and a localisation of that disease at the anatomy |
| NewDrugs.AnatomyDiseaseCompoundEmpty | scripts_cassandra/hetio_cassandra.py:251-272 | the table is empty exactly when no row is a localisation or a treatment |
| NewDrugs.NewDrugsFromRows | scripts_cassandra/hetio_cassandra.py:274-292 | end to end over one edge file: a compound is a new drug exactly when the file has a localisation or treatment row, the compound is in a triple of the join, and it treats no disease localised at the anatomy of any of its triples |
| NewDrugs.TreatingCompoundExcluded | scripts_cassandra/hetio_cassandra.py:283-292 | a compound that treats a disease localised at the anatomy of one of its triples is never a new drug |
| NewDrugs.NoTableNoNewDrugs | scripts_cassandra/hetio_cassandra.py:276-292 | without localisation or treatment rows the result is empty, whatever the join found |
| NewDrugs.NewDrugHasOppositePair | scripts_cassandra/hetio_cassandra.py:228-247 | every new drug has a row regulating some gene that an anatomy's row regulates in the opposite direction |
| WorkedCases.AssociatedGeneNotProfiled | scripts_cassandra/hetio_cassandra.py:193-206 | for a disease that is treated, has a `DaG` gene and is localised, query 1's table is exactly the compound, no gene, and the anatomy |
| WorkedCases.Join | scripts_cassandra/hetio_cassandra.py:228-247 | a compound that up-regulates a gene an anatomy down-regulates gives exactly one triple |
| WorkedCases.TreatmentElsewhereKept | scripts_cassandra/hetio_cassandra.py:283-292 | that compound stays a new drug although it treats a disease, because the disease is not localised at the triple's anatomy |
| LoadData.GetNodeLabel | scripts/load_data.py:15-23 | "Compound", "Disease", "Gene" and "Anatomy" map to themselves; any other kind maps to "Entity"; the result is always one of those five labels |
| LoadData.ConvertRelationshipType | scripts/load_data.py:26-28 | same length; each `>` becomes `_` and every other character stays; no `>` remains |
| LoadData.ConvertIdempotent | scripts/load_data.py:26-28 | converting twice is converting once |
| LoadData.ConvertKeepsPlainTypes | scripts/load_data.py:26-28 | a metaedge without `>` is unchanged |

## Left out

- File and CSV reading are not modelled. The loaders take the rows already split into three fields. The header line is skipped before them. `next(reader)` raises on an empty file and unpacking raises on a row without exactly three fields; neither error is modelled.
- Starting and stopping Cassandra, the session, keyspace and table creation, `session.execute`, and the functions that read results back (`query_disease_info`, `query_all_disease_info`, `query_all_new_compounds_info`, `get_result_query1`, `get_result_query2`) are all I/O and are not modelled. `DiseaseRecords` models only the values `insert_disease_info` would write.
- `insert_compounds_info` is not modelled. It is I/O, and its `drugs_names[compound_id]` raises when a new drug has no compound name.
- Iteration order of Python dictionaries and sets is not modelled. Every result here is a map or a set, and the lemmas show that order does not change it.
- The Tkinter pages, the Neo4j connection, `load_nodes`, `load_edges` and the Neo4j query scripts are not modelled. The Neo4j loader contributes only `get_node_label` and `convert_relationship_type`. The pandas-based test is not modelled either.
- Unicode details of Python strings are not modelled. Strings are sequences of characters compared character by character, which is all `in`, `==` and `replace` need here.
