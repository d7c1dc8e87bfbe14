# Instance batches and table graphs, modelled in Dafny

This project models the instance layer of a document-flow backend. It covers four things:

- **Dotted paths.** A client addresses a project, a relation store, a relation table or a
  relation table field with a dotted path such as `acme.stores.relation.main.users.id`.
  An optional attribute dictionary can come with it. The path grammar is
  `apps/instance/utils/instance_tree.py`.
- **Operation batches.** A batch is a list of `[op_code, path, attrs?]` triples, where
  op code 1 is create and 2 is delete. `InstanceProcessor.process`, in
  `apps/instance/utils/instance_processor.py`, runs a batch in three steps:
  1. It parses every triple.
  2. It validates the whole batch against in-memory sets of the fully-qualified names
     already stored, the "name index". Accepted operations update the index, and a
     delete cascades by string prefix. A second pass then checks every field
     reference against the final field names.
  3. Only if both passes succeed does it execute the operations against the database.
- **The database.** Projects, stores, tables and fields have uniqueness constraints and
  CASCADE / SET_NULL delete rules (`apps/instance/models.py`). The model treats the
  database as an abstract catalog: four maps from ids to rows.
- **Table groups.** `apps/instance/utils/graph.py` pairs every field's table with the
  table of the field it references. It then merges per-table neighbour sets into groups.
  It also looks up the group of one table.

Modules:

| file | module | what it holds |
|---|---|---|
| `wrappers.dfy` | `Wrappers` | `Option`, `Result` |
| `dotted.dfy` | `Dotted` | `str.split('.')`, `'.'.join`, `str.startswith` and the facts connecting them |
| `instance_tree.dfy` | `InstanceTree` | the recognizer chain `Parse` / `ParseRow`, `_validate_attrs` as `CheckAttrs` |
| `models.dfy` | `Models` | the catalog, its constraints `Valid`, inserts, cascading deletes, `objects.get` |
| `processor.dfy` | `Processor` | operations, the class `InstanceProcessor`, which holds the name index and the catalog, and the specification functions for validation and execution |
| `processor_properties.dfy` | `ProcessorProperties` | what validation accepts and how it moves the index |
| `processor_simulation.dfy` | `ProcessorSimulation` | validation predicts execution for batches of plain creates |
| `processor_examples.dfy` | `ProcessorExamples` | concrete batches showing how the code as written behaves |
| `graph.dfy` | `Graph` | `get_actual_graphs` (three loops) and `get_graph` |

## How the code is followed

The model keeps the following behaviours of the code as written:

- **No seven-segment check.** A path of more than six segments is not rejected. The
  error object at instance_tree.py:136 is built but never raised, so such a path parses
  as a field named from segments 0, 3, 4 and 5 (counting from 0).
- **Cascades match on a bare prefix.** They use `startswith` with no trailing dot. So
  deleting project `a` also removes the indexed stores, tables and fields of project
  `ab`.
- **Deleting an absent field name** from the index raises the `KeyError` of
  `set.remove`, not an `OperationError`.
- **A field delete removes by table only.** At execution it removes every field of the
  table, whatever the field's own name.
- **A malformed triple** (wrong length or op code) raises a bare `raise`. That appears
  as the error `BareRaise`.
- **Forward references.** A reference to a field created later in the same batch
  passes validation, because it is checked against the final names. It then fails at
  execution with `DoesNotExist`.
- **Execution is not transactional.** An execution error leaves the earlier operations
  applied, as nothing in `execute` wraps the loop in a transaction.
- **Groups may overlap.** In `get_actual_graphs` a neighbour set is merged into the
  first group it meets only, so one table can end up in two groups.

## Model

| member | source | states |
|---|---|---|
| `Dotted.SplitJoin` | apps/instance/utils/instance_tree.py:177 | splitting the dot-join of a non-empty list of dot-free parts gives the parts back |
| `Dotted.JoinSplit` | apps/instance/utils/instance_tree.py:177 | re-joining the split of any string gives the string back |
| `InstanceTree.CheckAttrsAccepts` | apps/instance/utils/instance_tree.py:142-162 | `_validate_attrs` accepts exactly when: `type` is a non-empty string; every key is type/field/order with a truthy value; `field` has four dot-parts; `order` is an int or bool |
| `InstanceTree.ParseShape` | apps/instance/utils/instance_tree.py:173-179 | any successful parse yields a well-formed target: the name has as many dot-parts as the kind is deep; a project carries only its name; a store also carries type `relation`; a field's other attributes pass the check |
| `InstanceTree.ParseProjectPath` | apps/instance/utils/instance_tree.py:43-49 | a one-segment path is a project exactly when attrs are empty, with `name` the segment |
| `InstanceTree.ParseStorePath` | apps/instance/utils/instance_tree.py:95-102 | `p.stores.relation.s` is store `p.s` of type `relation` exactly when attrs are empty |
| `InstanceTree.ParseTablePath` | apps/instance/utils/instance_tree.py:115-118 | `p.stores.relation.s.t` is table `p.s.t`, keeping all attrs |
| `InstanceTree.ParseFieldPath` | apps/instance/utils/instance_tree.py:134-140 | a six-segment path is field `p.s.t.f` exactly when the attrs pass `_validate_attrs` |
| `InstanceTree.ParseRejectsPrefix` | apps/instance/utils/instance_tree.py:51-82 | a second segment other than `stores`, a third other than `relation`, or a path stopping at `relation` fails with the matching error |
| `InstanceTree.LongPathParsesAsField` | apps/instance/utils/instance_tree.py:134-136 | a path of more than six segments parses exactly as its first six |
| `Models.Get` | apps/instance/utils/instance_processor.py:259 | `objects.get` succeeds exactly on one match, otherwise fails with DoesNotExist or MultipleObjectsReturned |
| `Models.CreateProject` | apps/instance/models.py:9 | an insert succeeds exactly when no project has the name |
| `Models.CreateStore` | apps/instance/models.py:23-30 | succeeds exactly when the project exists and has no store of that name |
| `Models.CreateTable` | apps/instance/models.py:38-49 | succeeds exactly when the store exists and has no table of that name |
| `Models.CreateField` | apps/instance/models.py:57-69 | succeeds exactly when the table and any referenced field exist, the order is non-negative, and the name is new in the table |
| `Models.CreateStoreValid` | apps/instance/models.py:15-30 | a successful store insert keeps every constraint |
| `Models.CreateFieldValid` | apps/instance/models.py:55-69 | a successful field insert keeps every constraint |
| `Models.DeleteFields` | apps/instance/models.py:59 | deleting fields removes exactly them and nulls every reference to them |
| `Models.DeleteTables` | apps/instance/models.py:59-61 | deleting tables cascades to exactly their fields; every surviving field that referenced a cascaded field has its reference nulled (SET_NULL) and is otherwise unchanged |
| `Models.DeleteStores` | apps/instance/models.py:44 | deleting stores removes exactly those stores, exactly their tables and exactly those tables' fields; projects stay; surviving fields that referenced a cascaded field are nulled (SET_NULL) and otherwise unchanged |
| `Models.DeleteProjects` | apps/instance/models.py:25 | deleting projects removes exactly those projects, their stores, those stores' tables and those tables' fields; surviving fields that referenced a cascaded field are nulled (SET_NULL) and otherwise unchanged |
| `Models.DeleteProjectsValid` | apps/instance/models.py:25 | a cascading project delete keeps every constraint and leaves no store of a deleted project |
| `Models.LookupsUnique` | apps/instance/models.py:63-69 | in a valid catalog a name lookup at any level matches at most one row |
| `Processor.ParseOperations` | apps/instance/utils/instance_processor.py:47-65 | numbered 1..n in order, one operation per triple, or the error of the first triple that fails |
| `Processor.ParseOperationWellFormed` | apps/instance/utils/instance_processor.py:57-61 | every parsed operation carries a well-formed target |
| `Processor.InstanceProcessor.constructor` | apps/instance/utils/instance_processor.py:67-110 | the four name sets are the fully-qualified names of the catalog's rows |
| `Processor.InstanceProcessor.DeleteProjectName` | apps/instance/utils/instance_processor.py:112-117 | removes the project, every store starting with it and everything under those; KeyError when the project is absent |
| `Processor.InstanceProcessor.DeleteStoreName` | apps/instance/utils/instance_processor.py:119-124 | removes the store, every table starting with it and their fields; KeyError when absent |
| `Processor.InstanceProcessor.DeleteRelationTableName` | apps/instance/utils/instance_processor.py:126-131 | removes the table and every field starting with it; KeyError when absent |
| `Processor.InstanceProcessor.DeleteRelationTableFieldName` | apps/instance/utils/instance_processor.py:133-134 | removes the field; KeyError when absent |
| `Processor.InstanceProcessor.CheckProjectOperation` | apps/instance/utils/instance_processor.py:136-150 | the index moves as the project check says, or stays put and the error is reported |
| `Processor.InstanceProcessor.CheckRelationStoreOperation` | apps/instance/utils/instance_processor.py:152-167 | likewise for a store operation, checking the project first |
| `Processor.InstanceProcessor.CheckRelationTableOperation` | apps/instance/utils/instance_processor.py:169-194 | likewise for a table operation, checking store then project |
| `Processor.InstanceProcessor.CheckRelationTableFieldOperation` | apps/instance/utils/instance_processor.py:196-225 | likewise for a field operation, checking table, store and project |
| `Processor.InstanceProcessor.CheckOperations` | apps/instance/utils/instance_processor.py:227-245 | the error is that of the first rejected operation or first dangling reference; the index ends where the first pass stopped |
| `Processor.InstanceProcessor.CheckReferences` | apps/instance/utils/instance_processor.py:238-245 | the second loop reports exactly what the reference pass over the index's field names reports, leaving the index unchanged |
| `Processor.InstanceProcessor.Execute` | apps/instance/utils/instance_processor.py:312-321 | the catalog and error are those of executing the operations in order up to the first failure |
| `Processor.InstanceProcessor.Process` | apps/instance/utils/instance_processor.py:42-45 | a batch that fails to parse or validate leaves the catalog untouched; otherwise it is executed |
| `Processor.Reached` | apps/instance/utils/instance_processor.py:228-236 | when the first pass accepts everything, the index ends at its result |
| `ProcessorProperties.ParentFacts` | apps/instance/utils/instance_tree.py:100-139 | a name is its parent, a dot and a dot-free last part; it starts with its parent |
| `ProcessorProperties.ParentOfParts` | apps/instance/utils/instance_processor.py:152-225 | the parent names the checks build by hand are the dotted prefixes of the name |
| `ProcessorProperties.DropProjectExact` | apps/instance/utils/instance_processor.py:112-117 | on a hierarchical index the loop cascade equals removing the project and every lower name starting with it |
| `ProcessorProperties.DropStoreExact` | apps/instance/utils/instance_processor.py:119-124 | likewise for a store |
| `ProcessorProperties.RemoveAtHierarchical` | apps/instance/utils/instance_processor.py:112-134 | a delete keeps every indexed name's parent indexed |
| `ProcessorProperties.Ancestors` | apps/instance/utils/instance_processor.py:169-225 | in a hierarchical index a present parent implies present grandparents, so those checks never fail first |
| `ProcessorProperties.CheckCreate` | apps/instance/utils/instance_processor.py:136-225 | a create passes exactly when its name is new and its parent exists, and the index then gains that name; otherwise it reports the missing parent as 'not exists', or else the name as 'already exists' |
| `ProcessorProperties.CheckDelete` | apps/instance/utils/instance_processor.py:136-225 | a delete passes exactly when its name exists and then prunes it; a missing parent is reported as 'not exists' of the parent; with the parent present, an absent field gives KeyError and any other absent name 'not exists' |
| `ProcessorProperties.CheckStepHierarchical` | apps/instance/utils/instance_processor.py:227-236 | every accepted operation keeps the index hierarchical |
| `ProcessorProperties.FirstPassHierarchical` | apps/instance/utils/instance_processor.py:227-236 | the whole first pass keeps the index hierarchical |
| `ProcessorProperties.RepeatFails` | apps/instance/utils/instance_processor.py:136-225 | the same operation accepted once is rejected when it comes again |
| `ProcessorProperties.ReferencePassSpec` | apps/instance/utils/instance_processor.py:238-245 | the reference pass passes exactly when no field operation references a name outside the final fields; otherwise it reports the first such one |
| `ProcessorProperties.ValidateSpec` | apps/instance/utils/instance_processor.py:227-245 | validation succeeds exactly when both passes do |
| `ProcessorExamples.DeleteProjectReachesSibling` | apps/instance/utils/instance_processor.py:112-117 | deleting project `a` also removes store `ab.s` of project `ab` from the index |
| `ProcessorExamples.SiblingStoreRefused` | apps/instance/utils/instance_processor.py:169-194 | so a later create of a table in `ab.s` is refused as 'store not exists' |
| `ProcessorExamples.ForwardReferenceFailsAtExecution` | apps/instance/utils/instance_processor.py:292-302 | a field referencing a field created later in the batch passes validation but fails with DoesNotExist at execution |
| `ProcessorExamples.FieldDeleteEmptiesTable` | apps/instance/utils/instance_processor.py:305-310 | deleting one field removes all fields of its table from the catalog, while the index removes only the one name |
| `ProcessorExamples.FieldDeleteIgnoresName` | apps/instance/utils/instance_processor.py:305-310 | two field deletes in the same table have the same effect on any catalog |
| `ProcessorSimulation.LoadedHierarchical` | apps/instance/utils/instance_processor.py:67-110 | the name sets loaded from a catalog with dot-free names are hierarchical: each name has its level's depth and its parent is loaded one level up |
| `ProcessorSimulation.StoreLookup` | apps/instance/utils/instance_processor.py:74-80 | a store name is indexed exactly when the catalog lookup for it matches a row |
| `ProcessorSimulation.TableLookup` | apps/instance/utils/instance_processor.py:82-91 | likewise for tables |
| `ProcessorSimulation.FieldLookup` | apps/instance/utils/instance_processor.py:93-110 | likewise for fields |
| `ProcessorSimulation.CreateAgrees` | apps/instance/utils/instance_processor.py:247-304 | a plain create the checks accept executes without error, and the names of the new catalog are the names the checks moved to |
| `ProcessorSimulation.BatchAgrees` | apps/instance/utils/instance_processor.py:42-45 | a batch of plain creates accepted by the first pass executes without error, ending at a catalog whose names are those the first pass ended with |
| `Graph.TablePairs` | apps/instance/utils/graph.py:12-18 | the pair set is exactly one pair per row, with a missing reference paired to its own table |
| `Graph.PairsEndpoints` | apps/instance/utils/graph.py:12-18 | the pairs mention exactly the tables of the rows |
| `Graph.NeighboursSpec` | apps/instance/utils/graph.py:20-23 | a table's neighbour set is itself plus every table paired with it in either direction |
| `Graph.Vertexes` | apps/instance/utils/graph.py:20-23 | walking the pair set once in any order: keys in first-seen order, each value the neighbour set |
| `Graph.Dedup` | apps/instance/utils/graph.py:20-26 | dict keys: no repeats, exactly the tables seen |
| `Graph.FirstMeeting` | apps/instance/utils/graph.py:32-36 | the first group that intersects, or none |
| `Graph.MergeGroups` | apps/instance/utils/graph.py:25-41 | the merge loop computes the merge of the neighbour sets in order |
| `Graph.MergeAllUnion` | apps/instance/utils/graph.py:25-41 | merging loses and adds no table |
| `Graph.MergeAllSize` | apps/instance/utils/graph.py:26-39 | never more groups than neighbour sets; at least one when there is one |
| `Graph.MergeAllAligned` | apps/instance/utils/graph.py:31-36 | merging keeps every group on one side of any cut the neighbour sets respect |
| `Graph.GetActualGraphs` | apps/instance/utils/graph.py:9-41 | the result is the merge of the neighbour sets for the order in which the pair set was walked |
| `Graph.ActualGraphsCover` | apps/instance/utils/graph.py:20-41 | the groups hold exactly the tables the pairs mention, in any walk order |
| `Graph.ActualGraphsCount` | apps/instance/utils/graph.py:26-39 | never more groups than tables; at least one if there is a pair |
| `Graph.ActualGraphsSound` | apps/instance/utils/graph.py:31-36 | every group lies inside or outside any set of tables no pair leaves |
| `Graph.SameGroupLinked` | apps/instance/utils/graph.py:31-36 | two tables in one group are not separated by any such set |
| `Graph.GroupsOverlap` | apps/instance/utils/graph.py:32-36 | walking pairs (1,1), (4,4), (1,2), (2,3), (3,4) gives groups {1,2,3,4} and {3,4}, which share 3 and 4 |
| `Graph.GetGraph` | apps/instance/utils/graph.py:51-56 | the first group holding the table, or the empty set when none does |

## Left out

- The HTTP views, serializers, URL routing, the `stash` and `load_instances` commands, snapshot paths and `scripts/django_models.py`. They are I/O around the core.
- Reading the stashed groups from the JSON file (`get_graphs`). `GetGraph` takes the list of groups as a parameter.
- The database queries. They become the abstract catalog in `Models`. Ids come from one counter shared by all four kinds of row.
- The text of exception messages. Errors are a datatype that carries the operation order, the model and the kind of message.
- The `hasattr` memoisation of the name sets. They are loaded once, by the constructor, from the catalog.
- `CharField` maximum lengths and the file-path validation of `snapshot`.
- The in-place rewriting of `operation.attrs` during execution (the name is replaced and ids are added). Each execution function reads the attrs it needs instead.
- Python values other than strings, ints, bools, None and opaque truthy values in attrs.
- A non-string path.
- Table keywords other than `name` and `snapshot`, such as `id` or `pk`. They are reported as an unexpected keyword. A snapshot that is not a string or None is reported as an integrity error.
- Python's set iteration order. `Vertexes` walks the pair set in an arbitrary order and returns the order it used. Every property above holds for every order.
- The aliasing between the `vertexes` dict and the `graphs` list. The merge only updates sets already visited, so it cannot change the result.
- `ProcessorSimulation.CreateAgrees`: covers only plain creates: no field reference, a non-negative order, and a string or None snapshot. Creates that reference a field already stored also agree, but the model does not prove it.
- `ProcessorSimulation.BatchAgrees`: covers only batches of such plain creates. Nothing general is proved about deletes. `ProcessorExamples.FieldDeleteEmptiesTable` shows that field deletes do not agree: execution removes every field of the table. Project, store and table deletes are expected to agree when no indexed name is a bare prefix of another one, but this is not proved. `ProcessorExamples.SiblingStoreRefused` shows what validation does when one name is such a prefix.
- The op code is an integer. Python's `==` also accepts `true` and `1.0` as the create code and `2.0` as the delete code, so such a triple runs as that operation. The model stands for it with the integer it equals.
