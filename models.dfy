/**
 * The catalog of apps/instance/models.py as an abstract store: four tables
 * of rows keyed by id, the uniqueness constraints and foreign keys the
 * models declare, the cascading and SET_NULL delete rules, and the lookups
 * by name that the operation executor issues.
 */
module Models {
  import opened Wrappers

  type Id = nat

  /** `Store.RELATION_STORE`, the only entry of `Store.TYPES`. */
  const RelationStore: string := "relation"
  const StoreTypes: set<string> := {RelationStore}

  datatype Project = Project(name: string)
  datatype Store = Store(name: string, storeType: string, project: Id)
  /** `snapshot` is a nullable file path. */
  datatype RelationTable = RelationTable(name: string, snapshot: Option<string>, store: Id)
  /** `field` is a nullable reference to another field; `order` defaults to 0. */
  datatype RelationTableField = RelationTableField(name: string, fieldType: string, field: Option<Id>, order: int, relationTable: Id)

  /** One persisted state.  `nextId` stands for the id sequences: every id in use is below it. */
  datatype Catalog = Catalog(
    projects: map<Id, Project>,
    stores: map<Id, Store>,
    tables: map<Id, RelationTable>,
    fields: map<Id, RelationTableField>,
    nextId: Id)

  const EmptyCatalog: Catalog := Catalog(map[], map[], map[], map[], 0)

  datatype Kind = ProjectKind | StoreKind | TableKind | FieldKind

  /** The storage errors the executor can run into. */
  datatype Fault =
    | DoesNotExist(kind: Kind)            // `Model.objects.get` found nothing
    | MultipleObjectsReturned(kind: Kind) // `Model.objects.get` found several rows
    | IntegrityError(kind: Kind)          // a unique, foreign-key or check constraint failed
    | UnexpectedKeyword(kind: Kind)       // `Model.objects.create(**attrs)` got an unknown keyword

  ghost predicate IdsBelow(c: Catalog) {
    && (forall i :: i in c.projects ==> i < c.nextId)
    && (forall i :: i in c.stores ==> i < c.nextId)
    && (forall i :: i in c.tables ==> i < c.nextId)
    && (forall i :: i in c.fields ==> i < c.nextId)
  }

  /** `Project.name` is `unique=True`. */
  ghost predicate ProjectsValid(c: Catalog) {
    forall i, j :: i in c.projects && j in c.projects && c.projects[i].name == c.projects[j].name ==> i == j
  }

  /** The `project` foreign key and `choices=TYPES`. */
  ghost predicate StoresLinked(c: Catalog) {
    forall i :: i in c.stores ==> c.stores[i].project in c.projects && c.stores[i].storeType in StoreTypes
  }

  /** `store_unique_name_project`. */
  ghost predicate StoresUnique(c: Catalog) {
    forall i, j ::
      i in c.stores && j in c.stores && c.stores[i].name == c.stores[j].name && c.stores[i].project == c.stores[j].project
      ==> i == j
  }

  /** The `store` foreign key. */
  ghost predicate TablesLinked(c: Catalog) {
    forall i :: i in c.tables ==> c.tables[i].store in c.stores
  }

  /** `relation_table_unique_name_store`. */
  ghost predicate TablesUnique(c: Catalog) {
    forall i, j ::
      i in c.tables && j in c.tables && c.tables[i].name == c.tables[j].name && c.tables[i].store == c.tables[j].store
      ==> i == j
  }

  /** The `relation_table` and `field` foreign keys, and `order` being a PositiveIntegerField. */
  ghost predicate FieldsLinked(c: Catalog) {
    && (forall i :: i in c.fields ==> c.fields[i].relationTable in c.tables && c.fields[i].order >= 0)
    && (forall i :: i in c.fields && c.fields[i].field.Some? ==> c.fields[i].field.value in c.fields)
  }

  /** `relation_table_field_unique_name_relation_table`. */
  ghost predicate FieldsUnique(c: Catalog) {
    forall i, j ::
      i in c.fields && j in c.fields && c.fields[i].name == c.fields[j].name
      && c.fields[i].relationTable == c.fields[j].relationTable
      ==> i == j
  }

  /** Every constraint models.py declares holds. */
  ghost predicate Valid(c: Catalog) {
    && IdsBelow(c) && ProjectsValid(c)
    && StoresLinked(c) && StoresUnique(c)
    && TablesLinked(c) && TablesUnique(c)
    && FieldsLinked(c) && FieldsUnique(c)
  }

  // ---------------------------------------------------------------------
  // Deletes: CASCADE from project to store to table to field, SET_NULL on
  // the `field` reference of the fields that pointed at a deleted field.

  function StoresOfProjects(c: Catalog, ids: set<Id>): set<Id> {
    set i | i in c.stores && c.stores[i].project in ids
  }

  function TablesOfStores(c: Catalog, ids: set<Id>): set<Id> {
    set i | i in c.tables && c.tables[i].store in ids
  }

  function FieldsOfTables(c: Catalog, ids: set<Id>): set<Id> {
    set i | i in c.fields && c.fields[i].relationTable in ids
  }

  function SetNull(f: RelationTableField, deleted: set<Id>): RelationTableField {
    if f.field.Some? && f.field.value in deleted then f.(field := None) else f
  }

  /** Deletes the fields `ids`; the surviving fields that referenced one of them keep existing with no reference. */
  function DeleteFields(c: Catalog, ids: set<Id>): (r: Catalog)
    ensures r.projects == c.projects && r.stores == c.stores && r.tables == c.tables && r.nextId == c.nextId
    ensures r.fields.Keys == c.fields.Keys - ids
    ensures forall i :: i in r.fields ==>
      && r.fields[i].field == (if c.fields[i].field.Some? && c.fields[i].field.value in ids then None else c.fields[i].field)
      && r.fields[i] == c.fields[i].(field := r.fields[i].field)
  {
    c.(fields := map i | i in c.fields && i !in ids :: SetNull(c.fields[i], ids))
  }

  /**
   * Deletes the tables `ids` and, by CASCADE, their fields; a surviving field
   * that referenced a cascaded field loses the reference and keeps the rest.
   */
  function DeleteTables(c: Catalog, ids: set<Id>): (r: Catalog)
    ensures r.projects == c.projects && r.stores == c.stores && r.nextId == c.nextId
    ensures r.tables == c.tables - ids
    ensures r.fields.Keys == c.fields.Keys - FieldsOfTables(c, ids)
    ensures forall i :: i in r.fields ==> r.fields[i] == SetNull(c.fields[i], FieldsOfTables(c, ids))
  {
    DeleteFields(c.(tables := c.tables - ids), FieldsOfTables(c, ids))
  }

  /** Deletes the stores `ids` and, by CASCADE, their tables and those tables' fields. */
  function DeleteStores(c: Catalog, ids: set<Id>): (r: Catalog)
    ensures r.projects == c.projects && r.nextId == c.nextId
    ensures r.stores == c.stores - ids
    ensures r.tables == c.tables - TablesOfStores(c, ids)
    ensures r.fields.Keys == c.fields.Keys - FieldsOfTables(c, TablesOfStores(c, ids))
    ensures forall i :: i in r.fields ==> r.fields[i] == SetNull(c.fields[i], FieldsOfTables(c, TablesOfStores(c, ids)))
  {
    DeleteTables(c.(stores := c.stores - ids), TablesOfStores(c, ids))
  }

  /** Deletes the projects `ids` and, by CASCADE, everything below them. */
  function DeleteProjects(c: Catalog, ids: set<Id>): (r: Catalog)
    ensures r.projects == c.projects - ids && r.nextId == c.nextId
    ensures r.stores == c.stores - StoresOfProjects(c, ids)
    ensures r.tables == c.tables - TablesOfStores(c, StoresOfProjects(c, ids))
    ensures r.fields.Keys == c.fields.Keys - FieldsOfTables(c, TablesOfStores(c, StoresOfProjects(c, ids)))
    ensures forall i :: i in r.fields ==>
      r.fields[i] == SetNull(c.fields[i], FieldsOfTables(c, TablesOfStores(c, StoresOfProjects(c, ids))))
  {
    DeleteStores(c.(projects := c.projects - ids), StoresOfProjects(c, ids))
  }

  /** Deleting fields keeps every constraint: references to a deleted field are nulled, not left dangling. */
  lemma DeleteFieldsValid(c: Catalog, ids: set<Id>)
    requires Valid(c)
    ensures Valid(DeleteFields(c, ids))
  {
    var r := DeleteFields(c, ids);
    DeleteFieldsLinked(c, ids);
    assert FieldsUnique(r) by {
      forall i, j | i in r.fields && j in r.fields && r.fields[i].name == r.fields[j].name
        && r.fields[i].relationTable == r.fields[j].relationTable
        ensures i == j
      {
        assert c.fields[i].name == c.fields[j].name && c.fields[i].relationTable == c.fields[j].relationTable;
      }
    }
    FieldsOnlyChanged(c, r);
  }

  lemma DeleteFieldsLinked(c: Catalog, ids: set<Id>)
    requires FieldsLinked(c)
    ensures FieldsLinked(DeleteFields(c, ids))
  {
    var r := DeleteFields(c, ids);
    forall i | i in r.fields && r.fields[i].field.Some? ensures r.fields[i].field.value in r.fields {
      assert c.fields[i].field == r.fields[i].field;
    }
  }

  lemma DeleteTablesValidWhen(c: Catalog, ids: set<Id>)
    requires IdsBelow(c) && ProjectsValid(c) && StoresLinked(c) && StoresUnique(c) && TablesUnique(c)
    requires FieldsLinked(c) && FieldsUnique(c)
    requires forall i :: i in c.tables && i !in ids ==> c.tables[i].store in c.stores
    ensures Valid(DeleteTables(c, ids))
  {
    DeleteTablesAbove(c, ids);
    DeleteTablesFields(c, ids);
  }

  lemma DeleteTablesAbove(c: Catalog, ids: set<Id>)
    requires IdsBelow(c) && ProjectsValid(c) && StoresLinked(c) && StoresUnique(c) && TablesUnique(c)
    requires forall i :: i in c.tables && i !in ids ==> c.tables[i].store in c.stores
    ensures var r := DeleteTables(c, ids);
      IdsBelow(r) && ProjectsValid(r) && StoresLinked(r) && StoresUnique(r) && TablesLinked(r) && TablesUnique(r)
  {
  }

  lemma DeleteTablesFields(c: Catalog, ids: set<Id>)
    requires FieldsLinked(c) && FieldsUnique(c)
    ensures FieldsLinked(DeleteTables(c, ids)) && FieldsUnique(DeleteTables(c, ids))
  {
    var r := DeleteTables(c, ids);
    var gone := FieldsOfTables(c, ids);
    assert r == DeleteFields(c.(tables := c.tables - ids), gone);
    forall i | i in r.fields ensures r.fields[i].relationTable in r.tables && r.fields[i].order >= 0 {
      assert i !in gone;
    }
    forall i | i in r.fields && r.fields[i].field.Some? ensures r.fields[i].field.value in r.fields {
      assert c.fields[i].field == r.fields[i].field;
    }
    forall i, j | i in r.fields && j in r.fields && r.fields[i].name == r.fields[j].name
      && r.fields[i].relationTable == r.fields[j].relationTable
      ensures i == j
    {
      assert c.fields[i].name == c.fields[j].name && c.fields[i].relationTable == c.fields[j].relationTable;
    }
  }

  lemma DeleteStoresValidWhen(c: Catalog, ids: set<Id>)
    requires IdsBelow(c) && ProjectsValid(c) && StoresUnique(c) && TablesLinked(c) && TablesUnique(c)
    requires FieldsLinked(c) && FieldsUnique(c)
    requires forall i :: i in c.stores && i !in ids ==> c.stores[i].project in c.projects && c.stores[i].storeType in StoreTypes
    ensures Valid(DeleteStores(c, ids))
  {
    var c1 := c.(stores := c.stores - ids);
    var gone := TablesOfStores(c, ids);
    forall i | i in c1.tables && i !in gone ensures c1.tables[i].store in c1.stores {
    }
    DeleteTablesValidWhen(c1, gone);
  }

  /**
   * Deleting tables keeps every constraint, and no surviving field belongs
   * to a deleted table.
   */
  lemma DeleteTablesValid(c: Catalog, ids: set<Id>)
    requires Valid(c)
    ensures Valid(DeleteTables(c, ids))
    ensures forall i :: i in DeleteTables(c, ids).fields ==> DeleteTables(c, ids).fields[i].relationTable !in ids
  {
    DeleteTablesValidWhen(c, ids);
  }

  /** Deleting stores keeps every constraint; no table of a deleted store survives. */
  lemma DeleteStoresValid(c: Catalog, ids: set<Id>)
    requires Valid(c)
    ensures Valid(DeleteStores(c, ids))
    ensures forall i :: i in DeleteStores(c, ids).tables ==> DeleteStores(c, ids).tables[i].store !in ids
  {
    DeleteStoresValidWhen(c, ids);
  }

  /** Deleting projects keeps every constraint; no store of a deleted project survives. */
  lemma DeleteProjectsValid(c: Catalog, ids: set<Id>)
    requires Valid(c)
    ensures Valid(DeleteProjects(c, ids))
    ensures forall i :: i in DeleteProjects(c, ids).stores ==> DeleteProjects(c, ids).stores[i].project !in ids
  {
    var c1 := c.(projects := c.projects - ids);
    var gone := StoresOfProjects(c, ids);
    forall i | i in c1.stores && i !in gone
      ensures c1.stores[i].project in c1.projects && c1.stores[i].storeType in StoreTypes
    {
    }
    DeleteStoresValidWhen(c1, gone);
  }

  // ---------------------------------------------------------------------
  // Lookups by name, as the executor's `filter(...)` and `get(...)` issue them.

  function ProjectsNamed(c: Catalog, p: string): set<Id> {
    set i | i in c.projects && c.projects[i].name == p
  }

  /** `Store.objects.filter(name=s, project__name=p)`. */
  function StoresNamed(c: Catalog, p: string, s: string): set<Id> {
    set i | i in c.stores && c.stores[i].name == s && c.stores[i].project in c.projects
              && c.projects[c.stores[i].project].name == p
  }

  /** The same filter with `type=Store.RELATION_STORE` added. */
  function RelationStoresNamed(c: Catalog, p: string, s: string): set<Id> {
    set i | i in StoresNamed(c, p, s) && c.stores[i].storeType == RelationStore
  }

  /** `RelationTable.objects.filter(name=t, store__name=s, store__project__name=p)`. */
  function TablesNamed(c: Catalog, p: string, s: string, t: string): set<Id> {
    set i | i in c.tables && c.tables[i].name == t && c.tables[i].store in StoresNamed(c, p, s)
  }

  /** The field `<p>.<s>.<t>.<f>` looked up through its table, store and project names. */
  function FieldsNamed(c: Catalog, p: string, s: string, t: string, f: string): set<Id> {
    set i | i in c.fields && c.fields[i].name == f && c.fields[i].relationTable in TablesNamed(c, p, s, t)
  }

  /** `Model.objects.get(...)` over the rows a filter matched. */
  function Get(ids: set<Id>, kind: Kind): (r: Result<Id, Fault>)
    ensures r.Success? <==> |ids| == 1
    ensures r.Success? ==> ids == {r.value}
    ensures r.Failure? ==> r.error == if ids == {} then DoesNotExist(kind) else MultipleObjectsReturned(kind)
  {
    if ids == {} then Failure(DoesNotExist(kind))
    else if |ids| > 1 then Failure(MultipleObjectsReturned(kind))
    else
      var i := SingletonElement(ids);
      Success(i)
  }

  function SingletonElement(ids: set<Id>): (i: Id)
    requires |ids| == 1
    ensures ids == {i}
  {
    var i :| i in ids;
    assert |ids - {i}| == 0;
    assert ids - {i} == {};
    i
  }

  // ---------------------------------------------------------------------
  // Inserts, `Model.objects.create(...)`, failing on a violated constraint.

  /** `Project.objects.create(name=p)`. */
  function CreateProject(c: Catalog, p: string): (r: Result<Catalog, Fault>)
    ensures r.Success? <==> ProjectsNamed(c, p) == {}
    ensures r.Failure? ==> r.error == IntegrityError(ProjectKind)
  {
    if ProjectsNamed(c, p) != {} then Failure(IntegrityError(ProjectKind))
    else Success(c.(projects := c.projects[c.nextId := Project(p)], nextId := c.nextId + 1))
  }

  /** `Store.objects.create(name=s, type=..., project_id=project)`. */
  function CreateStore(c: Catalog, s: string, storeType: string, project: Id): (r: Result<Catalog, Fault>)
    ensures r.Success? <==> project in c.projects && (forall i :: i in c.stores ==> !(c.stores[i].name == s && c.stores[i].project == project))
  {
    if project !in c.projects || exists i :: i in c.stores && c.stores[i].name == s && c.stores[i].project == project then
      Failure(IntegrityError(StoreKind))
    else Success(c.(stores := c.stores[c.nextId := Store(s, storeType, project)], nextId := c.nextId + 1))
  }

  /** `RelationTable.objects.create(name=t, snapshot=..., store_id=store)`. */
  function CreateTable(c: Catalog, t: string, snapshot: Option<string>, store: Id): (r: Result<Catalog, Fault>)
    ensures r.Success? <==> store in c.stores && (forall i :: i in c.tables ==> !(c.tables[i].name == t && c.tables[i].store == store))
  {
    if store !in c.stores || exists i :: i in c.tables && c.tables[i].name == t && c.tables[i].store == store then
      Failure(IntegrityError(TableKind))
    else Success(c.(tables := c.tables[c.nextId := RelationTable(t, snapshot, store)], nextId := c.nextId + 1))
  }

  /** `RelationTableField.objects.create(name=f, type=..., order=..., relation_table_id=table, field_id=ref)`. */
  function CreateField(c: Catalog, f: string, fieldType: string, ref: Option<Id>, order: int, table: Id): (r: Result<Catalog, Fault>)
    ensures r.Success? <==>
      && table in c.tables && order >= 0 && (ref.Some? ==> ref.value in c.fields)
      && (forall i :: i in c.fields ==> !(c.fields[i].name == f && c.fields[i].relationTable == table))
  {
    if table !in c.tables || order < 0 || (ref.Some? && ref.value !in c.fields)
       || exists i :: i in c.fields && c.fields[i].name == f && c.fields[i].relationTable == table then
      Failure(IntegrityError(FieldKind))
    else Success(c.(fields := c.fields[c.nextId := RelationTableField(f, fieldType, ref, order, table)], nextId := c.nextId + 1))
  }

  /** A successful insert keeps every constraint of the catalog. */
  lemma CreateProjectValid(c: Catalog, p: string)
    requires Valid(c) && CreateProject(c, p).Success?
    ensures Valid(CreateProject(c, p).value)
  {
    assert forall j :: j in c.projects ==> c.projects[j].name != p by {
      forall j | j in c.projects ensures c.projects[j].name != p {
        assert j in ProjectsNamed(c, p) <==> c.projects[j].name == p;
      }
    }
  }

  lemma CreateStoreValid(c: Catalog, s: string, storeType: string, project: Id)
    requires Valid(c) && CreateStore(c, s, storeType, project).Success? && storeType in StoreTypes
    ensures Valid(CreateStore(c, s, storeType, project).value)
  {
    var r := CreateStore(c, s, storeType, project).value;
    assert c.nextId !in c.stores;
    assert StoresLinked(r) && StoresUnique(r);
    assert TablesLinked(r);
  }

  lemma CreateTableValid(c: Catalog, t: string, snapshot: Option<string>, store: Id)
    requires Valid(c) && CreateTable(c, t, snapshot, store).Success?
    ensures Valid(CreateTable(c, t, snapshot, store).value)
  {
    var r := CreateTable(c, t, snapshot, store).value;
    var row := RelationTable(t, snapshot, store);
    assert r.tables == c.tables[c.nextId := row];
    InsertTableUnique(c, r, row);
    InsertTableRest(c, r, row);
  }

  lemma InsertTableUnique(c: Catalog, r: Catalog, row: RelationTable)
    requires TablesUnique(c) && IdsBelow(c) && r.tables == c.tables[c.nextId := row]
    requires forall i :: i in c.tables ==> !(c.tables[i].name == row.name && c.tables[i].store == row.store)
    ensures TablesUnique(r)
  {
    var n := c.nextId;
    assert n !in c.tables;
    forall i, j | i in r.tables && j in r.tables && r.tables[i].name == r.tables[j].name && r.tables[i].store == r.tables[j].store
      ensures i == j
    {
      if i != n && j != n {
        assert r.tables[i] == c.tables[i] && r.tables[j] == c.tables[j];
      }
    }
  }

  /** Inserting a table row under an existing store keeps every constraint but table uniqueness. */
  lemma InsertTableRest(c: Catalog, r: Catalog, row: RelationTable)
    requires Valid(c) && row.store in c.stores
    requires r == c.(tables := c.tables[c.nextId := row], nextId := c.nextId + 1)
    ensures IdsBelow(r) && ProjectsValid(r) && StoresLinked(r) && StoresUnique(r) && TablesLinked(r)
    ensures FieldsLinked(r) && FieldsUnique(r)
  {
  }

  lemma CreateFieldValid(c: Catalog, f: string, fieldType: string, ref: Option<Id>, order: int, table: Id)
    requires Valid(c) && CreateField(c, f, fieldType, ref, order, table).Success?
    ensures Valid(CreateField(c, f, fieldType, ref, order, table).value)
  {
    var row := RelationTableField(f, fieldType, ref, order, table);
    assert CreateField(c, f, fieldType, ref, order, table).value == InsertField(c, row);
    InsertFieldValid(c, row);
  }

  function InsertField(c: Catalog, row: RelationTableField): Catalog {
    c.(fields := c.fields[c.nextId := row], nextId := c.nextId + 1)
  }

  lemma InsertFieldValid(c: Catalog, row: RelationTableField)
    requires Valid(c)
    requires row.relationTable in c.tables && row.order >= 0 && (row.field.Some? ==> row.field.value in c.fields)
    requires forall i :: i in c.fields ==> !(c.fields[i].name == row.name && c.fields[i].relationTable == row.relationTable)
    ensures Valid(InsertField(c, row))
  {
    var r := InsertField(c, row);
    InsertFieldLinked(c, r, row);
    InsertFieldUnique(c, r, row);
    FieldsOnlyChanged(c, r);
  }

  /** Changing only field rows leaves the constraints on projects, stores and tables as they were. */
  lemma FieldsOnlyChanged(c: Catalog, r: Catalog)
    requires IdsBelow(c) && ProjectsValid(c) && StoresLinked(c) && StoresUnique(c) && TablesLinked(c) && TablesUnique(c)
    requires r.projects == c.projects && r.stores == c.stores && r.tables == c.tables
    requires r.nextId >= c.nextId && forall i :: i in r.fields ==> i < r.nextId
    ensures IdsBelow(r) && ProjectsValid(r) && StoresLinked(r) && StoresUnique(r) && TablesLinked(r) && TablesUnique(r)
  {
  }

  lemma InsertFieldLinked(c: Catalog, r: Catalog, row: RelationTableField)
    requires FieldsLinked(c) && IdsBelow(c)
    requires r.tables == c.tables && r.fields == c.fields[c.nextId := row]
    requires row.relationTable in c.tables && row.order >= 0 && (row.field.Some? ==> row.field.value in c.fields)
    ensures FieldsLinked(r)
  {
    forall i | i in r.fields ensures r.fields[i].relationTable in r.tables && r.fields[i].order >= 0 {
      if i != c.nextId { assert r.fields[i] == c.fields[i]; }
    }
    forall i | i in r.fields && r.fields[i].field.Some? ensures r.fields[i].field.value in r.fields {
      if i != c.nextId { assert r.fields[i] == c.fields[i]; }
    }
  }

  lemma InsertFieldUnique(c: Catalog, r: Catalog, row: RelationTableField)
    requires FieldsUnique(c) && IdsBelow(c) && r.fields == c.fields[c.nextId := row]
    requires forall i :: i in c.fields ==> !(c.fields[i].name == row.name && c.fields[i].relationTable == row.relationTable)
    ensures FieldsUnique(r)
  {
    var n := c.nextId;
    assert n !in c.fields;
    forall i, j | i in r.fields && j in r.fields && r.fields[i].name == r.fields[j].name
      && r.fields[i].relationTable == r.fields[j].relationTable
      ensures i == j
    {
      if i != n && j != n {
        assert r.fields[i] == c.fields[i] && r.fields[j] == c.fields[j];
      }
    }
  }

  /** Under the uniqueness constraints, a lookup by fully-qualified name matches at most one row. */
  lemma LookupsUnique(c: Catalog, p: string, s: string, t: string, f: string)
    requires Valid(c)
    ensures |ProjectsNamed(c, p)| <= 1
    ensures |StoresNamed(c, p, s)| <= 1
    ensures |TablesNamed(c, p, s, t)| <= 1
    ensures |FieldsNamed(c, p, s, t, f)| <= 1
  {
    AtMostOne(ProjectsNamed(c, p));
    AtMostOne(StoresNamed(c, p, s));
    AtMostOne(TablesNamed(c, p, s, t));
    AtMostOne(FieldsNamed(c, p, s, t, f));
  }

  lemma AtMostOne(ids: set<Id>)
    requires forall i, j :: i in ids && j in ids ==> i == j
    ensures |ids| <= 1
  {
    if ids != {} {
      var i :| i in ids;
      assert ids == {i};
    }
  }
}
